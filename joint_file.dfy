/** Reading a joint file: every line that fits the 32-byte line buffer becomes
    one six-component record; the line is split into tokens at runs of spaces
    the way `strtok(buffer, " ")` does, token k is read with `atof` into
    component k, and components after the last token stay zero. */
module JointFile {
  import opened Basics
  import opened DecimalParse

  /** Components per record: `joint.setZero(6)`. */
  const JointWidth := 6

  /** `char buffer[32]`: `getline` stores at most 31 characters of a line. */
  const LineBufferSize := 32

  type Joint = j: seq<real> | |j| == JointWidth witness [0.0, 0.0, 0.0, 0.0, 0.0, 0.0]

  predicate IsToken(t: string)
  {
    t != [] && ' ' !in t
  }

  /** Skips the delimiters that precede the next token. */
  function SkipDelimiters(s: string): string
  {
    if s != [] && s[0] == ' ' then SkipDelimiters(s[1..]) else s
  }

  /** The run of non-space characters that starts `s`. */
  function TokenPrefix(s: string): string
  {
    if s != [] && s[0] != ' ' then [s[0]] + TokenPrefix(s[1..]) else []
  }

  /** The text after the run of non-space characters that starts `s`. */
  function AfterToken(s: string): string
  {
    if s != [] && s[0] != ' ' then AfterToken(s[1..]) else s
  }

  lemma {:induction false} SkipDelimitersShape(s: string)
    ensures |SkipDelimiters(s)| <= |s|
    ensures SkipDelimiters(s) == [] || SkipDelimiters(s)[0] != ' '
  {
    if s != [] && s[0] == ' ' {
      SkipDelimitersShape(s[1..]);
    }
  }

  /** A text splits into its leading run of non-space characters and the
      rest, which is empty or starts with a space. */
  lemma {:induction false} TokenSplit(s: string)
    ensures s == TokenPrefix(s) + AfterToken(s)
    ensures ' ' !in TokenPrefix(s)
    ensures AfterToken(s) == [] || AfterToken(s)[0] == ' '
  {
    if s != [] && s[0] != ' ' {
      var head, tail := [s[0]], TokenPrefix(s[1..]);
      TokenSplit(s[1..]);
      assert TokenPrefix(s) == head + tail && AfterToken(s) == AfterToken(s[1..]);
      assert s == head + s[1..];
      assert ' ' !in head + tail by {
        assert forall c :: c in head + tail ==> c in head || c in tail;
      }
    }
  }

  /** When `t` has no space and `rest` is empty or starts with one, the
      leading run of `t + rest` is `t`. */
  lemma {:induction false} TokenSplitOf(t: string, rest: string)
    requires ' ' !in t
    requires rest == [] || rest[0] == ' '
    ensures TokenPrefix(t + rest) == t && AfterToken(t + rest) == rest
  {
    if t != [] {
      assert (t + rest)[0] == t[0] && (t + rest)[1..] == t[1..] + rest;
      TokenSplitOf(t[1..], rest);
      assert t == [t[0]] + t[1..];
    } else {
      assert t + rest == rest;
    }
  }

  /** One call of `strtok` with delimiter " ": the next maximal run of
      non-space characters and the text after it, or None at the end. */
  function NextToken(s: string): (r: Option<(string, string)>)
    ensures r.Some? ==> |r.value.1| < |s|
  {
    var t := SkipDelimiters(s);
    if t == [] then None
    else
      SkipDelimitersShape(s);
      TokenSplit(t);
      Some((TokenPrefix(t), AfterToken(t)))
  }

  /** `strtok` returns NULL exactly when only delimiters are left, and
      otherwise returns a non-empty run of non-space characters. */
  lemma NextTokenShape(s: string)
    ensures NextToken(s).None? <==> SkipDelimiters(s) == []
    ensures NextToken(s).Some? ==> IsToken(NextToken(s).value.0)
  {
    var t := SkipDelimiters(s);
    if t != [] {
      SkipDelimitersShape(s);
      TokenSplit(t);
    }
  }

  /** All tokens `strtok` returns for a line, in order. */
  function Tokens(s: string): seq<string>
    decreases |s|
  {
    match NextToken(s)
    case None => []
    case Some((t, rest)) => [t] + Tokens(rest)
  }

  /** Every token is a non-empty run of non-space characters. */
  lemma {:induction false} TokensAreTokens(s: string)
    ensures forall k :: 0 <= k < |Tokens(s)| ==> IsToken(Tokens(s)[k])
    decreases |s|
  {
    NextTokenShape(s);
    match NextToken(s)
    case None =>
    case Some((t, rest)) => TokensAreTokens(rest);
  }

  /** One call to `strtok(nullptr, " ")`: when `rest` holds the tokens from
      position `index` on, the call returns token `index` and leaves the
      tokens after it. */
  lemma TokenWalkStep(tokens: seq<string>, index: nat, rest: string)
    requires index <= |tokens| && Tokens(rest) == tokens[index..]
    requires NextToken(rest).Some?
    ensures index < |tokens| && tokens[index] == NextToken(rest).value.0
    ensures Tokens(NextToken(rest).value.1) == tokens[index + 1..]
  {
    assert tokens[index..][0] == tokens[index];
    assert tokens[index..][1..] == tokens[index + 1..];
  }

  /** `strtok` returning NULL means every token has been seen. */
  lemma TokenWalkEnd(tokens: seq<string>, index: nat, rest: string)
    requires index <= |tokens| && Tokens(rest) == tokens[index..]
    requires NextToken(rest).None?
    ensures index == |tokens|
  {
    assert |Tokens(rest)| == 0;
  }

  /** Tokens joined by single spaces. */
  function JoinWithSpaces(ts: seq<string>): string
  {
    if ts == [] then ""
    else if |ts| == 1 then ts[0]
    else ts[0] + " " + JoinWithSpaces(ts[1..])
  }

  lemma TokensAfterDelimiter(s: string)
    ensures Tokens(" " + s) == Tokens(s)
  {
    assert (" " + s)[1..] == s;
    assert SkipDelimiters(" " + s) == SkipDelimiters(s);
  }

  /** Splitting a single-space-separated line gives back exactly its tokens. */
  lemma {:induction false} TokensOfJoin(ts: seq<string>)
    requires forall k :: 0 <= k < |ts| ==> IsToken(ts[k])
    ensures Tokens(JoinWithSpaces(ts)) == ts
  {
    if ts == [] {
    } else if |ts| == 1 {
      var t := ts[0];
      TokenSplitOf(t, "");
      assert t + "" == t;
    } else {
      var t, rest := ts[0], " " + JoinWithSpaces(ts[1..]);
      var s := t + rest;
      assert JoinWithSpaces(ts) == s;
      TokenSplitOf(t, rest);
      assert SkipDelimiters(s) == s;
      TokensAfterDelimiter(JoinWithSpaces(ts[1..]));
      TokensOfJoin(ts[1..]);
    }
  }

  /** A blank line (empty, or spaces only) has no tokens. */
  lemma {:induction false} BlankLineHasNoTokens(s: string)
    requires forall k :: 0 <= k < |s| ==> s[k] == ' '
    ensures Tokens(s) == []
  {
    if s != [] {
      assert s == " " + s[1..];
      BlankLineHasNoTokens(s[1..]);
      TokensAfterDelimiter(s[1..]);
    }
  }

  /** `n` spaces. */
  function Spaces(n: nat): string
  {
    if n == 0 then "" else " " + Spaces(n - 1)
  }

  /** Tokens laid out with runs of spaces: `gaps[0]` spaces before the first
      token and `gaps[k + 1]` spaces after token k. */
  function JoinWithGaps(ts: seq<string>, gaps: seq<nat>): string
    requires |gaps| == |ts| + 1
  {
    if ts == [] then Spaces(gaps[0])
    else Spaces(gaps[0]) + ts[0] + JoinWithGaps(ts[1..], gaps[1..])
  }

  /** Leading spaces give no token. */
  lemma {:induction false} TokensAfterSpaces(n: nat, s: string)
    ensures Tokens(Spaces(n) + s) == Tokens(s)
  {
    if n > 0 {
      assert Spaces(n) + s == " " + (Spaces(n - 1) + s);
      TokensAfterDelimiter(Spaces(n - 1) + s);
      TokensAfterSpaces(n - 1, s);
    } else {
      assert Spaces(n) + s == s;
    }
  }

  /** A layout that starts with at least one space, or holds no token, is
      empty or starts with a space. */
  lemma {:induction false} GapsStartWithSpace(ts: seq<string>, gaps: seq<nat>)
    requires |gaps| == |ts| + 1 && (ts == [] || gaps[0] >= 1)
    ensures JoinWithGaps(ts, gaps) == [] || JoinWithGaps(ts, gaps)[0] == ' '
  {
    if gaps[0] >= 1 {
      var sp := Spaces(gaps[0]);
      assert sp[0] == ' ';
      if ts != [] {
        assert JoinWithGaps(ts, gaps) == sp + (ts[0] + JoinWithGaps(ts[1..], gaps[1..]));
      }
    }
  }

  /** Splitting a line whose tokens are separated by runs of one or more
      spaces, with any number of spaces before the first and after the
      last, gives back exactly its tokens: a run of spaces is one separator
      and spaces at either end give no token. */
  lemma {:induction false} TokensOfGaps(ts: seq<string>, gaps: seq<nat>)
    requires forall k :: 0 <= k < |ts| ==> IsToken(ts[k])
    requires |gaps| == |ts| + 1
    requires forall k :: 1 <= k < |ts| ==> gaps[k] >= 1
    ensures Tokens(JoinWithGaps(ts, gaps)) == ts
  {
    if ts == [] {
      TokensAfterSpaces(gaps[0], "");
      assert Spaces(gaps[0]) + "" == Spaces(gaps[0]);
    } else {
      var t, rest := ts[0], JoinWithGaps(ts[1..], gaps[1..]);
      assert JoinWithGaps(ts, gaps) == Spaces(gaps[0]) + (t + rest);
      TokensAfterSpaces(gaps[0], t + rest);
      GapsStartWithSpace(ts[1..], gaps[1..]);
      TokenSplitOf(t, rest);
      assert (t + rest)[0] == t[0];
      assert SkipDelimiters(t + rest) == t + rest;
      TokensOfGaps(ts[1..], gaps[1..]);
    }
  }

  /** A hand-edited line: spaces around and doubled between the tokens. */
  lemma SpacedLineTokens()
    ensures Tokens(" 0.1  0.2 0.3 ") == ["0.1", "0.2", "0.3"]
  {
    var ts, gaps := ["0.1", "0.2", "0.3"], [1, 2, 1, 1];
    assert JoinWithGaps(ts, gaps) == " 0.1  0.2 0.3 " by {
      assert Spaces(1) == " " && Spaces(2) == "  ";
      assert ts[1..] == ["0.2", "0.3"] && ts[1..][1..] == ["0.3"] && ts[1..][1..][1..] == [];
      assert gaps[1..] == [2, 1, 1] && gaps[1..][1..] == [1, 1] && gaps[1..][1..][1..] == [1];
    }
    TokensOfGaps(ts, gaps);
  }

  /** A zeroed record whose first `n` components (at most one per token)
      hold the numeric readings of the tokens `ts`. Only six components
      exist: a seventh token is written past the end of the record by the
      program, which the driver's precondition rules out (`JointLinesBounded`),
      and is not kept here. */
  function Record(ts: seq<string>, n: nat): Joint
  {
    seq(JointWidth, k requires 0 <= k < JointWidth => if k < n && k < |ts| then Atof(ts[k]) else 0.0)
  }

  lemma RecordEmpty(ts: seq<string>)
    ensures Record(ts, 0) == [0.0, 0.0, 0.0, 0.0, 0.0, 0.0]
  {
  }

  lemma RecordStep(ts: seq<string>, n: nat)
    requires n < |ts| && n < JointWidth
    ensures Record(ts, n + 1) == Record(ts, n)[n := Atof(ts[n])]
  {
  }

  /** The record a line denotes. */
  function ParseJoint(line: string): Joint
  {
    Record(Tokens(line), |Tokens(line)|)
  }

  /** A line of at most six tokens joined by single spaces is read back
      field by field: component k is the reading of token k, and the
      components after the last token are zero. */
  lemma {:induction false} JoinedTokensFillRecord(ts: seq<string>)
    requires |ts| <= JointWidth
    requires forall k :: 0 <= k < |ts| ==> IsToken(ts[k])
    ensures forall k :: 0 <= k < |ts| ==> ParseJoint(JoinWithSpaces(ts))[k] == Atof(ts[k])
    ensures forall k :: |ts| <= k < JointWidth ==> ParseJoint(JoinWithSpaces(ts))[k] == 0.0
  {
    TokensOfJoin(ts);
  }

  /** A line of at most six tokens separated by runs of spaces, with any
      spaces at its ends, is read back field by field: component k is the
      reading of token k, and the components after the last token are
      zero. */
  lemma GappedTokensFillRecord(ts: seq<string>, gaps: seq<nat>)
    requires |ts| <= JointWidth
    requires forall k :: 0 <= k < |ts| ==> IsToken(ts[k])
    requires |gaps| == |ts| + 1
    requires forall k :: 1 <= k < |ts| ==> gaps[k] >= 1
    ensures forall k :: 0 <= k < |ts| ==> ParseJoint(JoinWithGaps(ts, gaps))[k] == Atof(ts[k])
    ensures forall k :: |ts| <= k < JointWidth ==> ParseJoint(JoinWithGaps(ts, gaps))[k] == 0.0
  {
    TokensOfGaps(ts, gaps);
  }

  /** The decimal renderings of a list of naturals. */
  function Numerals(ns: seq<nat>): (r: seq<string>)
    ensures |r| == |ns|
  {
    if ns == [] then [] else [Numeral(ns[0])] + Numerals(ns[1..])
  }

  lemma {:induction false} NumeralsAreTokens(ns: seq<nat>)
    ensures forall k :: 0 <= k < |ns| ==> Numerals(ns)[k] == Numeral(ns[k]) && IsToken(Numerals(ns)[k])
  {
    if ns != [] {
      NumeralsAreTokens(ns[1..]);
      var s := Numeral(ns[0]);
      forall i | 0 <= i < |s| ensures s[i] != ' ' {
        assert IsDigit(s[i]);
      }
    }
  }

  /** Writing up to six naturals on a line, separated by single spaces, and
      reading the line back gives a record that holds them in order, followed
      by zeros. */
  lemma NumeralLineRoundTrip(ns: seq<nat>)
    requires |ns| <= JointWidth
    ensures var joint := ParseJoint(JoinWithSpaces(Numerals(ns)));
      && (forall k :: 0 <= k < |ns| ==> joint[k] == ns[k] as real)
      && (forall k :: |ns| <= k < JointWidth ==> joint[k] == 0.0)
  {
    NumeralsAreTokens(ns);
    JoinedTokensFillRecord(Numerals(ns));
    forall k | 0 <= k < |ns| ensures Atof(Numerals(ns)[k]) == ns[k] as real {
      AtofOfNumeral(ns[k]);
    }
  }

  /** The strtok loop of one line: `value` walks the tokens, `index++` fills
      the next component of a zeroed six-vector. */
  method ParseJointLine(line: string) returns (joint: Joint)
    requires |Tokens(line)| <= JointWidth
    ensures joint == ParseJoint(line)
  {
    ghost var tokens := Tokens(line);
    joint := [0.0, 0.0, 0.0, 0.0, 0.0, 0.0];
    RecordEmpty(tokens);
    var rest := line;
    var value := NextToken(rest);
    var index := 0;
    while value.Some?
      invariant 0 <= index <= |tokens|
      invariant value == NextToken(rest)
      invariant Tokens(rest) == tokens[index..]
      invariant joint == Record(tokens, index)
      decreases |tokens| - index
    {
      TokenWalkStep(tokens, index, rest);
      RecordStep(tokens, index);
      joint := joint[index := Atof(value.value.0)];
      index := index + 1;
      rest := value.value.1;
      value := NextToken(rest);
    }
    TokenWalkEnd(tokens, index, rest);
  }

  /** Number of lines `while (file.getline(buffer, 32, '\n'))` reads: it
      stops at the first line too long for the buffer. */
  function ReadCount(lines: seq<string>): (n: nat)
    ensures n <= |lines|
  {
    if lines == [] || |lines[0]| >= LineBufferSize then 0 else 1 + ReadCount(lines[1..])
  }

  /** The lines read are the ones before the first line that does not fit
      the buffer. */
  lemma {:induction false} ReadCountShape(lines: seq<string>)
    ensures forall k :: 0 <= k < ReadCount(lines) ==> |lines[k]| < LineBufferSize
    ensures ReadCount(lines) == |lines| || |lines[ReadCount(lines)]| >= LineBufferSize
  {
    if lines != [] && |lines[0]| < LineBufferSize {
      ReadCountShape(lines[1..]);
      forall k | 0 < k < ReadCount(lines) ensures |lines[k]| < LineBufferSize {
        assert lines[k] == lines[1..][k - 1];
      }
    }
  }

  /** No line that is read has more tokens than a record has components;
      a seventh token would be written past the end of the record. */
  predicate JointLinesBounded(lines: seq<string>)
  {
    forall k :: 0 <= k < ReadCount(lines) ==> |Tokens(lines[k])| <= JointWidth
  }

  /** The records a joint file yields: one per line read, in file order. */
  function JointRecords(lines: seq<string>): seq<Joint>
  {
    seq(ReadCount(lines), k requires 0 <= k < ReadCount(lines) => ParseJoint(lines[k]))
  }

  /** `joints.clear()` followed by the getline loop: the new joint sequence
      replaces the old one and holds one record per line read. */
  method ReadJointFile(lines: seq<string>) returns (joints: seq<Joint>)
    requires JointLinesBounded(lines)
    ensures joints == JointRecords(lines)
  {
    ghost var records := JointRecords(lines);
    ReadCountShape(lines);
    joints := [];
    var i := 0;
    while i < |lines| && |lines[i]| < LineBufferSize
      invariant 0 <= i <= ReadCount(lines)
      invariant joints == records[..i]
    {
      assert records[..i + 1] == records[..i] + [ParseJoint(lines[i])];
      var joint := ParseJointLine(lines[i]);
      joints := joints + [joint];
      i := i + 1;
    }
    assert records[..i] == records;
  }

  /** A blank line read from the file yields the all-zero record. */
  lemma BlankLineGivesZeroRecord(line: string)
    requires forall k :: 0 <= k < |line| ==> line[k] == ' '
    ensures ParseJoint(line) == [0.0, 0.0, 0.0, 0.0, 0.0, 0.0]
  {
    BlankLineHasNoTokens(line);
  }
}
