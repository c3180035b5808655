/** The cumulative joint offset of a link: link i is shifted by minus the sum
    of the translations (first three components) of joint records 0 .. i,
    stopping at the last record when there are fewer records than links. */
module JointChain {
  import opened Basics
  import opened Geometry
  import opened JointFile

  /** `vcg::Point3f(joint[0], joint[1], joint[2])`. */
  function Translation(j: Joint): Vec3
  {
    Vec3(j[0], j[1], j[2])
  }

  /** Sum of the translations of records 0 .. n-1. */
  function TranslationSum(js: seq<Joint>, n: nat): Vec3
    requires n <= |js|
  {
    if n == 0 then Zero else Add(TranslationSum(js, n - 1), Translation(js[n - 1]))
  }

  /** The offset `Trans` of link i, link by link: with no records every link
      is at the origin; link 0 is moved back by record 0's translation, each
      later link by its own record's translation from the previous link's
      offset, and links past the last record keep the last record's offset. */
  function JointOffset(js: seq<Joint>, i: nat): Vec3
  {
    if i == 0 then (if js == [] then Zero else Neg(Translation(js[0])))
    else if i < |js| then Sub(JointOffset(js, i - 1), Translation(js[i]))
    else JointOffset(js, i - 1)
  }

  lemma NegAdd(a: Vec3, b: Vec3)
    ensures Neg(Add(a, b)) == Sub(Neg(a), b)
  {
  }

  /** The offset of a link that has its own record is minus the sum of the
      translations of records 0 .. i. */
  lemma {:induction false} OffsetIsNegatedSum(js: seq<Joint>, i: nat)
    requires i < |js|
    ensures JointOffset(js, i) == Neg(TranslationSum(js, i + 1))
  {
    if i == 0 {
      NegAdd(Zero, Translation(js[0]));
    } else {
      OffsetIsNegatedSum(js, i - 1);
      NegAdd(TranslationSum(js, i), Translation(js[i]));
    }
  }

  /** The inner loop `for (j = 0; j < joints.size() && j <= i; j++) Trans -= ...`. */
  method LinkOffset(js: seq<Joint>, i: nat) returns (trans: Vec3)
    ensures trans == JointOffset(js, i)
  {
    trans := Zero;
    var j := 0;
    while j < |js| && j <= i
      invariant 0 <= j <= |js| && j <= i + 1
      invariant trans == Neg(TranslationSum(js, j))
    {
      NegAdd(TranslationSum(js, j), Translation(js[j]));
      trans := Sub(trans, Translation(js[j]));
      j := j + 1;
    }
    if j == i + 1 {
      OffsetIsNegatedSum(js, i);
    } else if js != [] {
      OffsetIsNegatedSum(js, |js| - 1);
      OffsetSaturates(js, i);
    } else {
      NoJointsNoOffset(i);
    }
  }

  /** With no joint records every link has a zero offset. */
  lemma {:induction false} NoJointsNoOffset(i: nat)
    ensures JointOffset([], i) == Zero
  {
    if i > 0 {
      NoJointsNoOffset(i - 1);
    }
  }

  /** Every link at or beyond the last joint record gets the offset of the
      last record's link. */
  lemma {:induction false} OffsetSaturates(js: seq<Joint>, i: nat)
    requires js != [] && i >= |js| - 1
    ensures JointOffset(js, i) == JointOffset(js, |js| - 1)
  {
    if i > |js| - 1 {
      OffsetSaturates(js, i - 1);
    }
  }

  /** Records whose translations are (1, 0, 0) and then (0, 1, 0) give
      (-1, 0, 0) for link 0 and (-1, -1, 0) for link 1 and every later link. */
  lemma TwoRecordExample(js: seq<Joint>, i: nat)
    requires |js| == 2
    requires Translation(js[0]) == Vec3(1.0, 0.0, 0.0) && Translation(js[1]) == Vec3(0.0, 1.0, 0.0)
    ensures JointOffset(js, 0) == Vec3(-1.0, 0.0, 0.0)
    ensures i >= 1 ==> JointOffset(js, i) == Vec3(-1.0, -1.0, 0.0)
  {
    assert JointOffset(js, 1) == Sub(JointOffset(js, 0), Translation(js[1]));
    if i >= 1 {
      OffsetSaturates(js, i);
    }
  }

  /** The records (1, 0, 0, 0, 0, 0) and (0, 1, 0, 0, 0, 0) are such records. */
  lemma TwoRecordLiterals()
    ensures var js: seq<Joint> := [[1.0, 0.0, 0.0, 0.0, 0.0, 0.0], [0.0, 1.0, 0.0, 0.0, 0.0, 0.0]];
      Translation(js[0]) == Vec3(1.0, 0.0, 0.0) && Translation(js[1]) == Vec3(0.0, 1.0, 0.0)
  {
  }
}
