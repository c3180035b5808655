/** Classification of one command-line token, tried in a fixed order: a
    positive numeric reading is the target mass, otherwise a ".txt" suffix
    names a joint file, otherwise the token is a mesh path, read with the
    COLLADA importer when it ends in ".dae" and the generic importer
    otherwise. */
module Arguments {
  import opened DecimalParse

  datatype Importer = DaeImporter | GenericImporter

  datatype ArgKind = MassOverride(mass: real) | JointFile | MeshFile(importer: Importer)

  /** `len > 3 && strcmp(arg + len - 4, suffix) == 0` for a four-letter suffix. */
  predicate HasSuffix(s: string, suffix: string)
  {
    |s| >= |suffix| && s[|s| - |suffix|..] == suffix
  }

  function Classify(arg: string): ArgKind
  {
    var value := Atof(arg);
    if value > 0.0 then MassOverride(value)
    else if HasSuffix(arg, ".txt") then JointFile
    else if HasSuffix(arg, ".dae") then MeshFile(DaeImporter)
    else MeshFile(GenericImporter)
  }

  /** A rendered positive number is always the target mass. */
  lemma NumeralIsMass(n: nat)
    requires n > 0
    ensures Classify(Numeral(n)) == MassOverride(n as real)
  {
    AtofOfNumeral(n);
  }

  /** The numeric test comes first: a joint-file-looking token such as
      "3.txt" is taken as the mass 3. */
  lemma NumericPrefixWinsOverSuffix()
    ensures Classify("3.txt") == MassOverride(3.0)
  {
    AtofOfDecimal(3, "", "txt");
    assert Numeral(3) + "." + "" + "txt" == "3.txt";
  }

  /** The numeric reading honours an exponent, so a mesh path such as
      "2e3.obj" is taken as the mass 2000. */
  lemma ExponentPathIsMass()
    ensures Classify("2e3.obj") == MassOverride(2000.0)
  {
  }

  /** A path whose first non-blank character is a letter, '/' or '_', and
      which does not begin with "inf" or "nan", is never the mass; it is a
      joint file exactly when it ends in ".txt". */
  lemma PathIsNotMass(arg: string)
    requires SkipSpace(arg) == [] || !(IsDigit(SkipSpace(arg)[0]) || SkipSpace(arg)[0] in "+-.")
    requires !NamesSpecialValue(SkipSpace(arg))
    ensures Classify(arg).JointFile? <==> HasSuffix(arg, ".txt")
    ensures !Classify(arg).MassOverride?
  {
    NonNumericReadsZero(arg);
  }
}
