/** The driver: the argument loop over `argv[1..]` followed by the report
    loop, with its two exit codes. The program fails with -1 when it is given
    no argument or when a mesh cannot be opened, and otherwise prints one
    URDF fragment per imported mesh and exits with 0. */
module UrdfFromFile {
  import opened Basics
  import opened Geometry
  import opened DecimalParse
  import opened Arguments
  import opened JointFile
  import opened JointChain
  import opened Accumulator
  import opened Normaliser

  /** The exit code of `main` and the link fragments it printed. */
  datatype Outcome = Outcome(exitCode: int, reports: seq<LinkReport>)

  /** The joint records in force after the loop: those of the last joint
      file among the arguments, or none. */
  function LastJoints(args: seq<string>, env: Environment): seq<Joint>
  {
    match LastJointFile(args)
    case None => []
    case Some(file) => JointRecords(env.jointLines(file))
  }

  /** After a successful loop the report loop has what it needs: one name
      per link and, with a non-degenerate argument list, a positive volume. */
  lemma LinksReportable(args: seq<string>, env: Environment)
    requires NonDegenerate(args, env)
    requires Process(args, env).Some?
    ensures Reportable(Process(args, env).value, args)
    ensures |Process(args, env).value.volPerLink| == |MeshArgs(args)|
  {
    ProcessLinks(args, env);
    ProcessConsistent(args, env);
    if |Process(args, env).value.volPerLink| > 0 {
      PositiveVolume(args, env);
    }
  }

  /** What `main` does with the arguments `argv[1..]`. */
  function Program(args: seq<string>, env: Environment): Outcome
    requires NonDegenerate(args, env)
  {
    if args == [] then Outcome(-1, [])
    else
      match Process(args, env)
      case None => Outcome(-1, [])
      case Some(s) =>
        LinksReportable(args, env);
        Outcome(0, Reports(s, args, |s.volPerLink|))
  }

  /** Once the loop has stopped early, the whole argument list fails. */
  lemma FailureStops(args: seq<string>, env: Environment, n: nat)
    requires n <= |args| && Process(args[..n], env).None?
    ensures Process(args, env).None?
  {
    ProcessFails(args[..n], env);
    var a :| a in args[..n] && ImportFails(a, env);
    var k :| 0 <= k < n && args[..n][k] == a;
    assert args[k] == a;
    ProcessFails(args, env);
  }

  /** One more argument: the loop state after `args[..i + 1]` is one step
      from the state after `args[..i]`. */
  lemma ProcessStep(args: seq<string>, env: Environment, i: nat, before: State)
    requires i < |args| && Process(args[..i], env) == Some(before)
    ensures Process(args[..i + 1], env) == Step(before, args[i], env)
  {
    assert args[..i + 1][..i] == args[..i];
    assert args[..i + 1][i] == args[i];
  }

  /** A joint file the loop reaches is one the program opens, so its lines
      fit the six-component records. */
  lemma ReachedJointFileFits(args: seq<string>, env: Environment, i: nat, s: State)
    requires JointFilesFit(args, env) && i < |args| && Process(args[..i], env) == Some(s)
    ensures Admissible(args[i], env)
  {
    ProcessFailsRec(args[..i], env);
  }

  /** One pass of the argument loop on the token `arg`: a positive reading
      replaces the mass, a ".txt" token replaces the joint records with those
      of its file, any other token is imported as a mesh with the importer
      its ".dae" suffix selects and adds a link; None is the early
      `return -1` of a mesh that cannot be opened. */
  method ArgumentPass(s: State, arg: string, env: Environment) returns (next: Option<State>)
    requires Admissible(arg, env)
    ensures next == Step(s, arg, env)
  {
    var tmp := Atof(arg);
    if tmp > 0.0 {
      StepMass(s, arg, env);
      return Some(s.(mass := tmp));
    }
    if HasSuffix(arg, ".txt") {
      StepJoints(s, arg, env);
      var joints := ReadJointFile(env.jointLines(arg));
      return Some(s.(joints := joints));
    }
    var importer := if HasSuffix(arg, ".dae") then DaeImporter else GenericImporter;
    var result := env.importMesh(importer, arg);
    if result.None? {
      StepMeshFails(s, arg, env, importer);
      return None;
    }
    var inertia := result.value;
    StepMesh(s, arg, env, importer, inertia);
    var vol := Abs(inertia.signedMass);
    next := Some(s.(volume := s.volume + vol,
                    volPerLink := s.volPerLink + [vol],
                    itVector := s.itVector + [inertia.tensor],
                    comVector := s.comVector + [inertia.centerOfMass]));
  }

  /** `main`: the loop over the arguments with its early returns, then the
      loop over the links. */
  method Run(args: seq<string>, env: Environment) returns (exitCode: int, reports: seq<LinkReport>)
    requires JointFilesFit(args, env) && NonDegenerate(args, env)
    ensures Outcome(exitCode, reports) == Program(args, env)
  {
    if |args| == 0 {
      return -1, [];
    }
    // The locals `mass`, `volume`, `VolPerLink`, `ITvector`, `COMvector`
    // and `joints`, kept together.
    var s := Initial;
    var i := 0;
    assert args[..0] == [];
    while i < |args|
      invariant 0 <= i <= |args|
      invariant Process(args[..i], env) == Some(s)
    {
      ProcessStep(args, env, i, s);
      ReachedJointFileFits(args, env, i, s);
      var next := ArgumentPass(s, args[i], env);
      if next.None? {
        FailureStops(args, env, i + 1);
        return -1, [];
      }
      s := next.value;
      i := i + 1;
    }
    assert args[..i] == args;
    LinksReportable(args, env);
    reports := EmitReports(s, args);
    exitCode := 0;
  }

  /** The exit code is 0 or -1; it is -1, with nothing reported, exactly
      when there is no argument or some mesh fails to open. */
  lemma ExitCodes(args: seq<string>, env: Environment)
    requires NonDegenerate(args, env)
    ensures Program(args, env).exitCode == 0 || Program(args, env).exitCode == -1
    ensures Program(args, env).exitCode == -1 <==>
      args == [] || exists a :: a in args && ImportFails(a, env)
    ensures Program(args, env).exitCode == -1 ==> Program(args, env).reports == []
  {
    ProcessFails(args, env);
  }

  /** Only `argc <= 1` is rejected: arguments without any mesh, such as a
      lone mass, give exit code 0 and no link at all. */
  lemma NoMeshStillSucceeds(args: seq<string>, env: Environment)
    requires args != []
    requires forall k :: 0 <= k < |args| ==> !Classify(args[k]).MeshFile?
    ensures NonDegenerate(args, env)
    ensures Program(args, env) == Outcome(0, [])
  {
    NoMeshArgs(args);
    ExitCodes(args, env);
    SuccessfulRunLinks(args, env);
  }

  /** A successful run reports one link per mesh argument; link j is named
      after the j-th argument (`argv[j+1]`), not after its mesh. */
  lemma SuccessfulRunLinks(args: seq<string>, env: Environment)
    requires NonDegenerate(args, env)
    requires Program(args, env).exitCode == 0
    ensures var reports := Program(args, env).reports;
      && |reports| == |MeshArgs(args)|
      && forall j :: 0 <= j < |reports| ==>
           reports[j].linkName == args[j] && reports[j].meshUri == "model://" + args[j]
  {
    var s := Process(args, env).value;
    LinksReportable(args, env);
    ReportsShape(s, args, |s.volPerLink|);
  }

  /** The link masses of a successful run with at least one mesh add up to
      the target mass, and each lies between zero and it. */
  lemma SuccessfulRunMass(args: seq<string>, env: Environment)
    requires NonDegenerate(args, env)
    requires Program(args, env).exitCode == 0 && MeshArgs(args) != []
    ensures TotalMass(Program(args, env).reports) == MassOf(args)
    ensures forall j :: 0 <= j < |Program(args, env).reports| ==>
      0.0 <= Program(args, env).reports[j].mass <= MassOf(args)
  {
    var s := Process(args, env).value;
    var n := |s.volPerLink|;
    LinksReportable(args, env);
    ProcessMass(args, env);
    MassConservation(s, args);
    ReportsShape(s, args, n);
    forall j | 0 <= j < n ensures 0.0 <= Reports(s, args, n)[j].mass <= s.mass {
      LinkMassBounds(s, args, j);
    }
  }

  /** On success, report j is the report the normaliser makes of link j. */
  lemma ProgramReport(args: seq<string>, env: Environment, j: nat)
    requires NonDegenerate(args, env)
    requires Program(args, env).exitCode == 0 && j < |Program(args, env).reports|
    ensures var s := Process(args, env).value;
      && Reportable(s, args)
      && |Program(args, env).reports| == |s.volPerLink| == |MeshArgs(args)|
      && Program(args, env).reports[j] == ReportAt(s, args, j)
  {
    var s := Process(args, env).value;
    LinksReportable(args, env);
    ReportsShape(s, args, |s.volPerLink|);
  }

  /** Link j of a successful run, in terms of the mesh it came from: the
      mass in force is the last positive numeric token, the total volume is
      the sum of the meshes' absolute volumes, and the link's mass is its
      mesh's absolute volume times the density, target mass over total
      volume. */
  lemma SuccessfulRunLinkMass(args: seq<string>, env: Environment, s: State, reports: seq<LinkReport>, j: nat)
    requires NonDegenerate(args, env)
    requires Program(args, env) == Outcome(0, reports) && Process(args, env) == Some(s)
    requires j < |reports|
    ensures |reports| == |MeshArgs(args)| == |s.volPerLink|
    ensures s.mass == MassOf(args)
    ensures s.volume == Sum(s.volPerLink) > 0.0
    ensures Import(MeshArgs(args)[j], env).Some?
    ensures s.volPerLink[j] == Abs(Import(MeshArgs(args)[j], env).value.signedMass)
    ensures reports[j].mass == s.mass / s.volume * s.volPerLink[j]
  {
    ProgramReport(args, env, j);
    ProcessLinks(args, env);
    ProcessMass(args, env);
    LinkMassIsDensityTimesVolume(s, args, j);
  }

  /** The tensor of link j is its mesh's unit-density tensor scaled by the
      density, target mass over total volume. */
  lemma SuccessfulRunLinkTensor(args: seq<string>, env: Environment, s: State, reports: seq<LinkReport>, j: nat)
    requires NonDegenerate(args, env)
    requires Program(args, env) == Outcome(0, reports) && Process(args, env) == Some(s)
    requires j < |reports|
    ensures |reports| == |MeshArgs(args)| == |s.volPerLink| && s.volume > 0.0
    ensures Import(MeshArgs(args)[j], env).Some?
    ensures reports[j].inertia == ScaleMat(Import(MeshArgs(args)[j], env).value.tensor, s.mass / s.volume)
  {
    ProgramReport(args, env, j);
    ProcessLinks(args, env);
  }

  /** The visual origin of link j is its joint offset under the last joint
      file, and its inertial origin is its mesh's centre of mass shifted by
      that offset. */
  lemma SuccessfulRunLinkOrigins(args: seq<string>, env: Environment, j: nat)
    requires NonDegenerate(args, env)
    requires Program(args, env).exitCode == 0 && j < |Program(args, env).reports|
    ensures var reports := Program(args, env).reports;
      && |reports| == |MeshArgs(args)|
      && var mesh := Import(MeshArgs(args)[j], env);
      && mesh.Some?
      && reports[j].visualOrigin == JointOffset(LastJoints(args, env), j)
      && reports[j].inertialOrigin == Add(mesh.value.centerOfMass, reports[j].visualOrigin)
  {
    ProgramReport(args, env, j);
    ProcessLinks(args, env);
    ProcessJoints(args, env);
  }

  /** A mass token followed by one mesh: the single link is named after the
      mass token, not after the mesh, and refers to "model://" followed by
      the mass token; it receives the whole mass. */
  lemma LinkNameQuirk(n: nat, path: string, env: Environment)
    requires n > 0
    requires Classify(path).MeshFile? && Import(path, env).Some?
    requires Import(path, env).value.signedMass != 0.0
    ensures var args := [Numeral(n), path];
      && NonDegenerate(args, env)
      && Program(args, env).exitCode == 0
      && |Program(args, env).reports| == 1
      && Program(args, env).reports[0].linkName == Numeral(n) != path
      && Program(args, env).reports[0].meshUri == "model://" + Numeral(n)
      && Program(args, env).reports[0].mass == n as real
  {
    var args := [Numeral(n), path];
    NumeralIsMass(n);
    assert path in args && HasVolume(path, env);
    ExitCodes(args, env);
    assert !ImportFails(args[0], env) && !ImportFails(args[1], env);
    assert args[..1] == [Numeral(n)] && args[..1][..0] == [];
    assert MeshArgs(args) == [path];
    assert MassOf(args) == n as real;
    SuccessfulRunLinks(args, env);
    SuccessfulRunMass(args, env);
    assert Program(args, env).reports == [Program(args, env).reports[0]];
  }
}
