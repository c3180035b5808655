/** The argument loop of the driver as a function on values: the state it
    threads from token to token (target mass, running total volume, the
    per-link volume, tensor and centre-of-mass sequences, and the joint
    records) and what one token does to that state. */
module Accumulator {
  import opened Basics
  import opened Geometry
  import opened DecimalParse
  import opened Arguments
  import opened JointFile

  /** What the inertia integrator reports for one imported mesh: the signed
      mass at unit density (its signed volume), the centre of mass and the
      inertia tensor about it. */
  datatype MeshInertia = MeshInertia(signedMass: real, centerOfMass: Vec3, tensor: Mat3)

  /** The program's collaborators. `importMesh` opens a path with the given
      importer and integrates it, or fails; `jointLines` gives the lines of a
      joint file without their line breaks (none when it cannot be opened). */
  datatype Environment = Environment(
    importMesh: (Importer, string) -> Option<MeshInertia>,
    jointLines: string -> seq<string>)

  /** The locals of the driver: `mass`, `volume`, `VolPerLink`, `ITvector`,
      `COMvector` and `joints`. */
  datatype State = State(
    mass: real,
    volume: real,
    volPerLink: seq<real>,
    itVector: seq<Mat3>,
    comVector: seq<Vec3>,
    joints: seq<Joint>)

  /** `mass = 1.0`, `volume = 0.0`, every sequence empty. */
  const Initial := State(1.0, 0.0, [], [], [], [])

  /** What the state keeps between tokens: a positive mass, non-negative
      link volumes whose sum is the running volume, and one tensor and one
      centre of mass per link. */
  predicate Consistent(s: State)
  {
    && s.mass > 0.0
    && NonNegative(s.volPerLink)
    && s.volume == Sum(s.volPerLink)
    && |s.itVector| == |s.volPerLink|
    && |s.comVector| == |s.volPerLink|
  }

  /** A token whose joint file, if it is one, has no line read with more
      than six tokens. */
  predicate Admissible(arg: string, env: Environment)
  {
    Classify(arg).JointFile? ==> JointLinesBounded(env.jointLines(arg))
  }

  /** Importing a mesh token with the importer its suffix selects. */
  function Import(arg: string, env: Environment): Option<MeshInertia>
    requires Classify(arg).MeshFile?
  {
    env.importMesh(Classify(arg).importer, arg)
  }

  predicate ImportFails(arg: string, env: Environment)
  {
    Classify(arg).MeshFile? && Import(arg, env).None?
  }

  /** One pass of the argument loop; None is the early `return -1`. */
  function Step(s: State, arg: string, env: Environment): Option<State>
  {
    match Classify(arg)
    case MassOverride(m) => Some(s.(mass := m))
    case JointFile => Some(s.(joints := JointRecords(env.jointLines(arg))))
    case MeshFile(importer) =>
      match env.importMesh(importer, arg)
      case None => None
      case Some(inertia) =>
        var vol := Abs(inertia.signedMass);
        Some(s.(volume := s.volume + vol,
                volPerLink := s.volPerLink + [vol],
                itVector := s.itVector + [inertia.tensor],
                comVector := s.comVector + [inertia.centerOfMass]))
  }

  /** A step stops the loop exactly when its token is a mesh that fails to
      import, and a step that goes on keeps the state consistent. */
  lemma StepOutcome(s: State, arg: string, env: Environment)
    ensures Step(s, arg, env).None? <==> ImportFails(arg, env)
    ensures Consistent(s) && Step(s, arg, env).Some? ==> Consistent(Step(s, arg, env).value)
  {
    if Classify(arg).MeshFile? && Import(arg, env).Some? {
      SumAppend(s.volPerLink, Abs(Import(arg, env).value.signedMass));
    }
  }

  /** Step on a token that reads as a positive number: only the mass changes. */
  lemma StepMass(s: State, arg: string, env: Environment)
    requires Atof(arg) > 0.0
    ensures Step(s, arg, env) == Some(s.(mass := Atof(arg)))
  {
  }

  /** Step on a joint-file token: the records of the file replace the old ones. */
  lemma StepJoints(s: State, arg: string, env: Environment)
    requires Atof(arg) <= 0.0 && HasSuffix(arg, ".txt")
    ensures Step(s, arg, env) == Some(s.(joints := JointRecords(env.jointLines(arg))))
  {
  }

  /** Step on a mesh token whose import, with the importer its ".dae"
      suffix selects, succeeds: one link is added. */
  lemma StepMesh(s: State, arg: string, env: Environment, importer: Importer, inertia: MeshInertia)
    requires Atof(arg) <= 0.0 && !HasSuffix(arg, ".txt")
    requires importer == if HasSuffix(arg, ".dae") then DaeImporter else GenericImporter
    requires env.importMesh(importer, arg) == Some(inertia)
    ensures Step(s, arg, env) == Some(s.(volume := s.volume + Abs(inertia.signedMass),
                                        volPerLink := s.volPerLink + [Abs(inertia.signedMass)],
                                        itVector := s.itVector + [inertia.tensor],
                                        comVector := s.comVector + [inertia.centerOfMass]))
  {
  }

  /** Step on a mesh token whose import fails: the loop stops. */
  lemma StepMeshFails(s: State, arg: string, env: Environment, importer: Importer)
    requires Atof(arg) <= 0.0 && !HasSuffix(arg, ".txt")
    requires importer == if HasSuffix(arg, ".dae") then DaeImporter else GenericImporter
    requires env.importMesh(importer, arg).None?
    ensures Step(s, arg, env).None?
  {
  }

  /** The whole argument loop over `argv[1..]`. */
  function Process(args: seq<string>, env: Environment): Option<State>
  {
    if args == [] then Some(Initial)
    else
      match Process(args[..|args| - 1], env)
      case None => None
      case Some(s) => Step(s, args[|args| - 1], env)
  }

  /** Every state the loop reaches is consistent. */
  lemma {:induction false} ProcessConsistent(args: seq<string>, env: Environment)
    ensures Process(args, env).Some? ==> Consistent(Process(args, env).value)
  {
    if args != [] {
      var n := |args| - 1;
      ProcessConsistent(args[..n], env);
      if Process(args[..n], env).Some? {
        StepOutcome(Process(args[..n], env).value, args[n], env);
      }
    }
  }

  /** The mesh tokens, in argument order: one link each. */
  function MeshArgs(args: seq<string>): (m: seq<string>)
    ensures |m| <= |args|
    ensures forall j :: 0 <= j < |m| ==> Classify(m[j]).MeshFile? && m[j] in args
  {
    if args == [] then []
    else
      var prefix := MeshArgs(args[..|args| - 1]);
      assert forall j :: 0 <= j < |prefix| ==> prefix[j] in args;
      if Classify(args[|args| - 1]).MeshFile? then prefix + [args[|args| - 1]] else prefix
  }

  /** With no mesh token there are no links. */
  lemma {:induction false} NoMeshArgs(args: seq<string>)
    requires forall k :: 0 <= k < |args| ==> !Classify(args[k]).MeshFile?
    ensures MeshArgs(args) == []
  {
    if args != [] {
      var n := |args| - 1;
      assert forall k :: 0 <= k < n ==> args[..n][k] == args[k];
      NoMeshArgs(args[..n]);
    }
  }

  /** The target mass: the last token that reads as a positive number, or
      1.0 when there is none. */
  function MassOf(args: seq<string>): real
  {
    if args == [] then 1.0
    else if Classify(args[|args| - 1]).MassOverride? then Classify(args[|args| - 1]).mass
    else MassOf(args[..|args| - 1])
  }

  /** The last joint-file token, if any. */
  function LastJointFile(args: seq<string>): (r: Option<string>)
    ensures r.Some? ==> Classify(r.value).JointFile? && r.value in args
  {
    if args == [] then None
    else if Classify(args[|args| - 1]).JointFile? then Some(args[|args| - 1])
    else
      var r := LastJointFile(args[..|args| - 1]);
      assert r.Some? ==> r.value in args[..|args| - 1];
      r
  }

  /** Some mesh token among `args` fails to import. */
  predicate SomeImportFails(args: seq<string>, env: Environment)
  {
    args != [] && (SomeImportFails(args[..|args| - 1], env) || ImportFails(args[|args| - 1], env))
  }

  lemma {:induction false} SomeImportFailsAt(args: seq<string>, env: Environment)
    ensures SomeImportFails(args, env) <==> exists a :: a in args && ImportFails(a, env)
  {
    if args != [] {
      var n := |args| - 1;
      SomeImportFailsAt(args[..n], env);
      assert args == args[..n] + [args[n]];
    }
  }

  /** The loop returns early exactly when some mesh token fails to import. */
  lemma {:induction false} ProcessFails(args: seq<string>, env: Environment)
    ensures Process(args, env).None? <==> exists a :: a in args && ImportFails(a, env)
  {
    ProcessFailsRec(args, env);
    SomeImportFailsAt(args, env);
  }

  lemma {:induction false} ProcessFailsRec(args: seq<string>, env: Environment)
    ensures Process(args, env).None? <==> SomeImportFails(args, env)
  {
    if args != [] {
      var n := |args| - 1;
      ProcessFailsRec(args[..n], env);
      if Process(args[..n], env).Some? {
        StepOutcome(Process(args[..n], env).value, args[n], env);
      }
    }
  }

  /** After the loop there is one link per mesh token, in argument order, and
      its volume, tensor and centre of mass are what the integrator reported
      for that mesh, the volume taken as an absolute value. */
  lemma {:induction false} ProcessLinks(args: seq<string>, env: Environment)
    requires Process(args, env).Some?
    ensures var s, m := Process(args, env).value, MeshArgs(args);
      && |s.volPerLink| == |s.itVector| == |s.comVector| == |m|
      && forall j :: 0 <= j < |m| ==>
           && Import(m[j], env).Some?
           && s.volPerLink[j] == Abs(Import(m[j], env).value.signedMass)
           && s.itVector[j] == Import(m[j], env).value.tensor
           && s.comVector[j] == Import(m[j], env).value.centerOfMass
  {
    if args != [] {
      var n := |args| - 1;
      ProcessLinks(args[..n], env);
    }
  }

  /** The mass in force after the loop is the last positive numeric token,
      or the default 1.0. */
  lemma {:induction false} ProcessMass(args: seq<string>, env: Environment)
    requires Process(args, env).Some?
    ensures Process(args, env).value.mass == MassOf(args)
  {
    if args != [] {
      ProcessMass(args[..|args| - 1], env);
    }
  }

  /** Only the last joint file counts: each one replaces the records read
      before it, and with no joint file there are no records. */
  lemma {:induction false} ProcessJoints(args: seq<string>, env: Environment)
    requires Process(args, env).Some?
    ensures LastJointFile(args).None? ==> Process(args, env).value.joints == []
    ensures LastJointFile(args).Some? ==>
      Process(args, env).value.joints == JointRecords(env.jointLines(LastJointFile(args).value))
  {
    if args != [] {
      ProcessJoints(args[..|args| - 1], env);
    }
  }

  /** The joint files the loop opens before it stops: each has no line read
      with more than six tokens. Files after a failing mesh are never
      opened and are not constrained. */
  predicate JointFilesFit(args: seq<string>, env: Environment)
  {
    forall k :: 0 <= k < |args| && !SomeImportFails(args[..k], env) ==> Admissible(args[k], env)
  }

  /** A mesh token that imports with a non-zero signed volume. */
  predicate HasVolume(arg: string, env: Environment)
  {
    Classify(arg).MeshFile? && Import(arg, env).Some? && Import(arg, env).value.signedMass != 0.0
  }

  /** The total volume the report loop divides by is not zero once there is
      a link: the loop stops early, or there is no mesh token, or some mesh
      has a non-zero volume. */
  predicate NonDegenerate(args: seq<string>, env: Environment)
  {
    || SomeImportFails(args, env)
    || MeshArgs(args) == []
    || exists a :: a in args && HasVolume(a, env)
  }

  /** A step never lowers the running volume, and a mesh with a volume
      raises it. */
  lemma StepVolume(s: State, arg: string, env: Environment)
    requires Step(s, arg, env).Some?
    ensures Step(s, arg, env).value.volume >= s.volume
    ensures HasVolume(arg, env) ==> Step(s, arg, env).value.volume > s.volume
  {
  }

  /** Once a mesh with a volume has been read, the running volume is
      positive. */
  lemma {:induction false} VolumeAfterSolidMesh(args: seq<string>, env: Environment, a: string)
    requires a in args && HasVolume(a, env)
    requires Process(args, env).Some?
    ensures Process(args, env).value.volume > 0.0
  {
    var n := |args| - 1;
    var prefix := args[..n];
    var before := Process(prefix, env).value;
    ProcessConsistent(prefix, env);
    SumNonNegative(before.volPerLink);
    assert Process(args, env) == Step(before, args[n], env);
    assert args == prefix + [args[n]];
    if a in prefix {
      VolumeAfterSolidMesh(prefix, env, a);
    }
    StepVolume(before, args[n], env);
  }

  /** With a non-degenerate argument list the total volume is positive as
      soon as there is a link, so the per-link division is defined. */
  lemma PositiveVolume(args: seq<string>, env: Environment)
    requires NonDegenerate(args, env)
    requires Process(args, env).Some? && |Process(args, env).value.volPerLink| > 0
    ensures Process(args, env).value.volume > 0.0
  {
    ProcessFailsRec(args, env);
    ProcessLinks(args, env);
    var a :| a in args && HasVolume(a, env);
    VolumeAfterSolidMesh(args, env, a);
  }
}
