/** The report loop: each link gets the share `mass * vol_i / volume` of the
    target mass, its unit-density tensor scaled by `mass / volume`, and the
    cumulative joint offset added to its centre of mass. */
module Normaliser {
  import opened Basics
  import opened Geometry
  import opened JointChain
  import opened Accumulator

  /** The quantities printed for one link: the name and mesh reference, the
      mass, the inertial origin, the scaled tensor (whose entries [0][0],
      [0][1], [0][2], [1][1], [1][2] and [2][2] are printed as ixx .. izz)
      and the visual origin. */
  datatype LinkReport = LinkReport(
    linkName: string,
    mass: real,
    inertialOrigin: Vec3,
    inertia: Mat3,
    visualOrigin: Vec3,
    meshUri: string)

  /** A state the report loop can run on: every link has a name among the
      arguments and the total volume is positive once there is a link. */
  predicate Reportable(s: State, args: seq<string>)
  {
    && Consistent(s)
    && |s.volPerLink| <= |args|
    && (|s.volPerLink| > 0 ==> s.volume > 0.0)
  }

  /** The report of link i; its name is `argv[i+1]`, the i-th argument,
      whichever argument the link's mesh came from. */
  function ReportAt(s: State, args: seq<string>, i: nat): LinkReport
    requires Reportable(s, args) && i < |s.volPerLink|
  {
    var trans := JointOffset(s.joints, i);
    LinkReport(
      args[i],
      s.mass * s.volPerLink[i] / s.volume,
      Add(s.comVector[i], trans),
      ScaleMat(s.itVector[i], s.mass / s.volume),
      trans,
      "model://" + args[i])
  }

  /** The reports of links 0 .. n-1. */
  function Reports(s: State, args: seq<string>, n: nat): seq<LinkReport>
    requires Reportable(s, args) && n <= |s.volPerLink|
  {
    if n == 0 then [] else Reports(s, args, n - 1) + [ReportAt(s, args, n - 1)]
  }

  /** The loop over `ITvector`: one report per link, in link order. */
  method EmitReports(s: State, args: seq<string>) returns (reports: seq<LinkReport>)
    requires Reportable(s, args)
    ensures reports == Reports(s, args, |s.volPerLink|)
  {
    reports := [];
    var i := 0;
    while i < |s.itVector|
      invariant 0 <= i <= |s.volPerLink|
      invariant reports == Reports(s, args, i)
    {
      var it := ScaleMat(s.itVector[i], s.mass / s.volume);
      var com := s.comVector[i];
      var trans := LinkOffset(s.joints, i);
      com := Add(com, trans);
      var linkMass := s.mass * s.volPerLink[i] / s.volume;
      var report := LinkReport(args[i], linkMass, com, it, trans, "model://" + args[i]);
      ghost var expected := ReportAt(s, args, i);
      assert expected.linkName == report.linkName;
      assert expected.mass == report.mass;
      assert expected.inertialOrigin == report.inertialOrigin;
      assert expected.inertia == report.inertia;
      assert expected.visualOrigin == report.visualOrigin;
      assert expected.meshUri == report.meshUri;
      assert report == expected;
      reports := reports + [report];
      i := i + 1;
    }
  }

  /** There are n reports and report i is the one of link i. */
  lemma {:induction false} ReportsShape(s: State, args: seq<string>, n: nat)
    requires Reportable(s, args) && n <= |s.volPerLink|
    ensures |Reports(s, args, n)| == n
    ensures forall i :: 0 <= i < n ==> Reports(s, args, n)[i] == ReportAt(s, args, i)
  {
    if n > 0 {
      ReportsShape(s, args, n - 1);
    }
  }

  /** Sum of the reported link masses. */
  function TotalMass(reports: seq<LinkReport>): real
  {
    if reports == [] then 0.0 else TotalMass(reports[..|reports| - 1]) + reports[|reports| - 1].mass
  }

  /** The share of `m` that a part `a` of the whole `w` receives. */
  function Share(m: real, a: real, w: real): real
    requires w != 0.0
  {
    m * a / w
  }

  lemma ShareOfSum(m: real, a: real, b: real, w: real)
    requires w != 0.0
    ensures Share(m, a, w) + Share(m, b, w) == Share(m, a + b, w)
  {
    assert m * a / w + m * b / w == (m * a + m * b) / w;
    assert m * a + m * b == m * (a + b);
  }

  lemma ShareBounds(m: real, a: real, w: real)
    requires m > 0.0 && 0.0 <= a <= w && w > 0.0
    ensures 0.0 <= Share(m, a, w) <= m
  {
    assert a / w <= 1.0;
    assert m * a / w == m * (a / w);
  }

  lemma ShareOfNothing(m: real, w: real)
    requires w != 0.0
    ensures Share(m, 0.0, w) == 0.0
  {
  }

  lemma ShareOfWhole(m: real, w: real)
    requires w != 0.0
    ensures Share(m, w, w) == m
  {
  }

  lemma ShareIsDensity(m: real, a: real, w: real)
    requires w != 0.0
    ensures Share(m, a, w) == (m / w) * a
  {
  }

  lemma ReportMass(s: State, args: seq<string>, i: nat)
    requires Reportable(s, args) && i < |s.volPerLink|
    ensures ReportAt(s, args, i).mass == Share(s.mass, s.volPerLink[i], s.volume)
  {
  }

  /** Adding the share of a further part to the share of a whole. */
  lemma ShareStep(t: real, m: real, a: real, b: real, c: real, w: real)
    requires w != 0.0 && t == Share(m, a, w) + Share(m, b, w) && c == a + b
    ensures t == Share(m, c, w)
  {
    ShareOfSum(m, a, b, w);
  }

  /** Reports whose masses are the shares of the parts `vs` of a whole
      together receive the share of the sum of the parts. */
  lemma {:induction false} TotalMassOfShares(rs: seq<LinkReport>, vs: seq<real>, m: real, w: real)
    requires w != 0.0 && |rs| == |vs|
    requires forall i :: 0 <= i < |rs| ==> rs[i].mass == Share(m, vs[i], w)
    ensures TotalMass(rs) == Share(m, Sum(vs), w)
  {
    if rs == [] {
      ShareOfNothing(m, w);
    } else {
      var n := |rs| - 1;
      TotalMassOfShares(rs[..n], vs[..n], m, w);
      ShareStep(TotalMass(rs), m, Sum(vs[..n]), vs[n], Sum(vs), w);
    }
  }

  /** All links together receive the share of the total link volume. */
  lemma TotalMassOfReports(s: State, args: seq<string>)
    requires Reportable(s, args) && 0 < |s.volPerLink|
    ensures TotalMass(Reports(s, args, |s.volPerLink|)) == Share(s.mass, Sum(s.volPerLink), s.volume)
  {
    var n := |s.volPerLink|;
    var rs := Reports(s, args, n);
    ReportsShape(s, args, n);
    forall i | 0 <= i < n ensures rs[i].mass == Share(s.mass, s.volPerLink[i], s.volume) {
      ReportMass(s, args, i);
    }
    TotalMassOfShares(rs, s.volPerLink, s.mass, s.volume);
  }

  /** Mass conservation: the link masses add up to the target mass (in exact
      arithmetic). */
  lemma MassConservation(s: State, args: seq<string>)
    requires Reportable(s, args) && |s.volPerLink| > 0
    ensures TotalMass(Reports(s, args, |s.volPerLink|)) == s.mass
  {
    TotalMassOfReports(s, args);
    ShareOfWhole(s.mass, s.volume);
  }

  /** Every link mass lies between zero and the target mass. */
  lemma LinkMassBounds(s: State, args: seq<string>, i: nat)
    requires Reportable(s, args) && i < |s.volPerLink|
    ensures 0.0 <= ReportAt(s, args, i).mass <= s.mass
  {
    ElementAtMostSum(s.volPerLink, i);
    ReportMass(s, args, i);
    ShareBounds(s.mass, s.volPerLink[i], s.volume);
  }

  /** `x` is to `a` as `y` is to `b`, written without division. */
  predicate InProportion(x: real, a: real, y: real, b: real)
  {
    x * b == y * a
  }

  lemma ShareCross(m: real, a: real, b: real, w: real)
    requires w != 0.0
    ensures InProportion(Share(m, a, w), a, Share(m, b, w), b)
  {
    assert m * a / w * b == (m * a * b) / w;
    assert m * b / w * a == (m * b * a) / w;
  }

  lemma ShareDensity(m: real, a: real, w: real)
    requires w != 0.0 && a != 0.0
    ensures Share(m, a, w) / a == m / w
  {
    assert m * a / w / a == m / w * (a / a);
  }

  /** The mass of link i is its volume times the density, mass over total
      volume. */
  lemma LinkMassIsDensityTimesVolume(s: State, args: seq<string>, i: nat)
    requires Reportable(s, args) && i < |s.volPerLink|
    ensures ReportAt(s, args, i).mass == s.mass / s.volume * s.volPerLink[i]
  {
    ReportMass(s, args, i);
    ShareIsDensity(s.mass, s.volPerLink[i], s.volume);
  }

  /** Link masses are in proportion to link volumes. */
  lemma {:induction false} ProportionalMasses(s: State, args: seq<string>, i: nat, j: nat)
    requires Reportable(s, args) && i < |s.volPerLink| && j < |s.volPerLink|
    ensures InProportion(ReportAt(s, args, i).mass, s.volPerLink[i], ReportAt(s, args, j).mass, s.volPerLink[j])
  {
    ReportMass(s, args, i);
    ReportMass(s, args, j);
    ShareCross(s.mass, s.volPerLink[i], s.volPerLink[j], s.volume);
  }

  /** Uniform density: a link with a volume has the density of the whole,
      mass over total volume, and its tensor is its unit-density tensor
      scaled by its own density, link mass over link volume. */
  lemma UniformDensity(s: State, args: seq<string>, i: nat)
    requires Reportable(s, args) && i < |s.volPerLink| && s.volPerLink[i] != 0.0
    ensures ReportAt(s, args, i).mass / s.volPerLink[i] == s.mass / s.volume
    ensures ReportAt(s, args, i).inertia == ScaleMat(s.itVector[i], ReportAt(s, args, i).mass / s.volPerLink[i])
  {
    ReportMass(s, args, i);
    ShareDensity(s.mass, s.volPerLink[i], s.volume);
  }

  /** The inertial origin is the centre of mass shifted by the visual origin,
      the visual origin is the joint offset of the link, and the offsets of
      consecutive links differ by the next record's translation until the
      records run out. */
  lemma OriginsAlongChain(s: State, args: seq<string>, i: nat)
    requires Reportable(s, args) && i < |s.volPerLink|
    ensures ReportAt(s, args, i).inertialOrigin == Add(s.comVector[i], ReportAt(s, args, i).visualOrigin)
    ensures s.joints == [] ==> ReportAt(s, args, i).visualOrigin == Zero
    ensures i + 1 < |s.volPerLink| && i + 1 < |s.joints| ==>
      ReportAt(s, args, i + 1).visualOrigin == Sub(ReportAt(s, args, i).visualOrigin, Translation(s.joints[i + 1]))
    ensures i + 1 < |s.volPerLink| && i + 1 >= |s.joints| && s.joints != [] ==>
      ReportAt(s, args, i + 1).visualOrigin == ReportAt(s, args, i).visualOrigin
  {
    if s.joints == [] {
      NoJointsNoOffset(i);
    }
    if s.joints != [] && i + 1 >= |s.joints| {
      OffsetSaturates(s.joints, i + 1);
      if i >= |s.joints| - 1 {
        OffsetSaturates(s.joints, i);
      }
    }
  }
}
