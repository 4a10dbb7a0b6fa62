/** Crash-safe adoption of pinned maps (internal/agent/bpfobj/schema.go, loader_linux.go): a load opens
    or creates every map of its collection, then stamps or checks the schema sentinel. */
module Schema {
  import opened Wire

  const SENTINEL := "schema_sentinel_map"

  /** What a build loads: its schema version and the names it pins. */
  datatype Build = Build(version: nat, maps: set<string>)

  predicate ValidBuild(b: Build) {
    b.version > 0 && SENTINEL in b.maps
  }

  /** The pin directory: each pinned map with the version of the build that created it, the sentinel's
      one slot, and whether anything else is there (a program pin, say). */
  datatype Disk = Disk(pinned: map<string, nat>, stamp: nat, other: bool)

  const BLANK := Disk(map[], 0, false)

  datatype Outcome = Loaded | PartialPinSet | VersionMismatch | Interrupted

  /** Opening a map that is pinned adopts it; otherwise it is created, zeroed, and pinned. */
  function Open(d: Disk, version: nat, name: string): Disk {
    if name in d.pinned then d
    else d.(pinned := d.pinned[name := version], stamp := if name == SENTINEL then 0 else d.stamp)
  }

  function OpenAll(d: Disk, version: nat, names: seq<string>): Disk {
    if names == [] then d else Open(OpenAll(d, version, names[..|names| - 1]), version, names[|names| - 1])
  }

  function Populated(d: Disk): bool {
    d.pinned != map[] || d.other
  }

  /** `steps` sentinel operations succeed before one fails. */
  function Reconcile(d: Disk, preExisting: bool, want: nat, steps: nat): (Disk, Outcome) {
    if steps == 0 then (d, Interrupted)
    else if !preExisting then (if steps == 1 then (d, Interrupted) else (d.(stamp := want), Loaded))
    else if d.stamp == want then (d, Loaded)
    else if d.stamp == 0 then (d, PartialPinSet)
    else (d, VersionMismatch)
  }

  /** A load that scans the directory, opens its maps in the given order, then reads and perhaps writes the
      sentinel; after `steps` map and sentinel operations it stops for good. An error return and a crash
      leave the same directory behind. */
  function Load(d: Disk, version: nat, names: seq<string>, steps: nat): (Disk, Outcome) {
    if steps < |names| then (OpenAll(d, version, names[..steps]), Interrupted)
    else Reconcile(OpenAll(d, version, names), Populated(d), version, steps - |names|)
  }

  class PinDir {
    var pinned: map<string, nat>
    var stamp: nat
    var other: bool

    function Abs(): Disk
      reads this
    {
      Disk(pinned, stamp, other)
    }

    constructor ()
      ensures Abs() == BLANK
    {
      pinned, stamp, other := map[], 0, false;
    }

    /** `scanned` is whether the directory could be made and read. */
    method PreparePinDir(path: string, scanned: bool) returns (preExisting: Option<bool>)
      ensures preExisting == if path == "" || !scanned then None else Some(Populated(Abs()))
    {
      if path == "" { return None; }
      if !scanned { return None; }
      preExisting := Some(|pinned| > 0 || other);
    }

    method LoadObjects(version: nat, names: seq<string>, steps: nat) returns (done: bool)
      modifies this`pinned, this`stamp
      ensures done == (steps >= |names|)
      ensures Abs() == OpenAll(old(Abs()), version, if done then names else names[..steps])
    {
      done := true;
      for i := 0 to |names|
        invariant done && i <= steps
        invariant Abs() == OpenAll(old(Abs()), version, names[..i])
      {
        if i == steps {
          return false;
        }
        assert names[..i + 1][..i] == names[..i];
        if names[i] !in pinned {
          pinned := pinned[names[i] := version];
          if names[i] == SENTINEL {
            stamp := 0;
          }
        }
      }
      assert names[..|names|] == names;
    }

    method ReconcileSchema(preExisting: bool, want: nat, steps: nat) returns (outcome: Outcome)
      modifies this`stamp
      ensures (Abs(), outcome) == Reconcile(old(Abs()), preExisting, want, steps)
    {
      if steps == 0 { return Interrupted; }
      var current := stamp;
      if !preExisting {
        if steps == 1 { return Interrupted; }
        stamp := want;
        return Loaded;
      }
      if current == want {
        return Loaded;
      }
      outcome := if current == 0 then PartialPinSet else VersionMismatch;
    }

    method LoadPrimary(path: string, scanned: bool, version: nat, names: seq<string>, steps: nat)
      returns (outcome: Outcome)
      modifies this
      ensures path != "" && scanned ==> (Abs(), outcome) == Load(old(Abs()), version, names, steps)
      ensures path == "" || !scanned ==> outcome == Interrupted && Abs() == old(Abs())
    {
      var preExisting := PreparePinDir(path, scanned);
      if preExisting.None? {
        return Interrupted;
      }
      var done := LoadObjects(version, names, steps);
      if !done {
        return Interrupted;
      }
      outcome := ReconcileSchema(preExisting.value, version, steps - |names|);
    }
  }

  datatype Action =
    | Primary(build: Build, order: seq<string>, steps: nat)
    | Wipe
    | PinOther

  function After(d: Disk, a: Action): Disk {
    match a
    case Primary(build, order, steps) => Load(d, build.version, order, steps).0
    case Wipe => BLANK
    case PinOther => d.(other := true)
  }

  ghost predicate Legal(a: Action, catalogue: set<Build>) {
    a.Primary? ==> a.build in catalogue && forall x :: x in a.order <==> x in a.build.maps
  }

  /** Loads do not overlap: each one runs to its end, or is cut short, before the next starts. */
  ghost predicate IsRun(catalogue: set<Build>, ds: seq<Disk>, acts: seq<Action>) {
    && |ds| == |acts| + 1
    && ds[0] == BLANK
    && forall i :: 0 <= i < |acts| ==> Legal(acts[i], catalogue) && ds[i + 1] == After(ds[i], acts[i])
  }

  ghost predicate Succeeds(d: Disk, a: Action) {
    a.Primary? && Load(d, a.build.version, a.order, a.steps).1 == Loaded
  }

  /** A load that succeeds uses only maps a build of its own version created. */
  ghost predicate Sound(d: Disk, a: Action) {
    Succeeds(d, a) ==>
      forall x :: x in a.build.maps ==> x in After(d, a).pinned && After(d, a).pinned[x] == a.build.version
  }

  /** What the catalogue must satisfy: two collections of one version may differ only in names that no
      other version pins. */
  ghost predicate Coherent(catalogue: set<Build>) {
    forall a, b, c, x ::
      (&& a in catalogue && b in catalogue && c in catalogue
       && a.version == b.version && c.version != a.version
       && x in b.maps && x !in a.maps) ==> x !in c.maps
  }

  lemma {:induction false} OpenAllAt(d: Disk, version: nat, names: seq<string>, x: string)
    ensures var e := OpenAll(d, version, names);
            && (x in e.pinned <==> x in d.pinned || x in names)
            && (x in e.pinned ==> e.pinned[x] == if x in d.pinned then d.pinned[x] else version)
            && e.other == d.other
            && e.stamp == if SENTINEL in names && SENTINEL !in d.pinned then 0 else d.stamp
  {
    if names != [] {
      OpenAllAt(d, version, names[..|names| - 1], x);
      OpenAllAt(d, version, names[..|names| - 1], SENTINEL);
      OpenAllAt(d, version, names[..|names| - 1], names[|names| - 1]);
      assert names == names[..|names| - 1] + [names[|names| - 1]];
    }
  }

  /** How a load ends, on what it finds: in an empty directory it succeeds, given the operations to open its
      maps and to read and write the sentinel; otherwise it succeeds exactly on a sentinel with its own
      version, an absent or empty sentinel is a partial pin set, and any other version is a mismatch. */
  lemma LoadEnds(d: Disk, version: nat, names: seq<string>, steps: nat)
    requires version > 0 && SENTINEL in names
    ensures var outcome, empty := Load(d, version, names, steps).1, |d.pinned| == 0 && !d.other;
            var stamp := if SENTINEL in d.pinned then d.stamp else 0;
            outcome == if steps <= |names| || (empty && steps == |names| + 1) then Interrupted
                       else if empty || stamp == version then Loaded
                       else if stamp == 0 then PartialPinSet
                       else VersionMismatch
  {
    OpenAllAt(d, version, names, SENTINEL);
  }

  /** Every pin was created by a build of the catalogue that names it. */
  ghost predicate Attributed(catalogue: set<Build>, d: Disk, x: string) {
    x in d.pinned ==> exists c :: c in catalogue && c.version == d.pinned[x] && x in c.maps
  }

  /** A stamp vouches for one whole collection of the version it names. */
  ghost predicate Vouched(catalogue: set<Build>, d: Disk) {
    SENTINEL in d.pinned && d.stamp != 0 ==>
      exists a :: a in catalogue && Vouches(a, d)
  }

  ghost predicate Vouches(a: Build, d: Disk) {
    a.version == d.stamp && forall x :: x in a.maps ==> x in d.pinned && d.pinned[x] == a.version
  }

  ghost predicate Inv(catalogue: set<Build>, d: Disk) {
    (forall x :: Attributed(catalogue, d, x)) && Vouched(catalogue, d)
  }

  lemma OpenedInv(catalogue: set<Build>, d: Disk, a: Action, n: nat)
    requires Inv(catalogue, d) && Legal(a, catalogue) && a.Primary? && n <= |a.order|
    ensures Inv(catalogue, OpenAll(d, a.build.version, a.order[..n]))
  {
    var e := OpenAll(d, a.build.version, a.order[..n]);
    forall x ensures Attributed(catalogue, e, x) {
      OpenAllAt(d, a.build.version, a.order[..n], x);
      assert Attributed(catalogue, d, x);
      if x in e.pinned && x !in d.pinned {
        assert x in a.order;
      }
    }
    OpenAllAt(d, a.build.version, a.order[..n], SENTINEL);
    if SENTINEL in e.pinned && e.stamp != 0 {
      var v :| v in catalogue && Vouches(v, d);
      forall x | x in v.maps ensures x in e.pinned && e.pinned[x] == v.version {
        OpenAllAt(d, a.build.version, a.order[..n], x);
      }
      assert Vouches(v, e);
    }
  }

  /** A from-scratch load creates its whole collection before it stamps. */
  lemma FreshVouches(d: Disk, a: Action)
    requires a.Primary? && !Populated(d) && forall x :: x in a.order <==> x in a.build.maps
    ensures Vouches(a.build, OpenAll(d, a.build.version, a.order).(stamp := a.build.version))
  {
    forall x | x in a.build.maps ensures x in OpenAll(d, a.build.version, a.order).pinned
                                      && OpenAll(d, a.build.version, a.order).pinned[x] == a.build.version {
      OpenAllAt(d, a.build.version, a.order, x);
    }
  }

  lemma StepInv(catalogue: set<Build>, d: Disk, a: Action)
    requires Inv(catalogue, d) && Legal(a, catalogue)
    ensures Inv(catalogue, After(d, a))
  {
    match a
    case Wipe =>
    case PinOther =>
      forall x ensures Attributed(catalogue, After(d, a), x) {
        assert Attributed(catalogue, d, x);
      }
      if SENTINEL in d.pinned && d.stamp != 0 {
        var v :| v in catalogue && Vouches(v, d);
        assert Vouches(v, After(d, a));
      }
    case Primary(build, order, steps) =>
      if steps < |order| {
        OpenedInv(catalogue, d, a, steps);
      } else {
        assert order[..|order|] == order;
        OpenedInv(catalogue, d, a, |order|);
        var e := OpenAll(d, build.version, order);
        forall x ensures Attributed(catalogue, After(d, a), x) {
          assert Attributed(catalogue, e, x);
        }
        if !Populated(d) { FreshVouches(d, a); }
      }
  }

  lemma {:induction false} RunInv(catalogue: set<Build>, ds: seq<Disk>, acts: seq<Action>, i: nat)
    requires IsRun(catalogue, ds, acts) && i < |ds|
    ensures Inv(catalogue, ds[i])
  {
    if i > 0 {
      RunInv(catalogue, ds, acts, i - 1);
      StepInv(catalogue, ds[i - 1], acts[i - 1]);
    }
  }

  lemma StepSound(catalogue: set<Build>, d: Disk, a: Action, x: string)
    requires Coherent(catalogue) && (forall b :: b in catalogue ==> ValidBuild(b))
    requires Inv(catalogue, d) && Legal(a, catalogue) && Succeeds(d, a) && x in a.build.maps
    ensures x in After(d, a).pinned && After(d, a).pinned[x] == a.build.version
  {
    var b, order := a.build, a.order;
    assert order[..|order|] == order;
    OpenAllAt(d, b.version, order, x);
    if Populated(d) {
      OpenedInv(catalogue, d, a, |order|);
      var e := OpenAll(d, b.version, order);
      assert After(d, a) == e;
      OpenAllAt(d, b.version, order, SENTINEL);
      assert SENTINEL in e.pinned && e.stamp == b.version != 0;
      var v :| v in catalogue && Vouches(v, e);
      assert Attributed(catalogue, e, x);
      var c :| c in catalogue && c.version == e.pinned[x] && x in c.maps;
    }
  }

  /** Safety: with a coherent catalogue, over every run of loads by builds of any versions, each cut
      short anywhere, and of wipes, a load that succeeds uses only maps of its own version. */
  lemma SuccessfulLoadsAreSound(catalogue: set<Build>, ds: seq<Disk>, acts: seq<Action>, i: nat)
    requires Coherent(catalogue) && (forall b :: b in catalogue ==> ValidBuild(b))
    requires IsRun(catalogue, ds, acts) && i < |acts|
    ensures Sound(ds[i], acts[i])
  {
    RunInv(catalogue, ds, acts, i);
    if Succeeds(ds[i], acts[i]) {
      forall x | x in acts[i].build.maps
        ensures x in After(ds[i], acts[i]).pinned && After(ds[i], acts[i]).pinned[x] == acts[i].build.version
      {
        StepSound(catalogue, ds[i], acts[i], x);
      }
    }
  }

  lemma {:induction false} Enumerate(s: set<string>) returns (o: seq<string>)
    ensures forall x :: x in o <==> x in s
  {
    o := [];
    var rest := s;
    while rest != {}
      invariant rest <= s
      invariant forall x :: x in o <==> x in s - rest
    {
      var x :| x in rest;
      o := o + [x];
      rest := rest - {x};
    }
  }

  /** The condition is needed: where two collections of a version differ in a name another version
      pins, that version's refused load leaves its map for the larger collection to adopt. */
  lemma IncoherentUnsound(catalogue: set<Build>, a: Build, b: Build, c: Build, x: string)
    returns (ds: seq<Disk>, acts: seq<Action>)
    requires forall b :: b in catalogue ==> ValidBuild(b)
    requires a in catalogue && b in catalogue && c in catalogue && a.version == b.version && c.version != a.version
    requires x in b.maps && x !in a.maps && x in c.maps
    ensures IsRun(catalogue, ds, acts) && |acts| == 3 && !Sound(ds[2], acts[2])
  {
    var oa := Enumerate(a.maps);
    var ob := Enumerate(b.maps);
    var oc := Enumerate(c.maps);
    acts := [Primary(a, oa, |oa| + 2), Primary(c, oc, |oc| + 2), Primary(b, ob, |ob| + 2)];
    var d1 := After(BLANK, acts[0]);
    var d2 := After(d1, acts[1]);
    var d3 := After(d2, acts[2]);
    ds := [BLANK, d1, d2, d3];
    OpenAllAt(BLANK, a.version, oa, x);
    OpenAllAt(BLANK, a.version, oa, SENTINEL);
    assert SENTINEL in d1.pinned && d1.stamp == a.version && x !in d1.pinned;
    OpenAllAt(d1, c.version, oc, x);
    OpenAllAt(d1, c.version, oc, SENTINEL);
    assert SENTINEL in d2.pinned && d2.stamp == a.version && d2.pinned[x] == c.version;
    OpenAllAt(d2, b.version, ob, x);
    OpenAllAt(d2, b.version, ob, SENTINEL);
    assert Succeeds(d2, acts[2]) && d3.pinned[x] == c.version;
  }

  /** Both directions: every load that succeeds, in every run, is sound if and only if the catalogue is
      coherent. */
  lemma SoundExactlyWhenCoherent(catalogue: set<Build>)
    requires forall b :: b in catalogue ==> ValidBuild(b)
    ensures (forall ds, acts, i :: IsRun(catalogue, ds, acts) && 0 <= i < |acts| ==> Sound(ds[i], acts[i]))
            <==> Coherent(catalogue)
  {
    if Coherent(catalogue) {
      forall ds, acts, i | IsRun(catalogue, ds, acts) && 0 <= i < |acts| ensures Sound(ds[i], acts[i]) {
        SuccessfulLoadsAreSound(catalogue, ds, acts, i);
      }
    } else {
      var a, b, c, x :| a in catalogue && b in catalogue && c in catalogue && a.version == b.version
                        && c.version != a.version && x in b.maps && x !in a.maps && x in c.maps;
      var ds, acts := IncoherentUnsound(catalogue, a, b, c, x);
    }
  }

  /** Where every version pins one set of maps, as the two primary loaders do, every load that succeeds is
      sound. */
  lemma OneSetPerVersionSound(catalogue: set<Build>, ds: seq<Disk>, acts: seq<Action>, i: nat)
    requires forall b :: b in catalogue ==> ValidBuild(b)
    requires forall a, b :: a in catalogue && b in catalogue && a.version == b.version ==> a.maps == b.maps
    requires IsRun(catalogue, ds, acts) && i < |acts|
    ensures Sound(ds[i], acts[i])
  {
    SuccessfulLoadsAreSound(catalogue, ds, acts, i);
  }

  /** A restart of the same build after a completed load always succeeds and changes nothing. */
  lemma RestartAdopts(d: Disk, a: Action)
    requires a.Primary? && ValidBuild(a.build) && Succeeds(d, a) && forall x :: x in a.order <==> x in a.build.maps
    ensures Succeeds(After(d, a), a) && After(After(d, a), a) == After(d, a)
  {
    var e := After(d, a);
    var f := OpenAll(e, a.build.version, a.order);
    forall x ensures (x in f.pinned <==> x in e.pinned) && (x in e.pinned ==> f.pinned[x] == e.pinned[x]) {
      OpenAllAt(d, a.build.version, a.order, x);
      OpenAllAt(e, a.build.version, a.order, x);
    }
    OpenAllAt(d, a.build.version, a.order, SENTINEL);
    OpenAllAt(e, a.build.version, a.order, SENTINEL);
    assert f.pinned == e.pinned;
  }
}
