/** Activities with canonical edges and edge snapshots (crates/postproject-core/src/provenance.rs). */
module Provenance {
  import opened Wrappers
  import opened Machine
  import opened Orders
  import opened Identity
  import opened Keys

  const MAX_ACTIVITY_EDGES := 100_000

  datatype FingerprintSnapshot =
    FingerprintSnapshot(algorithm: string, version: nat, value: seq<U8>, observed: Option<U64>)

  datatype EdgeSnapshot = EdgeSnapshot(revision: U64, fingerprints: seq<FingerprintSnapshot>)

  /** One input or output edge. */
  datatype Edge = Edge(representation: Uuid, role: Option<string>, snapshot: Option<EdgeSnapshot>)

  datatype Activity = Activity(id: Uuid, kind: string, started: Option<I64>, finished: Option<I64>,
                               inputs: seq<Edge>, outputs: seq<Edge>)

  // ---- Keys: the derived order of the fields ----

  function DomainKey(f: FingerprintSnapshot): Key {
    Fields([TextKey(f.algorithm), Num(f.version)])
  }

  function FingerprintKey(f: FingerprintSnapshot): Key {
    Fields([TextKey(f.algorithm), Num(f.version), BytesKey(f.value), OptionalNumKey(f.observed)])
  }

  function OptionalNumKey(n: Option<U64>): Key {
    match n
    case None => Fields([])
    case Some(x) => Fields([Num(x)])
  }

  function OptionalTextKey(t: Option<string>): Key {
    match t
    case None => Fields([])
    case Some(text) => Fields([TextKey(text)])
  }

  function FingerprintKeys(fs: seq<FingerprintSnapshot>): seq<Key> {
    seq(|fs|, i requires 0 <= i < |fs| => FingerprintKey(fs[i]))
  }

  function SnapshotKey(s: Option<EdgeSnapshot>): Key {
    match s
    case None => Fields([])
    case Some(snapshot) => Fields([Num(snapshot.revision), Fields(FingerprintKeys(snapshot.fingerprints))])
  }

  function EdgeKey(e: Edge): Key {
    Fields([BytesKey(e.representation), OptionalTextKey(e.role), SnapshotKey(e.snapshot)])
  }

  lemma FingerprintKeyInjective(a: FingerprintSnapshot, b: FingerprintSnapshot)
    requires FingerprintKey(a) == FingerprintKey(b)
    ensures a == b
  {
    hide TextKey, BytesKey;
    var x, y := FingerprintKey(a).items, FingerprintKey(b).items;
    assert x[0] == y[0] && x[1] == y[1] && x[2] == y[2] && x[3] == y[3];
    TextKeyInjective(a.algorithm, b.algorithm);
    BytesKeyInjective(a.value, b.value);
    OptionalNumKeyInjective(a.observed, b.observed);
  }

  lemma OptionalNumKeyInjective(a: Option<U64>, b: Option<U64>)
    requires OptionalNumKey(a) == OptionalNumKey(b)
    ensures a == b
  {
    assert |OptionalNumKey(a).items| == |OptionalNumKey(b).items|;
    if a.Some? {
      assert OptionalNumKey(a).items[0] == OptionalNumKey(b).items[0];
    }
  }

  lemma OptionalTextKeyInjective(a: Option<string>, b: Option<string>)
    requires OptionalTextKey(a) == OptionalTextKey(b)
    ensures a == b
  {
    match (a, b)
    case (Some(x), Some(y)) =>
      assert OptionalTextKey(a).items[0] == TextKey(x) && OptionalTextKey(b).items[0] == TextKey(y);
      TextKeyInjective(x, y);
    case _ =>
  }

  lemma SnapshotKeyInjective(a: Option<EdgeSnapshot>, b: Option<EdgeSnapshot>)
    requires SnapshotKey(a) == SnapshotKey(b)
    ensures a == b
  {
    hide FingerprintKey;
    assert |SnapshotKey(a).items| == |SnapshotKey(b).items|;
    if a.Some? {
      var x, y := SnapshotKey(a).items, SnapshotKey(b).items;
      assert x[0] == y[0] && x[1] == y[1];
      var fs, gs := a.value.fingerprints, b.value.fingerprints;
      assert FingerprintKeys(fs) == FingerprintKeys(gs) && |fs| == |gs|;
      forall i | 0 <= i < |fs|
        ensures fs[i] == gs[i]
      {
        assert FingerprintKeys(fs)[i] == FingerprintKeys(gs)[i];
        FingerprintKeyInjective(fs[i], gs[i]);
      }
      assert fs == gs && a.value.revision == b.value.revision;
      assert a.value == EdgeSnapshot(a.value.revision, fs) && b.value == EdgeSnapshot(b.value.revision, gs);
    }
  }

  lemma EdgeKeyInjective(a: Edge, b: Edge)
    requires EdgeKey(a) == EdgeKey(b)
    ensures a == b
  {
    hide BytesKey, OptionalTextKey, SnapshotKey;
    var x, y := EdgeKey(a).items, EdgeKey(b).items;
    assert x[0] == y[0] && x[1] == y[1] && x[2] == y[2];
    BytesKeyInjective(a.representation, b.representation);
    OptionalTextKeyInjective(a.role, b.role);
    SnapshotKeyInjective(a.snapshot, b.snapshot);
  }

  function EdgeLeq(): (Edge, Edge) -> bool {
    (a: Edge, b: Edge) => KeyLeq(EdgeKey(a), EdgeKey(b))
  }

  lemma EdgeOrderIsTotal()
    ensures TotalOrder(EdgeLeq())
  {
    hide EdgeKey, KeyLeq;
    forall a: Edge, b: Edge
      ensures EdgeLeq()(a, b) || EdgeLeq()(b, a)
      ensures EdgeLeq()(a, b) && EdgeLeq()(b, a) ==> a == b
    {
      KeyTotal(EdgeKey(a), EdgeKey(b));
      if EdgeKey(a) == EdgeKey(b) {
        EdgeKeyInjective(a, b);
      }
    }
    forall a: Edge, b: Edge, c: Edge | EdgeLeq()(a, b) && EdgeLeq()(b, c)
      ensures EdgeLeq()(a, c)
    {
      KeyTransitive(EdgeKey(a), EdgeKey(b), EdgeKey(c));
    }
  }

  // ---- Activities ----

  predicate EdgeCountIsValid(count: nat, mayBeEmpty: bool) {
    count <= MAX_ACTIVITY_EDGES && (mayBeEmpty || count > 0)
  }

  predicate SharesRepresentation(inputs: seq<Edge>, outputs: seq<Edge>) {
    exists i, o :: 0 <= i < |inputs| && 0 <= o < |outputs| && inputs[i].representation == outputs[o].representation
  }

  function NewActivity(id: Uuid, kind: string, inputs: seq<Edge>, outputs: seq<Edge>): Result<Activity> {
    if !EdgeCountIsValid(|inputs|, true) || !EdgeCountIsValid(|outputs|, false) then
      Err(InvalidArgument)
    else
      var ins, outs := Sort(EdgeLeq(), inputs), Sort(EdgeLeq(), outputs);
      if HasEqualNeighbours(ins) then Err(InvalidArgument)
      else if HasEqualNeighbours(outs) then Err(InvalidArgument)
      else if SharesRepresentation(ins, outs) then Err(InvalidArgument)
      else Ok(Activity.Activity(id, kind, None, None, ins, outs))
  }

  function WithTiming(activity: Activity, started: Option<I64>, finished: Option<I64>): Result<Activity> {
    if started.Some? && finished.Some? && finished.value < started.value then
      Err(InvalidArgument)
    else
      Ok(activity.(started := started, finished := finished))
  }

  /** Times are accepted exactly when they do not run backwards, and stored as start and finish. */
  lemma TimingIsStoredExactly(activity: Activity, started: Option<I64>, finished: Option<I64>)
    ensures var r := WithTiming(activity, started, finished);
      && (r.Ok? <==> (started.Some? && finished.Some? ==> started.value <= finished.value))
      && (r.Ok? ==>
            && r.value.started == started && r.value.finished == finished
            && r.value.id == activity.id && r.value.kind == activity.kind
            && r.value.inputs == activity.inputs && r.value.outputs == activity.outputs)
  {}

  /** Edges are ordered by representation, then role, then snapshot; absent values come first. */
  lemma EdgesAreOrderedByFields(a: Edge, b: Edge)
    ensures a.representation != b.representation ==>
      (EdgeLeq()(a, b) <==> BytewiseBelow(a.representation, b.representation))
    ensures a.representation == b.representation && a.role != b.role ==>
      (EdgeLeq()(a, b) <==> a.role.None? || (b.role.Some? && TextBelow(a.role.value, b.role.value)))
    ensures a.representation == b.representation && a.role == b.role && a.snapshot.None? ==> EdgeLeq()(a, b)
    ensures a.representation == b.representation && a.role == b.role && a.snapshot.Some? && b.snapshot.Some?
            && a.snapshot.value.revision != b.snapshot.value.revision ==>
      (EdgeLeq()(a, b) <==> a.snapshot.value.revision < b.snapshot.value.revision)
  {
    var x, y := EdgeKey(a).items, EdgeKey(b).items;
    FirstFieldDecides(x, y);
    FirstFieldDecides(x[1..], y[1..]);
    FirstFieldDecides(x[1..][1..], y[1..][1..]);
    hide KeyLeq, ItemsLeq, TextKey, BytesKey;
    BytesAreBytewise(a.representation, b.representation);
    if BytesKey(a.representation) == BytesKey(b.representation) {
      BytesKeyInjective(a.representation, b.representation);
    }
    RolesAreOrdered(a.role, b.role);
    SnapshotsAreOrdered(a.snapshot, b.snapshot);
  }

  lemma FirstFieldDecides(x: seq<Key>, y: seq<Key>)
    requires x != [] && y != []
    ensures ItemsLeq(x, y) <==> if x[0] == y[0] then ItemsLeq(x[1..], y[1..]) else KeyLeq(x[0], y[0])
    ensures ItemsLeq([], [])
  {}

  lemma RolesAreOrdered(a: Option<string>, b: Option<string>)
    ensures OptionalTextKey(a) == OptionalTextKey(b) <==> a == b
    ensures a != b ==>
      (KeyLeq(OptionalTextKey(a), OptionalTextKey(b)) <==> a.None? || (b.Some? && TextBelow(a.value, b.value)))
  {
    OptionalTextKeyInjectiveIf(a, b);
    if a.Some? && b.Some? {
      TextIsByCharacters(a.value, b.value);
      FirstFieldDecides(OptionalTextKey(a).items, OptionalTextKey(b).items);
      assert ItemsLeq([], []);
    }
  }

  lemma OptionalTextKeyInjectiveIf(a: Option<string>, b: Option<string>)
    ensures OptionalTextKey(a) == OptionalTextKey(b) ==> a == b
  {
    if OptionalTextKey(a) == OptionalTextKey(b) {
      OptionalTextKeyInjective(a, b);
    }
  }

  lemma SnapshotsAreOrdered(a: Option<EdgeSnapshot>, b: Option<EdgeSnapshot>)
    ensures a.None? ==> KeyLeq(SnapshotKey(a), SnapshotKey(b))
    ensures a.Some? && b.Some? && a.value.revision != b.value.revision ==>
      && SnapshotKey(a) != SnapshotKey(b)
      && (KeyLeq(SnapshotKey(a), SnapshotKey(b)) <==> a.value.revision < b.value.revision)
  {
    if a.Some? && b.Some? && a.value.revision != b.value.revision {
      assert SnapshotKey(a).items[0] != SnapshotKey(b).items[0];
      FirstFieldDecides(SnapshotKey(a).items, SnapshotKey(b).items);
    }
  }

  lemma SharingIsAboutElements(a: seq<Edge>, b: seq<Edge>, c: seq<Edge>, d: seq<Edge>)
    requires multiset(a) == multiset(b) && multiset(c) == multiset(d)
    ensures SharesRepresentation(a, c) ==> SharesRepresentation(b, d)
  {
    if i, o :| 0 <= i < |a| && 0 <= o < |c| && a[i].representation == c[o].representation {
      assert a[i] in multiset(b) && c[o] in multiset(d);
      var j :| 0 <= j < |b| && b[j] == a[i];
      var p :| 0 <= p < |d| && d[p] == c[o];
      assert b[j].representation == d[p].representation;
    }
  }

  /**
   * An activity is accepted exactly for bounded, duplicate-free edges that share no representation. It has
   * the given identity, kind and edges, the edges strictly ascending, and no times yet.
   */
  lemma ActivityAcceptsExactly(id: Uuid, kind: string, inputs: seq<Edge>, outputs: seq<Edge>)
    ensures NewActivity(id, kind, inputs, outputs).Ok?
       <==> && |inputs| <= 100_000 && 1 <= |outputs| <= 100_000
            && Distinct(inputs) && Distinct(outputs)
            && forall i, o :: 0 <= i < |inputs| && 0 <= o < |outputs| ==>
                 inputs[i].representation != outputs[o].representation
    ensures NewActivity(id, kind, inputs, outputs).Ok? ==>
      var a := NewActivity(id, kind, inputs, outputs).value;
      && a.id == id && a.kind == kind && a.started.None? && a.finished.None?
      && multiset(a.inputs) == multiset(inputs) && multiset(a.outputs) == multiset(outputs)
      && Sorted(EdgeLeq(), a.inputs) && Distinct(a.inputs) && Sorted(EdgeLeq(), a.outputs) && Distinct(a.outputs)
  {
    hide EdgeLeq, HasEqualNeighbours, Distinct, Sorted;
    EdgeOrderIsTotal();
    SortThenScanFindsDuplicates(EdgeLeq(), inputs);
    SortThenScanFindsDuplicates(EdgeLeq(), outputs);
    SortSorts(EdgeLeq(), inputs);
    SortSorts(EdgeLeq(), outputs);
    var ins, outs := Sort(EdgeLeq(), inputs), Sort(EdgeLeq(), outputs);
    SameElementsSameDistinctness(inputs, ins);
    SameElementsSameDistinctness(outputs, outs);
    SharingIsAboutElements(ins, inputs, outs, outputs);
    SharingIsAboutElements(inputs, ins, outputs, outs);
  }

  /** Two accepted activities are equal exactly when they have the same edges, however listed. */
  lemma ActivityIgnoresOrder(id: Uuid, kind: string, ins1: seq<Edge>, outs1: seq<Edge>,
                             ins2: seq<Edge>, outs2: seq<Edge>)
    requires NewActivity(id, kind, ins1, outs1).Ok? && NewActivity(id, kind, ins2, outs2).Ok?
    ensures NewActivity(id, kind, ins1, outs1) == NewActivity(id, kind, ins2, outs2)
       <==> (forall e :: e in ins1 <==> e in ins2) && (forall e :: e in outs1 <==> e in outs2)
  {
    hide EdgeLeq, SharesRepresentation, HasEqualNeighbours, Distinct;
    EdgeOrderIsTotal();
    ActivityAcceptsExactly(id, kind, ins1, outs1);
    ActivityAcceptsExactly(id, kind, ins2, outs2);
    SortIsCanonical(EdgeLeq(), ins1, ins2);
    SortIsCanonical(EdgeLeq(), outs1, outs2);
    DistinctSameElements(ins1, ins2);
    DistinctSameElements(outs1, outs2);
  }

  /** Distinct lists have the same multiset exactly when they have the same members. */
  lemma DistinctSameElements<T>(a: seq<T>, b: seq<T>)
    requires Distinct(a) && Distinct(b)
    ensures multiset(a) == multiset(b) <==> forall x :: x in a <==> x in b
  {
    DistinctIsMultiplicityOne(a);
    DistinctIsMultiplicityOne(b);
    assert forall x :: x in a <==> x in multiset(a);
    assert forall x :: x in b <==> x in multiset(b);
    if forall x :: x in a <==> x in b {
      forall x
        ensures multiset(a)[x] == multiset(b)[x]
      {
        assert x in a || multiset(a)[x] == 0;
        assert x in b || multiset(b)[x] == 0;
      }
    }
  }

  // ---- Edge snapshots ----

  function DomainLeq(): (FingerprintSnapshot, FingerprintSnapshot) -> bool {
    (a: FingerprintSnapshot, b: FingerprintSnapshot) => KeyLeq(DomainKey(a), DomainKey(b))
  }

  function Domains(fingerprints: seq<FingerprintSnapshot>): seq<Key> {
    Map((f: FingerprintSnapshot) => DomainKey(f), fingerprints)
  }

  function NewEdgeSnapshot(revision: U64, fingerprints: seq<FingerprintSnapshot>): Result<EdgeSnapshot> {
    if revision == 0 then
      Err(InvalidArgument)
    else
      var sorted := Sort(DomainLeq(), fingerprints);
      if exists i :: 0 <= i < |sorted| - 1
                     && sorted[i].algorithm == sorted[i + 1].algorithm && sorted[i].version == sorted[i + 1].version
      then Err(InvalidArgument)
      else Ok(EdgeSnapshot(revision, sorted))
  }

  lemma DomainPreorder()
    ensures TotalPreorder(DomainLeq())
  {
    hide DomainKey, KeyLeq;
    forall a, b
      ensures DomainLeq()(a, b) || DomainLeq()(b, a)
    {
      KeyTotal(DomainKey(a), DomainKey(b));
    }
    forall a, b, c | DomainLeq()(a, b) && DomainLeq()(b, c)
      ensures DomainLeq()(a, c)
    {
      KeyTransitive(DomainKey(a), DomainKey(b), DomainKey(c));
    }
  }

  lemma SameDomain(a: FingerprintSnapshot, b: FingerprintSnapshot)
    ensures DomainKey(a) == DomainKey(b) <==> a.algorithm == b.algorithm && a.version == b.version
  {
    hide TextKey;
    if DomainKey(a) == DomainKey(b) {
      var x, y := DomainKey(a).items, DomainKey(b).items;
      assert x[0] == y[0] && x[1] == y[1];
      TextKeyInjective(a.algorithm, b.algorithm);
    }
  }

  /** The sorted snapshots list their domains in ascending order. */
  lemma SortedDomains(fingerprints: seq<FingerprintSnapshot>)
    ensures var sorted := Sort(DomainLeq(), fingerprints);
      && Sorted(DomainLeq(), sorted)
      && Sorted(KeyOrder(), Domains(sorted))
      && multiset(sorted) == multiset(fingerprints)
      && (Distinct(Domains(sorted)) <==> Distinct(Domains(fingerprints)))
  {
    hide DomainKey, KeyLeq, Distinct;
    DomainPreorder();
    SortSorts(DomainLeq(), fingerprints);
    var sorted := Sort(DomainLeq(), fingerprints);
    forall i, j | 0 <= i < j < |sorted|
      ensures KeyOrder()(Domains(sorted)[i], Domains(sorted)[j])
    {
      assert DomainLeq()(sorted[i], sorted[j]);
    }
    MapOfPermutation((f: FingerprintSnapshot) => DomainKey(f), sorted, fingerprints);
    SameElementsSameDistinctness(Domains(sorted), Domains(fingerprints));
  }

  /**
   * A snapshot is accepted exactly for a positive revision and distinct fingerprint domains, which are an
   * algorithm and its version. It has the given revision and fingerprints, ordered by their domains.
   */
  lemma SnapshotAcceptsExactly(revision: U64, fingerprints: seq<FingerprintSnapshot>)
    ensures NewEdgeSnapshot(revision, fingerprints).Ok? <==> revision > 0 && Distinct(Domains(fingerprints))
    ensures NewEdgeSnapshot(revision, fingerprints).Ok?
       <==> && revision > 0
            && forall i, j :: 0 <= i < j < |fingerprints| ==>
                 || fingerprints[i].algorithm != fingerprints[j].algorithm
                 || fingerprints[i].version != fingerprints[j].version
    ensures NewEdgeSnapshot(revision, fingerprints).Ok? ==>
      var s := NewEdgeSnapshot(revision, fingerprints).value;
      s.revision == revision && multiset(s.fingerprints) == multiset(fingerprints)
      && Sorted(DomainLeq(), s.fingerprints)
  {
    DistinctDomains(fingerprints);
    hide DomainLeq, DomainKey, KeyLeq, KeyOrder, Sort, Sorted, Distinct, TotalOrder, HasEqualNeighbours, Domains;
    var sorted := Sort(DomainLeq(), fingerprints);
    SortedDomains(fingerprints);
    KeyOrderIsTotal();
    NeighboursShowDuplicates(KeyOrder(), Domains(sorted));
    NeighbourDomains(sorted);
  }

  lemma DistinctDomains(fingerprints: seq<FingerprintSnapshot>)
    ensures Distinct(Domains(fingerprints))
       <==> forall i, j :: 0 <= i < j < |fingerprints| ==>
              || fingerprints[i].algorithm != fingerprints[j].algorithm
              || fingerprints[i].version != fingerprints[j].version
  {
    hide DomainKey;
    var domains := Domains(fingerprints);
    forall i, j | 0 <= i < j < |fingerprints|
      ensures domains[i] == domains[j]
         <==> && fingerprints[i].algorithm == fingerprints[j].algorithm
              && fingerprints[i].version == fingerprints[j].version
    {
      SameDomain(fingerprints[i], fingerprints[j]);
    }
  }

  lemma NeighbourDomains(fingerprints: seq<FingerprintSnapshot>)
    ensures HasEqualNeighbours(Domains(fingerprints))
       <==> exists i :: && 0 <= i < |fingerprints| - 1
                        && fingerprints[i].algorithm == fingerprints[i + 1].algorithm
                        && fingerprints[i].version == fingerprints[i + 1].version
  {
    hide DomainKey;
    var domains := Domains(fingerprints);
    forall i | 0 <= i < |fingerprints| - 1
      ensures domains[i] == domains[i + 1]
         <==> fingerprints[i].algorithm == fingerprints[i + 1].algorithm
              && fingerprints[i].version == fingerprints[i + 1].version
    {
      SameDomain(fingerprints[i], fingerprints[i + 1]);
    }
    if i :| 0 <= i < |domains| - 1 && domains[i] == domains[i + 1] {
      assert fingerprints[i].algorithm == fingerprints[i + 1].algorithm;
    }
  }

  /** Domains are ordered by algorithm and then by version. */
  lemma DomainsAreOrdered(a: FingerprintSnapshot, b: FingerprintSnapshot)
    ensures DomainLeq()(a, b)
       <==> if a.algorithm == b.algorithm then a.version <= b.version else TextBelow(a.algorithm, b.algorithm)
  {
    var x, y := DomainKey(a).items, DomainKey(b).items;
    FirstFieldDecides(x, y);
    FirstFieldDecides(x[1..], y[1..]);
    hide TextKey, KeyLeq, ItemsLeq;
    TextIsByCharacters(a.algorithm, b.algorithm);
    if TextKey(a.algorithm) == TextKey(b.algorithm) {
      TextKeyInjective(a.algorithm, b.algorithm);
    }
    NumbersAreOrdered(a.version, b.version);
  }

  lemma NumbersAreOrdered(a: int, b: int)
    ensures KeyLeq(Num(a), Num(b)) <==> a <= b
  {}

  function FingerprintLeq(): (FingerprintSnapshot, FingerprintSnapshot) -> bool {
    (a: FingerprintSnapshot, b: FingerprintSnapshot) => KeyLeq(FingerprintKey(a), FingerprintKey(b))
  }

  lemma FingerprintOrderIsTotal()
    ensures TotalOrder(FingerprintLeq())
  {
    hide FingerprintKey, KeyLeq;
    forall a, b
      ensures FingerprintLeq()(a, b) || FingerprintLeq()(b, a)
      ensures FingerprintLeq()(a, b) && FingerprintLeq()(b, a) ==> a == b
    {
      KeyTotal(FingerprintKey(a), FingerprintKey(b));
      if FingerprintKey(a) == FingerprintKey(b) {
        FingerprintKeyInjective(a, b);
      }
    }
    forall a, b, c | FingerprintLeq()(a, b) && FingerprintLeq()(b, c)
      ensures FingerprintLeq()(a, c)
    {
      KeyTransitive(FingerprintKey(a), FingerprintKey(b), FingerprintKey(c));
    }
  }

  /** Fingerprints are ordered by algorithm, version, value and time of observation, an absent time first. */
  lemma FingerprintsAreOrderedByFields(a: FingerprintSnapshot, b: FingerprintSnapshot)
    ensures FingerprintLeq()(a, b)
       <==> if a.algorithm != b.algorithm then TextBelow(a.algorithm, b.algorithm)
            else if a.version != b.version then a.version < b.version
            else if a.value != b.value then BytewiseBelow(a.value, b.value)
            else a.observed.None? || (b.observed.Some? && a.observed.value <= b.observed.value)
  {
    var x, y := FingerprintKey(a).items, FingerprintKey(b).items;
    FirstFieldDecides(x, y);
    FirstFieldDecides(x[1..], y[1..]);
    FirstFieldDecides(x[1..][1..], y[1..][1..]);
    FirstFieldDecides(x[1..][1..][1..], y[1..][1..][1..]);
    hide TextKey, BytesKey, OptionalNumKey, KeyLeq, ItemsLeq;
    TextIsByCharacters(a.algorithm, b.algorithm);
    if TextKey(a.algorithm) == TextKey(b.algorithm) {
      TextKeyInjective(a.algorithm, b.algorithm);
    }
    NumbersAreOrdered(a.version, b.version);
    BytesAreBytewise(a.value, b.value);
    if BytesKey(a.value) == BytesKey(b.value) {
      BytesKeyInjective(a.value, b.value);
    }
    OptionalNumbersAreOrdered(a.observed, b.observed);
  }

  lemma OptionalNumbersAreOrdered(a: Option<U64>, b: Option<U64>)
    ensures KeyLeq(OptionalNumKey(a), OptionalNumKey(b)) <==> a.None? || (b.Some? && a.value <= b.value)
    ensures OptionalNumKey(a) == OptionalNumKey(b) <==> a == b
  {
    if a.Some? && b.Some? {
      FirstFieldDecides(OptionalNumKey(a).items, OptionalNumKey(b).items);
      assert OptionalNumKey(a).items[0] == Num(a.value) && OptionalNumKey(b).items[0] == Num(b.value);
    }
  }

  /** Where the fingerprints first differ the first list has ended or has the earlier one. */
  ghost predicate FirstDifference(a: seq<FingerprintSnapshot>, b: seq<FingerprintSnapshot>, i: nat) {
    i <= |a| && i < |b| && a[..i] == b[..i] && (i < |a| ==> a[i] != b[i] && FingerprintLeq()(a[i], b[i]))
  }

  /** Edges that differ in the fingerprints of their snapshots only are ordered by these lists. */
  lemma FingerprintsDecideLast(a: Edge, b: Edge)
    requires a.representation == b.representation && a.role == b.role
    requires a.snapshot.Some? && b.snapshot.Some? && a.snapshot.value.revision == b.snapshot.value.revision
    ensures var s, t := a.snapshot.value.fingerprints, b.snapshot.value.fingerprints;
      EdgeLeq()(a, b) <==> s == t || exists i: nat :: FirstDifference(s, t, i)
  {
    var s, t := a.snapshot.value.fingerprints, b.snapshot.value.fingerprints;
    LastFieldDecides(a, b);
    ItemsAreLexicographic(FingerprintKeys(s), FingerprintKeys(t));
    SameFingerprintKeys(s, t);
    hide FingerprintKey, KeyLeq, ItemsLeq, FingerprintKeys;
    if s == t {
    } else if i: nat :| FirstDifference(s, t, i) {
      FirstDifferenceOfKeys(s, t, i);
    } else if i: nat :| DifferAt(FingerprintKeys(s), FingerprintKeys(t), i) {
      FirstDifferenceOfKeys(s, t, i);
      assert false;
    }
  }

  lemma LastFieldDecides(a: Edge, b: Edge)
    requires a.representation == b.representation && a.role == b.role
    requires a.snapshot.Some? && b.snapshot.Some? && a.snapshot.value.revision == b.snapshot.value.revision
    ensures EdgeLeq()(a, b) <==> ItemsLeq(FingerprintKeys(a.snapshot.value.fingerprints),
                                          FingerprintKeys(b.snapshot.value.fingerprints))
  {
    var x, y := EdgeKey(a).items, EdgeKey(b).items;
    FirstFieldDecides(x, y);
    FirstFieldDecides(x[1..], y[1..]);
    FirstFieldDecides(x[1..][1..], y[1..][1..]);
    var u, v := SnapshotKey(a.snapshot).items, SnapshotKey(b.snapshot).items;
    FirstFieldDecides(u, v);
    FirstFieldDecides(u[1..], v[1..]);
    hide TextKey, BytesKey, FingerprintKeys;
    var fs, gs := FingerprintKeys(a.snapshot.value.fingerprints), FingerprintKeys(b.snapshot.value.fingerprints);
    ItemsTotal(fs, gs);
    assert u[1..][0] == Fields(fs) && v[1..][0] == Fields(gs);
    assert fs != gs ==> (KeyLeq(SnapshotKey(a.snapshot), SnapshotKey(b.snapshot)) <==> ItemsLeq(fs, gs));
    assert x[1..][1..][0] == SnapshotKey(a.snapshot) && y[1..][1..][0] == SnapshotKey(b.snapshot);
  }

  lemma SameFingerprintKeys(s: seq<FingerprintSnapshot>, t: seq<FingerprintSnapshot>)
    ensures FingerprintKeys(s) == FingerprintKeys(t) ==> s == t
  {
    hide FingerprintKey;
    if FingerprintKeys(s) == FingerprintKeys(t) {
      assert |FingerprintKeys(s)| == |s| && |FingerprintKeys(t)| == |t|;
      forall i | 0 <= i < |s|
        ensures s[i] == t[i]
      {
        assert FingerprintKeys(s)[i] == FingerprintKeys(t)[i];
        FingerprintKeyInjective(s[i], t[i]);
      }
    }
  }

  lemma FirstDifferenceOfKeys(s: seq<FingerprintSnapshot>, t: seq<FingerprintSnapshot>, i: nat)
    ensures FirstDifference(s, t, i) <==> DifferAt(FingerprintKeys(s), FingerprintKeys(t), i)
  {
    hide FingerprintKey, KeyLeq;
    if i <= |s| && i < |t| {
      assert FingerprintKeys(s)[..i] == FingerprintKeys(s[..i]) && FingerprintKeys(t)[..i] == FingerprintKeys(t[..i]);
      SameFingerprintKeys(s[..i], t[..i]);
      if i < |s| && FingerprintKey(s[i]) == FingerprintKey(t[i]) {
        FingerprintKeyInjective(s[i], t[i]);
      }
    }
  }

  /** Where the domains differ, the order of the domains is the order of the whole records. */
  lemma DomainDecidesOrder(a: FingerprintSnapshot, b: FingerprintSnapshot)
    requires KeyLeq(DomainKey(a), DomainKey(b)) && DomainKey(a) != DomainKey(b)
    ensures KeyLeq(FingerprintKey(a), FingerprintKey(b))
  {
    hide TextKey, BytesKey;
    var x, y := DomainKey(a).items, DomainKey(b).items;
    var u, v := FingerprintKey(a).items, FingerprintKey(b).items;
    assert x[0] == u[0] && y[0] == v[0] && x[1] == u[1] && y[1] == v[1];
    if x[0] == y[0] {
      assert x[1] != y[1];
      assert ItemsLeq(x[1..], y[1..]);
      assert x[1..][0] == x[1] && y[1..][0] == y[1];
      assert u[1..][0] == u[1] && v[1..][0] == v[1];
      assert ItemsLeq(u[1..], v[1..]);
    }
  }

  lemma SortedByDomainIsSorted(sorted: seq<FingerprintSnapshot>)
    requires Sorted(DomainLeq(), sorted) && Distinct(Domains(sorted))
    ensures Sorted(FingerprintLeq(), sorted)
  {
    hide DomainKey, FingerprintKey, KeyLeq;
    forall i, j | 0 <= i < j < |sorted|
      ensures FingerprintLeq()(sorted[i], sorted[j])
    {
      assert DomainLeq()(sorted[i], sorted[j]);
      assert Domains(sorted)[i] != Domains(sorted)[j];
      DomainDecidesOrder(sorted[i], sorted[j]);
    }
  }

  /** Accepted snapshots of one revision are equal exactly when they hold the same fingerprints. */
  lemma SnapshotIgnoresOrder(revision: U64, a: seq<FingerprintSnapshot>, b: seq<FingerprintSnapshot>)
    requires NewEdgeSnapshot(revision, a).Ok? && NewEdgeSnapshot(revision, b).Ok?
    ensures NewEdgeSnapshot(revision, a) == NewEdgeSnapshot(revision, b) <==> multiset(a) == multiset(b)
  {
    hide DomainLeq, FingerprintLeq, DomainKey, Sort, Distinct, Sorted;
    SnapshotAcceptsExactly(revision, a);
    SnapshotAcceptsExactly(revision, b);
    SortedDomains(a);
    SortedDomains(b);
    var x, y := Sort(DomainLeq(), a), Sort(DomainLeq(), b);
    SortedByDomainIsSorted(x);
    SortedByDomainIsSorted(y);
    FingerprintOrderIsTotal();
    if multiset(a) == multiset(b) {
      SortedIsUnique(FingerprintLeq(), x, y);
    }
  }
}
