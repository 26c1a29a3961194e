/** Aggregating resource results into representation availability (crates/postproject-core/src/resolution.rs). */
module Resolution {
  import opened Wrappers
  import opened Machine
  import opened Orders
  import opened Identity
  import opened Content

  datatype ResourceState = OnlineAtKnownLocator | ResolvedExact | ResolvedProbable | Offline | Ambiguous | Error {
    predicate IsOnline() {
      OnlineAtKnownLocator? || ResolvedExact? || ResolvedProbable?
    }
  }

  datatype ResourceResolution = ResourceResolution(resource: Uuid, state: ResourceState, missingFrames: seq<I64>)

  datatype Availability = AllOnline | Partial | AllOffline | SomeAmbiguous | Failed

  datatype IssueKind = OfflineResource | AmbiguousResource | ResourceError | MissingFrames

  datatype Issue = Issue(resource: Uuid, required: bool, kind: IssueKind, frames: seq<I64>)

  datatype RepresentationResolution =
    RepresentationResolution(availability: Availability, resources: seq<ResourceResolution>, issues: seq<Issue>)

  datatype Counts = Counts(online: nat, offline: nat, ambiguous: bool, error: bool, missingFrames: bool) {
    /** `AvailabilityCounts::availability`. */
    function Availability(): Availability {
      if error then Failed
      else if ambiguous then SomeAmbiguous
      else if online == 0 then AllOffline
      else if offline > 0 || missingFrames then Partial
      else AllOnline
    }
  }

  function Ids(resources: seq<ResourceResolution>): seq<Uuid> {
    seq(|resources|, i requires 0 <= i < |resources| => resources[i].resource)
  }

  // ---- What an aggregation means ----

  function Lookup(resources: seq<ResourceResolution>, id: Uuid): (found: ResourceResolution)
    requires id in Ids(resources)
    ensures found in resources && found.resource == id
  {
    if resources[0].resource == id then
      resources[0]
    else
      assert Ids(resources)[1..] == Ids(resources[1..]);
      Lookup(resources[1..], id)
  }

  /** The results in structural order, when they are exactly one result for each resource. */
  function Order(structure: ContentStructure, resources: seq<ResourceResolution>): Result<seq<ResourceResolution>> {
    var expected := ResourceIds(structure);
    if && |resources| == |expected| && Distinct(Ids(resources))
       && forall id :: id in expected ==> id in Ids(resources)
    then
      Ok(seq(|expected|, i requires 0 <= i < |expected| => Lookup(resources, expected[i])))
    else
      Err(InvalidArgument)
  }

  predicate SomeRequired(structure: ContentStructure, resources: seq<ResourceResolution>, state: ResourceState) {
    exists i :: 0 <= i < |resources| && resources[i].state == state && IsRequired(structure, resources[i].resource)
  }

  predicate SomeRequiredOnline(structure: ContentStructure, resources: seq<ResourceResolution>) {
    exists i :: 0 <= i < |resources| && resources[i].state.IsOnline() && IsRequired(structure, resources[i].resource)
  }

  /** Frames of an image sequence known missing or observed missing, canonical. */
  function MissingOf(structure: ContentStructure, resources: seq<ResourceResolution>): seq<I64> {
    match structure
    case ImageSequence(descriptor) =>
      if descriptor.resource in Ids(resources) then
        Canonical(descriptor.knownMissing + Lookup(resources, descriptor.resource).missingFrames)
      else
        Canonical(descriptor.knownMissing)
    case _ => []
  }

  /** The availability, said without counters. */
  function AvailabilityOf(structure: ContentStructure, resources: seq<ResourceResolution>): Availability {
    if SomeRequired(structure, resources, Error) then Failed
    else if SomeRequired(structure, resources, Ambiguous) then SomeAmbiguous
    else if !SomeRequiredOnline(structure, resources) then AllOffline
    else if SomeRequired(structure, resources, Offline) || MissingOf(structure, resources) != [] then Partial
    else AllOnline
  }

  function IssueOf(structure: ContentStructure, resource: ResourceResolution): seq<Issue> {
    var required := IsRequired(structure, resource.resource);
    match resource.state
    case Offline => [Issue(resource.resource, required, OfflineResource, [])]
    case Ambiguous => [Issue(resource.resource, required, AmbiguousResource, [])]
    case Error => [Issue(resource.resource, required, ResourceError, [])]
    case _ => []
  }

  function ResourceIssues(structure: ContentStructure, resources: seq<ResourceResolution>): seq<Issue> {
    if resources == [] then
      []
    else
      ResourceIssues(structure, resources[..|resources| - 1]) + IssueOf(structure, resources[|resources| - 1])
  }

  function IssuesOf(structure: ContentStructure, resources: seq<ResourceResolution>): seq<Issue> {
    var missing := MissingOf(structure, resources);
    ResourceIssues(structure, resources)
    + if structure.ImageSequence? && missing != []
      then [Issue(structure.descriptor.resource, true, MissingFrames, missing)]
      else []
  }

  function Aggregated(structure: ContentStructure, resources: seq<ResourceResolution>)
    : Result<RepresentationResolution>
  {
    var ordered :- Order(structure, resources);
    Ok(RepresentationResolution(AvailabilityOf(structure, ordered), ordered, IssuesOf(structure, ordered)))
  }

  // ---- The implementation's loops ----

  /** The index maps exactly the given identities, each to its result. */
  ghost predicate Indexes(byId: map<Uuid, ResourceResolution>, resources: seq<ResourceResolution>) {
    && (forall id :: id in byId <==> id in Ids(resources))
    && forall id :: id in byId ==> byId[id] == Lookup(resources, id)
  }

  /** The first loop of `order_resource_resolutions`: a second result for an identity is refused. */
  method IndexById(resources: seq<ResourceResolution>) returns (index: Result<map<Uuid, ResourceResolution>>)
    ensures index.Ok? <==> Distinct(Ids(resources))
    ensures index.Ok? ==> Indexes(index.value, resources)
    ensures index.Err? ==> index.error == InvalidArgument
  {
    hide Lookup;
    var byId: map<Uuid, ResourceResolution> := map[];
    for i := 0 to |resources|
      invariant Indexes(byId, resources[..i])
      invariant Distinct(Ids(resources[..i]))
    {
      assert Ids(resources[..i + 1]) == Ids(resources[..i]) + [resources[i].resource];
      if resources[i].resource in byId {
        RepeatedId(resources, i);
        return Err(InvalidArgument);
      }
      IndexGrows(byId, resources[..i], resources[i]);
      assert resources[..i + 1] == resources[..i] + [resources[i]];
      byId := byId[resources[i].resource := resources[i]];
    }
    assert resources[..|resources|] == resources;
    index := Ok(byId);
  }

  lemma IndexGrows(byId: map<Uuid, ResourceResolution>, resources: seq<ResourceResolution>, next: ResourceResolution)
    requires Indexes(byId, resources) && Distinct(Ids(resources)) && next.resource !in byId
    ensures Distinct(Ids(resources + [next]))
    ensures Indexes(byId[next.resource := next], resources + [next])
  {
    var grown := resources + [next];
    assert Ids(grown) == Ids(resources) + [next.resource];
    forall id | id in Ids(grown)
      ensures byId[next.resource := next][id] == Lookup(grown, id)
    {
      if id == next.resource {
        LookupIsTheEntry(grown, |resources|);
      } else {
        var i :| 0 <= i < |resources| && Ids(resources)[i] == id;
        LookupIsTheEntry(resources, i);
        LookupIsTheEntry(grown, i);
      }
    }
  }

  /** The second loop: entries leave the index in structural order; a missing one refuses the set. */
  method TakeInOrder(expected: seq<Uuid>, index: map<Uuid, ResourceResolution>,
                     ghost resources: seq<ResourceResolution>)
    returns (ordered: Result<seq<ResourceResolution>>)
    requires Indexes(index, resources) && Distinct(expected)
    ensures ordered.Ok? <==> forall id :: id in expected ==> id in Ids(resources)
    ensures ordered.Ok? ==>
      && |ordered.value| == |expected|
      && forall j :: 0 <= j < |expected| ==> ordered.value[j] == Lookup(resources, expected[j])
    ensures ordered.Err? ==> ordered.error == InvalidArgument
  {
    hide Lookup, Ids;
    var byId := index;
    var sorted: seq<ResourceResolution> := [];
    for i := 0 to |expected|
      invariant |sorted| == i
      invariant forall j :: 0 <= j < i ==> expected[j] in Ids(resources) && sorted[j] == Lookup(resources, expected[j])
      invariant forall id :: id in byId <==> id in index && id !in expected[..i]
      invariant forall id :: id in byId ==> byId[id] == index[id]
    {
      assert expected[i] !in expected[..i];
      if expected[i] !in byId {
        assert expected[i] in expected;
        return Err(InvalidArgument);
      }
      assert expected[..i + 1] == expected[..i] + [expected[i]];
      sorted := sorted + [byId[expected[i]]];
      byId := byId - {expected[i]};
    }
    ordered := Ok(sorted);
  }

  /** `order_resource_resolutions`: index by identity, then take the entries in structural order. */
  method OrderResourceResolutions(structure: ContentStructure, resources: seq<ResourceResolution>)
    returns (ordered: Result<seq<ResourceResolution>>)
    ensures ordered == Order(structure, resources)
  {
    hide Lookup, Ids, Distinct;
    var expected := ResourceIds(structure);
    SomeResourceIsRequired(structure);
    if |resources| != |expected| {
      return Err(InvalidArgument);
    }
    var index := IndexById(resources);
    if index.Err? {
      return Err(InvalidArgument);
    }
    ordered := TakeInOrder(expected, index.value, resources);
    if ordered.Ok? {
      assert ordered.value == seq(|expected|, i requires 0 <= i < |expected| => Lookup(resources, expected[i]));
    }
  }

  lemma RepeatedId(resources: seq<ResourceResolution>, i: nat)
    requires i < |resources| && resources[i].resource in Ids(resources[..i])
    ensures !Distinct(Ids(resources))
  {
    var j :| 0 <= j < i && Ids(resources[..i])[j] == resources[i].resource;
    assert Ids(resources)[j] == Ids(resources)[i];
  }

  /** `inspect_resource`: updates the counters and the diagnostics for one result. */
  method InspectResource(structure: ContentStructure, resource: ResourceResolution, counts: Counts, issues: seq<Issue>)
    returns (c: Counts, diagnostics: seq<Issue>)
    ensures var required := IsRequired(structure, resource.resource);
      && c.online == counts.online + (if required && resource.state.IsOnline() then 1 else 0)
      && c.offline == counts.offline + (if required && resource.state == Offline then 1 else 0)
      && c.ambiguous == (counts.ambiguous || (required && resource.state == Ambiguous))
      && c.error == (counts.error || (required && resource.state == Error))
      && c.missingFrames == counts.missingFrames
    ensures diagnostics == issues + IssueOf(structure, resource)
  {
    var required := IsRequired(structure, resource.resource);
    var one := if required then 1 else 0;
    c := counts;
    var kind: Option<IssueKind> := None;
    match resource.state {
      case Offline =>
        c := c.(offline := c.offline + one);
        kind := Some(OfflineResource);
      case Ambiguous =>
        c := c.(ambiguous := c.ambiguous || required);
        kind := Some(AmbiguousResource);
      case Error =>
        c := c.(error := c.error || required);
        kind := Some(ResourceError);
      case _ =>
        c := c.(online := c.online + one);
    }
    diagnostics := issues;
    if kind.Some? {
      diagnostics := diagnostics + [Issue(resource.resource, required, kind.value, [])];
    }
  }

  /** The counters count what the quantified description asks about. */
  ghost predicate CountsDescribe(counts: Counts, structure: ContentStructure, resources: seq<ResourceResolution>) {
    && (counts.online > 0 <==> SomeRequiredOnline(structure, resources))
    && (counts.offline > 0 <==> SomeRequired(structure, resources, Offline))
    && (counts.ambiguous <==> SomeRequired(structure, resources, Ambiguous))
    && (counts.error <==> SomeRequired(structure, resources, Error))
  }

  lemma DescribeStep(structure: ContentStructure, resources: seq<ResourceResolution>, state: ResourceState)
    requires resources != []
    ensures var front, last := resources[..|resources| - 1], resources[|resources| - 1];
      && (SomeRequired(structure, resources, state)
          <==> SomeRequired(structure, front, state) || (last.state == state && IsRequired(structure, last.resource)))
      && (SomeRequiredOnline(structure, resources)
          <==> SomeRequiredOnline(structure, front) || (last.state.IsOnline() && IsRequired(structure, last.resource)))
  {
    hide IsRequired;
    var front, last := resources[..|resources| - 1], resources[|resources| - 1];
    assert forall i :: 0 <= i < |front| ==> front[i] == resources[i];
    if i :| 0 <= i < |front| && front[i].state == state && IsRequired(structure, front[i].resource) {
      assert resources[i].state == state;
    }
    if i :| 0 <= i < |front| && front[i].state.IsOnline() && IsRequired(structure, front[i].resource) {
      assert resources[i].state.IsOnline();
    }
    assert resources[|resources| - 1] == last;
  }

  lemma NothingIsDescribed(structure: ContentStructure)
    ensures CountsDescribe(Counts(0, 0, false, false, false), structure, [])
  {}

  /** `inspect_availability`. */
  method InspectAvailability(structure: ContentStructure, resources: seq<ResourceResolution>)
    returns (availability: Availability, issues: seq<Issue>)
    ensures availability == AvailabilityOf(structure, resources)
    ensures issues == IssuesOf(structure, resources)
  {
    hide IsRequired, IssueOf, Canonical, Lookup, SomeRequired, SomeRequiredOnline;
    NothingIsDescribed(structure);
    var counts := Counts(0, 0, false, false, false);
    issues := [];
    for i := 0 to |resources|
      invariant CountsDescribe(counts, structure, resources[..i]) && !counts.missingFrames
      invariant issues == ResourceIssues(structure, resources[..i])
    {
      var next := resources[..i + 1];
      assert next[..|next| - 1] == resources[..i] && next[|next| - 1] == resources[i];
      DescribeStep(structure, next, Offline);
      DescribeStep(structure, next, Ambiguous);
      DescribeStep(structure, next, Error);
      counts, issues := InspectResource(structure, resources[i], counts, issues);
    }
    assert resources[..|resources|] == resources;
    if structure.ImageSequence? {
      var descriptor := structure.descriptor;
      var missing := descriptor.knownMissing;
      if descriptor.resource in Ids(resources) {
        missing := missing + Lookup(resources, descriptor.resource).missingFrames;
      }
      missing := Canonical(missing);
      if missing != [] {
        counts := counts.(missingFrames := true);
        issues := issues + [Issue(descriptor.resource, true, MissingFrames, missing)];
      }
    }
    availability := counts.Availability();
  }

  /** `RepresentationResolution::aggregate`. */
  method Aggregate(structure: ContentStructure, resources: seq<ResourceResolution>)
    returns (resolution: Result<RepresentationResolution>)
    ensures resolution == Aggregated(structure, resources)
  {
    var ordered := OrderResourceResolutions(structure, resources);
    if ordered.Err? {
      return Err(ordered.error);
    }
    var availability, issues := InspectAvailability(structure, ordered.value);
    resolution := Ok(RepresentationResolution(availability, ordered.value, issues));
  }

  // ---- Main results ----

  lemma {:induction false} LookupIsTheEntry(resources: seq<ResourceResolution>, i: nat)
    requires i < |resources| && Distinct(Ids(resources))
    ensures resources[i].resource in Ids(resources) && Lookup(resources, resources[i].resource) == resources[i]
  {
    assert Ids(resources)[i] == resources[i].resource;
    if i > 0 {
      assert Ids(resources)[0] != Ids(resources)[i];
      assert Ids(resources[1..]) == Ids(resources)[1..];
      DistinctTail(Ids(resources));
      LookupIsTheEntry(resources[1..], i - 1);
    }
  }

  lemma DistinctTail<T>(s: seq<T>)
    requires s != [] && Distinct(s)
    ensures Distinct(s[1..])
  {}

  lemma Without<T>(s: seq<T>, i: nat)
    requires i < |s| && Distinct(s)
    ensures var rest := s[..i] + s[i + 1..];
      && multiset(s) == multiset(rest) + multiset{s[i]}
      && Distinct(rest)
      && forall y :: y in s && y != s[i] ==> y in rest
  {
    var rest := s[..i] + s[i + 1..];
    assert s == s[..i] + [s[i]] + s[i + 1..];
    forall y | y in s && y != s[i]
      ensures y in rest
    {
      var j :| 0 <= j < |s| && s[j] == y;
      assert y == if j < i then rest[j] else rest[j - 1];
    }
  }

  /** Distinct lists of equal length, one inside the other, have the same elements. */
  lemma {:induction false} DistinctSameLength<T>(a: seq<T>, b: seq<T>)
    requires Distinct(a) && Distinct(b) && |a| == |b|
    requires forall x :: x in a ==> x in b
    ensures multiset(a) == multiset(b)
  {
    if a != [] {
      var x, front := a[|a| - 1], a[..|a| - 1];
      assert a == front + [x] && x in b;
      var i :| 0 <= i < |b| && b[i] == x;
      Without(b, i);
      assert forall y :: y in front ==> y in a && y != x;
      DistinctSameLength(front, b[..i] + b[i + 1..]);
    }
  }

  /** Aggregation succeeds exactly when the results are a permutation of the structure's resources. */
  lemma AggregationSucceedsExactly(structure: ContentStructure, resources: seq<ResourceResolution>)
    ensures Aggregated(structure, resources).Ok? <==> multiset(Ids(resources)) == multiset(ResourceIds(structure))
    ensures Aggregated(structure, resources).Ok? ==>
      var ordered := Aggregated(structure, resources).value.resources;
      Ids(ordered) == ResourceIds(structure) && multiset(ordered) == multiset(resources)
  {
    var expected, ids := ResourceIds(structure), Ids(resources);
    SomeResourceIsRequired(structure);
    if multiset(ids) == multiset(expected) {
      assert |multiset(ids)| == |multiset(expected)|;
      SameElementsSameDistinctness(ids, expected);
      forall id | id in expected
        ensures id in ids
      {
        assert id in multiset(expected);
      }
    }
    if Order(structure, resources).Ok? {
      DistinctSameLength(expected, ids);
      OrderKeepsResults(structure, resources);
    }
  }

  lemma OrderKeepsResults(structure: ContentStructure, resources: seq<ResourceResolution>)
    requires Order(structure, resources).Ok?
    ensures var ordered := Order(structure, resources).value;
            Ids(ordered) == ResourceIds(structure) && multiset(ordered) == multiset(resources)
  {
    var ordered, expected := Order(structure, resources).value, ResourceIds(structure);
    SomeResourceIsRequired(structure);
    assert Ids(ordered) == expected;
    forall i, j | 0 <= i < j < |ordered|
      ensures ordered[i] != ordered[j]
    {
      assert expected[i] != expected[j];
    }
    forall i, j | 0 <= i < j < |resources|
      ensures resources[i] != resources[j]
    {
      assert Ids(resources)[i] != Ids(resources)[j];
    }
    DistinctSameLength(ordered, resources);
  }

  /** The answer does not depend on the order the results came in. */
  lemma AggregationIgnoresOrder(structure: ContentStructure, a: seq<ResourceResolution>, b: seq<ResourceResolution>)
    requires multiset(a) == multiset(b)
    ensures Aggregated(structure, a) == Aggregated(structure, b)
  {
    OrderIgnoresOrder(structure, a, b);
  }

  lemma OrderIgnoresOrder(structure: ContentStructure, a: seq<ResourceResolution>, b: seq<ResourceResolution>)
    requires multiset(a) == multiset(b)
    ensures Order(structure, a) == Order(structure, b)
  {
    hide Lookup, Ids, Distinct;
    SameLength(a, b);
    IdsOfPermutation(a, b);
    SameElementsSameDistinctness(Ids(a), Ids(b));
    forall id
      ensures id in Ids(a) <==> id in Ids(b)
    {
      assert id in Ids(a) <==> id in multiset(Ids(a));
      assert id in Ids(b) <==> id in multiset(Ids(b));
    }
    var expected := ResourceIds(structure);
    if Order(structure, a).Ok? {
      forall i | 0 <= i < |expected|
        ensures Lookup(a, expected[i]) == Lookup(b, expected[i])
      {
        assert expected[i] in expected;
        SameLookup(a, b, expected[i]);
      }
      assert Order(structure, b).Ok?;
      assert Order(structure, a).value == Order(structure, b).value;
    }
  }

  lemma SameLookup(a: seq<ResourceResolution>, b: seq<ResourceResolution>, id: Uuid)
    requires multiset(a) == multiset(b) && Distinct(Ids(b)) && id in Ids(a) && id in Ids(b)
    ensures Lookup(a, id) == Lookup(b, id)
  {
    hide Lookup;
    var found := Lookup(a, id);
    assert found in multiset(a);
    assert found in b;
    var k :| 0 <= k < |b| && b[k] == found;
    LookupIsTheEntry(b, k);
  }

  lemma IdsOfPermutation(a: seq<ResourceResolution>, b: seq<ResourceResolution>)
    requires multiset(a) == multiset(b)
    ensures multiset(Ids(a)) == multiset(Ids(b))
  {
    var id := (r: ResourceResolution) => r.resource;
    MapOfPermutation(id, a, b);
    assert Ids(a) == Map(id, a) && Ids(b) == Map(id, b);
  }

  ghost predicate SameResult(a: seq<ResourceResolution>, b: seq<ResourceResolution>, id: Uuid) {
    id in Ids(a) && id in Ids(b) && Lookup(a, id) == Lookup(b, id)
  }

  /** Optional members cannot change the availability: the required results alone decide it. */
  lemma OptionalStatesAreIrrelevant(structure: ContentStructure, a: seq<ResourceResolution>, b: seq<ResourceResolution>)
    requires Aggregated(structure, a).Ok? && Aggregated(structure, b).Ok?
    requires forall id :: id in ResourceIds(structure) && IsRequired(structure, id) ==> SameResult(a, b, id)
    ensures Aggregated(structure, a).value.availability == Aggregated(structure, b).value.availability
  {
    hide Order, Lookup, IsRequired, IssuesOf, MissingOf, SomeRequired, SomeRequiredOnline, SameResult;
    var x, y := Order(structure, a).value, Order(structure, b).value;
    OrderedRequiredEntries(structure, a, b);
    SameRequiredSameDescription(structure, x, y);
    SequencesAreRequired(structure, x, y);
  }

  lemma OrderedRequiredEntries(structure: ContentStructure, a: seq<ResourceResolution>, b: seq<ResourceResolution>)
    requires Order(structure, a).Ok? && Order(structure, b).Ok?
    requires forall id :: id in ResourceIds(structure) && IsRequired(structure, id) ==> SameResult(a, b, id)
    ensures var x, y, expected := Order(structure, a).value, Order(structure, b).value, ResourceIds(structure);
      && |x| == |y| == |expected|
      && forall i :: 0 <= i < |expected| ==>
           x[i].resource == y[i].resource && (IsRequired(structure, x[i].resource) ==> x[i] == y[i])
  {
    hide Lookup, IsRequired, Distinct;
    var expected := ResourceIds(structure);
    forall i | 0 <= i < |expected|
      ensures Lookup(a, expected[i]).resource == Lookup(b, expected[i]).resource == expected[i]
      ensures IsRequired(structure, expected[i]) ==> Lookup(a, expected[i]) == Lookup(b, expected[i])
    {
      assert expected[i] in expected;
      assert IsRequired(structure, expected[i]) ==> SameResult(a, b, expected[i]);
    }
  }

  lemma SequencesAreRequired(structure: ContentStructure, x: seq<ResourceResolution>, y: seq<ResourceResolution>)
    requires |x| == |y| == |ResourceIds(structure)|
    requires forall i :: 0 <= i < |x| && IsRequired(structure, x[i].resource) ==> x[i] == y[i]
    ensures MissingOf(structure, x) == MissingOf(structure, y)
  {
    if structure.ImageSequence? {
      assert x == y;
    }
  }

  lemma SameRequiredSameDescription(structure: ContentStructure, x: seq<ResourceResolution>, y: seq<ResourceResolution>)
    requires |x| == |y| && forall i :: 0 <= i < |x| ==> x[i].resource == y[i].resource
    requires forall i :: 0 <= i < |x| && IsRequired(structure, x[i].resource) ==> x[i] == y[i]
    ensures forall state :: SomeRequired(structure, x, state) <==> SomeRequired(structure, y, state)
    ensures SomeRequiredOnline(structure, x) <==> SomeRequiredOnline(structure, y)
  {
    hide IsRequired;
    forall state
      ensures SomeRequired(structure, x, state) <==> SomeRequired(structure, y, state)
    {
      if i :| 0 <= i < |x| && x[i].state == state && IsRequired(structure, x[i].resource) {
        assert y[i] == x[i];
      }
      if i :| 0 <= i < |y| && y[i].state == state && IsRequired(structure, y[i].resource) {
        assert y[i] == x[i];
      }
    }
    if i :| 0 <= i < |x| && x[i].state.IsOnline() && IsRequired(structure, x[i].resource) {
      assert y[i] == x[i];
    }
    if i :| 0 <= i < |y| && y[i].state.IsOnline() && IsRequired(structure, y[i].resource) {
      assert y[i] == x[i];
    }
  }

  predicate HasRequiredIssue(issues: seq<Issue>) {
    exists k :: 0 <= k < |issues| && issues[k].required
  }

  predicate SomeRequiredNotOnline(structure: ContentStructure, resources: seq<ResourceResolution>) {
    exists i :: 0 <= i < |resources| && !resources[i].state.IsOnline() && IsRequired(structure, resources[i].resource)
  }

  lemma RequiredIssueInEither(a: seq<Issue>, b: seq<Issue>)
    ensures HasRequiredIssue(a + b) <==> HasRequiredIssue(a) || HasRequiredIssue(b)
  {
    if k :| 0 <= k < |a| && a[k].required {
      assert (a + b)[k].required;
    }
    if k :| 0 <= k < |b| && b[k].required {
      assert (a + b)[|a| + k].required;
    }
  }

  lemma NotOnlineInEither(structure: ContentStructure, a: seq<ResourceResolution>, b: seq<ResourceResolution>)
    ensures SomeRequiredNotOnline(structure, a + b)
       <==> SomeRequiredNotOnline(structure, a) || SomeRequiredNotOnline(structure, b)
  {
    hide IsRequired;
    if i :| 0 <= i < |a| && !a[i].state.IsOnline() && IsRequired(structure, a[i].resource) {
      assert (a + b)[i] == a[i];
    }
    if i :| 0 <= i < |b| && !b[i].state.IsOnline() && IsRequired(structure, b[i].resource) {
      assert (a + b)[|a| + i] == b[i];
    }
  }

  lemma IssueOfOne(structure: ContentStructure, resource: ResourceResolution)
    ensures HasRequiredIssue(IssueOf(structure, resource)) <==> SomeRequiredNotOnline(structure, [resource])
  {
    hide IsRequired;
    assert !resource.state.IsOnline() ==>
      IssueOf(structure, resource)[0].required == IsRequired(structure, [resource][0].resource);
  }

  lemma {:induction false} RequiredResourceIssues(structure: ContentStructure, resources: seq<ResourceResolution>)
    ensures HasRequiredIssue(ResourceIssues(structure, resources)) <==> SomeRequiredNotOnline(structure, resources)
  {
    hide IsRequired, IssueOf, HasRequiredIssue, SomeRequiredNotOnline;
    if resources == [] {
      NothingRequired(structure);
    } else {
      var front, last := resources[..|resources| - 1], resources[|resources| - 1];
      RequiredResourceIssues(structure, front);
      RequiredIssueInEither(ResourceIssues(structure, front), IssueOf(structure, last));
      NotOnlineInEither(structure, front, [last]);
      IssueOfOne(structure, last);
      assert resources == front + [last];
    }
  }

  lemma NothingRequired(structure: ContentStructure)
    ensures !HasRequiredIssue([]) && !SomeRequiredNotOnline(structure, [])
  {}

  /** The representation is online exactly when no diagnostic is about required content. */
  lemma OnlineExactlyWithoutRequiredIssues(structure: ContentStructure, resources: seq<ResourceResolution>)
    requires Aggregated(structure, resources).Ok?
    ensures var r := Aggregated(structure, resources).value;
      r.availability == AllOnline <==> forall k :: 0 <= k < |r.issues| ==> !r.issues[k].required
  {
    hide Lookup, IsRequired, ResourceIssues;
    var ordered := Order(structure, resources).value;
    RequiredStates(structure, resources);
    RequiredIssues(structure, ordered);
  }

  lemma RequiredIssues(structure: ContentStructure, resources: seq<ResourceResolution>)
    ensures HasRequiredIssue(IssuesOf(structure, resources))
       <==> MissingOf(structure, resources) != [] || SomeRequiredNotOnline(structure, resources)
  {
    hide IsRequired, ResourceIssues, Lookup, HasRequiredIssue, SomeRequiredNotOnline;
    RequiredResourceIssues(structure, resources);
    var missing := MissingOf(structure, resources);
    var own := ResourceIssues(structure, resources);
    if missing != [] {
      var found := [Issue(structure.descriptor.resource, true, MissingFrames, missing)];
      RequiredIssueInEither(own, found);
      assert HasRequiredIssue(found) by { RequiredOne(found); }
    } else {
      assert IssuesOf(structure, resources) == own;
    }
  }

  lemma RequiredOne(issues: seq<Issue>)
    requires |issues| == 1 && issues[0].required
    ensures HasRequiredIssue(issues)
  {}

  /** Some required resource has a result, and its state is one of the four kinds. */
  lemma RequiredStates(structure: ContentStructure, resources: seq<ResourceResolution>)
    requires Order(structure, resources).Ok?
    ensures var ordered := Order(structure, resources).value;
      && (exists i :: 0 <= i < |ordered| && IsRequired(structure, ordered[i].resource))
      && (SomeRequiredNotOnline(structure, ordered)
          <==> SomeRequired(structure, ordered, Offline) || SomeRequired(structure, ordered, Ambiguous)
               || SomeRequired(structure, ordered, Error))
  {
    var ordered, expected := Order(structure, resources).value, ResourceIds(structure);
    SomeResourceIsRequired(structure);
    var i :| 0 <= i < |expected| && IsRequired(structure, expected[i]);
    assert ordered[i].resource == expected[i];
  }

  /** Without a required error or ambiguity, offline means that every required resource is offline. */
  lemma OfflineExactlyWhenAllRequiredOffline(structure: ContentStructure, resources: seq<ResourceResolution>)
    requires Aggregated(structure, resources).Ok?
    ensures var r := Aggregated(structure, resources).value;
      !SomeRequired(structure, r.resources, Error) && !SomeRequired(structure, r.resources, Ambiguous) ==>
        (r.availability == AllOffline
         <==> forall i :: 0 <= i < |r.resources| && IsRequired(structure, r.resources[i].resource)
                ==> r.resources[i].state == Offline)
  {
    hide IsRequired, MissingOf, IssuesOf, Lookup;
    RequiredStates(structure, resources);
  }

  // ---- The description said about the caller's results ----

  /** Some needed resource has a result in the state. */
  ghost predicate SomeNeeded(structure: ContentStructure, resources: seq<ResourceResolution>, state: ResourceState) {
    exists r :: r in resources && r.state == state && Needs(structure, r.resource)
  }

  /** Some needed resource was found, in one of the three ways. */
  ghost predicate SomeNeededFound(structure: ContentStructure, resources: seq<ResourceResolution>) {
    || SomeNeeded(structure, resources, OnlineAtKnownLocator)
    || SomeNeeded(structure, resources, ResolvedExact)
    || SomeNeeded(structure, resources, ResolvedProbable)
  }

  /** The frame belongs to an image sequence and is known missing or was observed missing. */
  ghost predicate IsAbsent(structure: ContentStructure, resources: seq<ResourceResolution>, frame: I64) {
    && structure.ImageSequence?
    && (frame in structure.descriptor.knownMissing || exists r :: r in resources && frame in r.missingFrames)
  }

  lemma MissingIsAbsent(structure: ContentStructure, resources: seq<ResourceResolution>, frame: I64)
    requires Order(structure, resources).Ok?
    ensures frame in MissingOf(structure, Order(structure, resources).value) <==> IsAbsent(structure, resources, frame)
  {
    var ordered := Order(structure, resources).value;
    OrderKeepsResults(structure, resources);
    if structure.ImageSequence? {
      SameLength(ordered, resources);
      assert ordered[0] in multiset(resources) && resources[0] in multiset(ordered);
      assert ordered == resources == [resources[0]];
      assert Ids(ordered)[0] == structure.descriptor.resource;
    }
  }

  lemma NeededInEither(structure: ContentStructure, resources: seq<ResourceResolution>, state: ResourceState)
    requires Order(structure, resources).Ok?
    ensures SomeRequired(structure, Order(structure, resources).value, state)
       <==> SomeNeeded(structure, resources, state)
  {
    var ordered := Order(structure, resources).value;
    OrderKeepsResults(structure, resources);
    hide IsRequired, Needs, Order, Lookup;
    forall r
      ensures r in ordered <==> r in resources
    {
      assert r in multiset(ordered) <==> r in multiset(resources);
    }
    forall i | 0 <= i < |ordered|
      ensures IsRequired(structure, ordered[i].resource) <==> Needs(structure, ordered[i].resource)
    {
      assert Ids(ordered)[i] in ResourceIds(structure);
      RequiredExactly(structure, ordered[i].resource);
    }
  }

  /**
   * The availability by the caller's results: a needed error comes first, a needed ambiguity second; then
   * nothing found is offline, and something found is partial exactly when a needed resource is offline or a
   * frame of an image sequence is absent.
   */
  lemma AvailabilityIsExact(structure: ContentStructure, resources: seq<ResourceResolution>)
    requires Aggregated(structure, resources).Ok?
    ensures var availability := Aggregated(structure, resources).value.availability;
      var stopped := SomeNeeded(structure, resources, Error) || SomeNeeded(structure, resources, Ambiguous);
      var incomplete := || SomeNeeded(structure, resources, Offline)
                        || exists frame :: IsAbsent(structure, resources, frame);
      && (availability == Failed <==> SomeNeeded(structure, resources, Error))
      && (availability == SomeAmbiguous
          <==> SomeNeeded(structure, resources, Ambiguous) && !SomeNeeded(structure, resources, Error))
      && (availability == AllOffline <==> !stopped && !SomeNeededFound(structure, resources))
      && (availability == Partial <==> !stopped && SomeNeededFound(structure, resources) && incomplete)
      && (availability == AllOnline <==> !stopped && SomeNeededFound(structure, resources) && !incomplete)
  {
    var ordered := Order(structure, resources).value;
    NeededInEither(structure, resources, Error);
    NeededInEither(structure, resources, Ambiguous);
    NeededInEither(structure, resources, Offline);
    NeededInEither(structure, resources, OnlineAtKnownLocator);
    NeededInEither(structure, resources, ResolvedExact);
    NeededInEither(structure, resources, ResolvedProbable);
    OnlineInOneWay(structure, ordered);
    AbsentIsMissing(structure, resources);
    hide SomeNeeded, SomeRequired, SomeRequiredOnline, IsAbsent, MissingOf, IssuesOf, Order;
  }

  lemma OnlineInOneWay(structure: ContentStructure, resources: seq<ResourceResolution>)
    ensures SomeRequiredOnline(structure, resources)
       <==> SomeRequired(structure, resources, OnlineAtKnownLocator)
            || SomeRequired(structure, resources, ResolvedExact) || SomeRequired(structure, resources, ResolvedProbable)
  {
    hide IsRequired;
  }

  lemma AbsentIsMissing(structure: ContentStructure, resources: seq<ResourceResolution>)
    requires Order(structure, resources).Ok?
    ensures (exists frame :: IsAbsent(structure, resources, frame))
       <==> MissingOf(structure, Order(structure, resources).value) != []
  {
    hide Order, IsAbsent, MissingOf;
    var missing := MissingOf(structure, Order(structure, resources).value);
    if missing != [] {
      assert missing[0] in missing;
      MissingIsAbsent(structure, resources, missing[0]);
    }
    if frame :| IsAbsent(structure, resources, frame) {
      MissingIsAbsent(structure, resources, frame);
    }
  }

  /** The diagnostic says what the result was: its resource, whether it is needed, and the kind for the state. */
  ghost predicate Reports(structure: ContentStructure, r: ResourceResolution, issue: Issue) {
    && issue.resource == r.resource
    && (issue.required <==> Needs(structure, r.resource))
    && issue.frames == []
    && (r.state == Offline <==> issue.kind == OfflineResource)
    && (r.state == Ambiguous <==> issue.kind == AmbiguousResource)
    && (r.state == Error <==> issue.kind == ResourceError)
    && issue.kind != MissingFrames
  }

  /** The diagnostics report the results that are not online, one each, in the order of the results. */
  ghost predicate ReportsAll(structure: ContentStructure, results: seq<ResourceResolution>, issues: seq<Issue>) {
    if results == [] then
      issues == []
    else
      var front, last := results[..|results| - 1], results[|results| - 1];
      if IsUnavailable(last.state) then
        && issues != []
        && Reports(structure, last, issues[|issues| - 1])
        && ReportsAll(structure, front, issues[..|issues| - 1])
      else
        ReportsAll(structure, front, issues)
  }

  predicate IsUnavailable(state: ResourceState) {
    state in {Offline, Ambiguous, Error}
  }

  lemma IssueReports(structure: ContentStructure, r: ResourceResolution)
    requires r.resource in ResourceIds(structure)
    ensures |IssueOf(structure, r)| == if IsUnavailable(r.state) then 1 else 0
    ensures IsUnavailable(r.state) ==> Reports(structure, r, IssueOf(structure, r)[0])
  {
    hide IsRequired, Needs, ResourceIds;
    RequiredExactly(structure, r.resource);
  }

  lemma {:induction false} ResourceIssuesReport(structure: ContentStructure, results: seq<ResourceResolution>)
    requires forall i :: 0 <= i < |results| ==> results[i].resource in ResourceIds(structure)
    ensures ReportsAll(structure, results, ResourceIssues(structure, results))
  {
    hide IssueOf, Reports, IsUnavailable, ResourceIds;
    if results != [] {
      var front, last := results[..|results| - 1], results[|results| - 1];
      ResourceIssuesReport(structure, front);
      IssueReports(structure, last);
      Appended(ResourceIssues(structure, front), IssueOf(structure, last));
    }
  }

  lemma Appended(earlier: seq<Issue>, last: seq<Issue>)
    ensures |last| == 0 ==> earlier + last == earlier
    ensures |last| == 1 ==> (earlier + last)[..|earlier + last| - 1] == earlier
    ensures |last| == 1 ==> earlier + last != [] && (earlier + last)[|earlier + last| - 1] == last[0]
  {}

  /**
   * The diagnostics report the results that are not online in structural order, and after them an image
   * sequence with an absent frame has one diagnostic that lists exactly the absent frames, ascending.
   */
  lemma IssuesAreExact(structure: ContentStructure, resources: seq<ResourceResolution>)
    requires Aggregated(structure, resources).Ok?
    ensures var issues := Aggregated(structure, resources).value.issues;
      var ordered := Aggregated(structure, resources).value.resources;
      if exists frame :: IsAbsent(structure, resources, frame) then
        && issues != []
        && ReportsAll(structure, ordered, issues[..|issues| - 1])
        && ListsAbsent(structure, resources, issues[|issues| - 1])
      else
        ReportsAll(structure, ordered, issues)
  {
    var ordered := Order(structure, resources).value;
    OrderKeepsResults(structure, resources);
    forall i | 0 <= i < |ordered|
      ensures ordered[i].resource in ResourceIds(structure)
    {
      assert Ids(ordered)[i] in ResourceIds(structure);
    }
    hide Order, IsAbsent, ResourceIssues, ReportsAll, MissingOf;
    ResourceIssuesReport(structure, ordered);
    AbsentIsMissing(structure, resources);
    var own, missing := ResourceIssues(structure, ordered), MissingOf(structure, ordered);
    if missing != [] {
      var found := Issue(structure.descriptor.resource, true, MissingFrames, missing);
      Appended(own, [found]);
      MissingIsListed(structure, resources);
    } else {
      Appended(own, []);
    }
  }

  lemma MissingIsListed(structure: ContentStructure, resources: seq<ResourceResolution>)
    requires Order(structure, resources).Ok? && structure.ImageSequence?
    ensures var missing := MissingOf(structure, Order(structure, resources).value);
      ListsAbsent(structure, resources, Issue(structure.descriptor.resource, true, MissingFrames, missing))
  {
    hide Order, IsAbsent, Lookup, Ids;
    var missing := MissingOf(structure, Order(structure, resources).value);
    forall frame: I64
      ensures frame in missing <==> IsAbsent(structure, resources, frame)
    {
      MissingIsAbsent(structure, resources, frame);
    }
  }

  /** A required diagnostic of the sequence's resource with exactly the absent frames, ascending. */
  ghost predicate ListsAbsent(structure: ContentStructure, resources: seq<ResourceResolution>, issue: Issue) {
    && structure.ImageSequence?
    && issue.resource == structure.descriptor.resource
    && issue.required
    && issue.kind == MissingFrames
    && (forall frame :: frame in issue.frames <==> IsAbsent(structure, resources, frame))
    && (forall i, j :: 0 <= i < j < |issue.frames| ==> issue.frames[i] < issue.frames[j])
  }
}
