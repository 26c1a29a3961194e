/**
 * The append-only revision journal and its pages
 * (crates/postproject-core/src/revision.rs, crates/postproject-storage-sqlite/src/lib.rs).
 */
module Revisions {
  import opened Machine

  /** Payload-free discriminants of the semantic events. */
  datatype EventType =
    | AssetImported | RepresentationAdded | ResourceAdded | RepresentationResourceAdded
    | LocatorAdded | LocatorRetired | MediaRootAdded | MediaRootEnabledChanged | MediaRootRemoved
    | ExternalIdentifierAdded | ExternalIdentifierRemoved | MetadataAddedOrReplaced | MetadataRemoved
    | ActivityCreated | ActivityInputAdded | ActivityOutputAdded
    | ResourceFingerprintObserved | RepresentationFingerprintObserved | DependencySetRecorded
    | JobRequested | JobClaimed | JobClaimRenewed | JobClaimReleased | JobSucceeded | JobFailed | JobCancelled

  datatype Revision = Revision(sequence: nat, events: seq<EventType>)

  type Journal = seq<Revision>

  /** Sequences are positive, fit the stored type, and ascend strictly. */
  ghost predicate ValidJournal(j: Journal) {
    && (forall i :: 0 <= i < |j| ==> 1 <= j[i].sequence <= I64_MAX)
    && forall i, k :: 0 <= i < k < |j| ==> j[i].sequence < j[k].sequence
  }

  /** `coalesce(max(sequence), 0)`. */
  function Latest(j: Journal): nat {
    if j == [] then 0 else j[|j| - 1].sequence
  }

  /** A commit appends one revision with the next sequence. */
  function Commit(j: Journal, events: seq<EventType>): Journal {
    if Latest(j) < I64_MAX then j + [Revision(Latest(j) + 1, events)] else j
  }

  function CommitAll(j: Journal, commits: seq<seq<EventType>>): Journal {
    if commits == [] then j else Commit(CommitAll(j, commits[..|commits| - 1]), commits[|commits| - 1])
  }

  lemma {:induction false} CommitsExtend(j: Journal, commits: seq<seq<EventType>>)
    requires ValidJournal(j)
    ensures ValidJournal(CommitAll(j, commits)) && j <= CommitAll(j, commits)
  {
    hide ValidJournal, Commit;
    if commits != [] {
      CommitsExtend(j, commits[..|commits| - 1]);
      CommitExtends(CommitAll(j, commits[..|commits| - 1]), commits[|commits| - 1]);
    }
  }

  lemma CommitExtends(j: Journal, events: seq<EventType>)
    requires ValidJournal(j)
    ensures ValidJournal(Commit(j, events)) && j <= Commit(j, events)
  {}

  /** Every commit stores one revision with exactly its events and the next sequence. */
  lemma {:induction false} CommitsAreStored(j: Journal, commits: seq<seq<EventType>>)
    requires ValidJournal(j) && Latest(j) + |commits| <= I64_MAX
    ensures var stored := CommitAll(j, commits);
      && |stored| == |j| + |commits| && stored[..|j|] == j
      && Latest(stored) == Latest(j) + |commits|
      && forall i :: 0 <= i < |commits| ==>
           stored[|j| + i].events == commits[i] && stored[|j| + i].sequence == Latest(j) + 1 + i
  {
    hide ValidJournal;
    if commits != [] {
      var n := |commits| - 1;
      var before := CommitAll(j, commits[..n]);
      CommitsAreStored(j, commits[..n]);
      var stored := CommitAll(j, commits);
      assert stored[..|before|] == before && |stored| == |before| + 1;
      assert stored[|j| + n].events == commits[n] && stored[|j| + n].sequence == Latest(j) + 1 + n;
      forall i | 0 <= i < n
        ensures stored[|j| + i].events == commits[i] && stored[|j| + i].sequence == Latest(j) + 1 + i
      {
        assert stored[|j| + i] == before[|j| + i];
      }
    }
  }

  // ---- Selections ----

  /** Whether a revision is delivered: with no kinds everything is. */
  predicate Matches(kinds: set<EventType>, r: Revision) {
    kinds == {} || exists k :: k in kinds && k in r.events
  }

  /** The matching revisions with low < sequence <= high, in journal order. */
  function Between(j: Journal, kinds: set<EventType>, low: nat, high: nat): seq<Revision> {
    if j == [] then
      []
    else
      var last := j[|j| - 1];
      Between(j[..|j| - 1], kinds, low, high)
      + if low < last.sequence <= high && Matches(kinds, last) then [last] else []
  }

  /** All matching revisions after a sequence. */
  function After(j: Journal, kinds: set<EventType>, sequence: nat): seq<Revision> {
    Between(j, kinds, sequence, I64_MAX)
  }

  function Take(s: seq<Revision>, limit: nat): seq<Revision> {
    if |s| <= limit then s else s[..limit]
  }

  // ---- Pages, as storage computes them ----

  /** `changes_since`, and the page a wait returns. */
  function ChangesSince(j: Journal, sequence: U64, limit: nat): seq<Revision> {
    if sequence > I64_MAX then [] else Take(After(j, {}, sequence), limit)
  }

  datatype FilteredPage = FilteredPage(revisions: seq<Revision>, through: nat)

  /** One bounded key range: the first rows of one event kind. */
  function KindBranch(j: Journal, sequence: nat, kind: EventType, limit: nat): seq<Revision> {
    Take(After(j, {kind}, sequence), limit)
  }

  predicate InSomeBranch(j: Journal, r: Revision, sequence: nat, kinds: set<EventType>, limit: nat) {
    exists kind :: kind in kinds && r in KindBranch(j, sequence, kind, limit)
  }

  /** The rows of `rows` whose sequence occurs in the union of the branches over the journal. */
  function UnionRows(j: Journal, rows: Journal, sequence: nat, kinds: set<EventType>, limit: nat): seq<Revision> {
    if rows == [] then
      []
    else
      var last := rows[|rows| - 1];
      UnionRows(j, rows[..|rows| - 1], sequence, kinds, limit)
      + if InSomeBranch(j, last, sequence, kinds, limit) then [last] else []
  }

  /** `changes_since_filtered`: the union of bounded branches, ordered and limited again. */
  function ChangesSinceFiltered(j: Journal, sequence: U64, kinds: set<EventType>, limit: nat): FilteredPage {
    if sequence > I64_MAX then
      FilteredPage([], sequence)
    else
      var revisions := Take(UnionRows(j, j, sequence, kinds, limit), limit);
      if revisions != [] && |revisions| == limit then
        FilteredPage(revisions, revisions[|revisions| - 1].sequence)
      else
        FilteredPage(revisions, if Latest(j) > sequence then Latest(j) else sequence)
  }

  /** What `FilteredRevisionPage::new` checks. */
  predicate PageIsAccepted(page: FilteredPage) {
    && (forall i :: 0 <= i < |page.revisions| - 1 ==> page.revisions[i].sequence < page.revisions[i + 1].sequence)
    && (page.revisions != [] ==> page.revisions[|page.revisions| - 1].sequence <= page.through)
  }

  // ---- Facts about selections ----

  lemma PrefixIsValid(j: Journal, n: nat)
    requires ValidJournal(j) && n <= |j|
    ensures ValidJournal(j[..n])
    ensures n > 0 ==> Latest(j[..n]) == j[n - 1].sequence
    ensures n < |j| ==> Latest(j[..n]) < j[n].sequence
  {}

  lemma {:induction false} BetweenMembers(j: Journal, kinds: set<EventType>, low: nat, high: nat)
    ensures forall r :: r in Between(j, kinds, low, high)
              <==> r in j && low < r.sequence <= high && Matches(kinds, r)
  {
    hide Matches;
    if j != [] {
      BetweenMembers(j[..|j| - 1], kinds, low, high);
      assert j == j[..|j| - 1] + [j[|j| - 1]];
    }
  }

  lemma {:induction false} BetweenAscends(j: Journal, kinds: set<EventType>, low: nat, high: nat)
    requires ValidJournal(j)
    ensures ValidJournal(Between(j, kinds, low, high))
    ensures Latest(Between(j, kinds, low, high)) <= Latest(j)
  {
    if j != [] {
      hide Matches, ValidJournal;
      var front, last := j[..|j| - 1], j[|j| - 1];
      PrefixIsValid(j, |j| - 1);
      BetweenAscends(front, kinds, low, high);
      AppendIsValid(Between(front, kinds, low, high), j);
    }
  }

  lemma AppendIsValid(before: Journal, j: Journal)
    requires ValidJournal(before) && ValidJournal(j) && j != [] && Latest(before) <= Latest(j[..|j| - 1])
    ensures ValidJournal(before + [j[|j| - 1]]) && Latest(before) <= Latest(j)
  {
    PrefixIsValid(j, |j| - 1);
  }

  /** Nothing lies above the newest revision. */
  lemma {:induction false} NothingAboveLatest(j: Journal, kinds: set<EventType>, low: nat, high: nat)
    requires ValidJournal(j)
    ensures low >= Latest(j) ==> Between(j, kinds, low, high) == []
    ensures high >= Latest(j) ==> Between(j, kinds, low, high) == After(j, kinds, low)
  {
    hide Matches;
    if j != [] {
      PrefixIsValid(j, |j| - 1);
      NothingAboveLatest(j[..|j| - 1], kinds, low, high);
    }
  }

  /** Adjacent ranges concatenate. */
  lemma {:induction false} BetweenConcatenates(j: Journal, kinds: set<EventType>, low: nat, middle: nat, high: nat)
    requires ValidJournal(j) && low <= middle <= high
    ensures Between(j, kinds, low, high) == Between(j, kinds, low, middle) + Between(j, kinds, middle, high)
  {
    hide Matches, ValidJournal;
    if j != [] {
      var front, last := j[..|j| - 1], j[|j| - 1];
      PrefixIsValid(j, |j| - 1);
      BetweenConcatenates(front, kinds, low, middle, high);
      var early, late := Between(front, kinds, low, middle), Between(front, kinds, middle, high);
      if last.sequence <= middle {
        NothingAboveLatest(front, kinds, middle, high);
        assert Between(j, kinds, middle, high) == [];
      } else {
        assert (early + late) + [last] == early + (late + [last]);
        assert Between(j, kinds, low, middle) == early;
      }
    }
  }

  /** Later commits leave the delivered past alone and only extend what is still to come. */
  lemma {:induction false} ExtensionKeepsPast(j: Journal, longer: Journal, kinds: set<EventType>, low: nat, high: nat)
    requires ValidJournal(longer) && j <= longer
    ensures ValidJournal(j) && Latest(j) <= Latest(longer)
    ensures high <= Latest(j) ==> Between(longer, kinds, low, high) == Between(j, kinds, low, high)
    ensures Between(j, kinds, low, high) <= Between(longer, kinds, low, high)
    decreases |longer|
  {
    hide Matches;
    PrefixIsValid(longer, |j|);
    if j == longer {
    } else {
      var front := longer[..|longer| - 1];
      PrefixIsValid(longer, |longer| - 1);
      assert j <= front;
      ExtensionKeepsPast(j, front, kinds, low, high);
    }
  }

  /** Cutting the revisions to come after the n-th one. */
  lemma {:induction false} CutAfter(j: Journal, kinds: set<EventType>, cursor: nat, n: nat)
    requires ValidJournal(j) && 0 < n <= |After(j, kinds, cursor)|
    ensures var rest, s := After(j, kinds, cursor), After(j, kinds, cursor)[n - 1].sequence;
      && cursor < s <= Latest(j)
      && Between(j, kinds, cursor, s) == rest[..n]
      && After(j, kinds, s) == rest[n..]
  {
    hide Matches, ValidJournal;
    var front, last := j[..|j| - 1], j[|j| - 1];
    var rest, before := After(j, kinds, cursor), After(front, kinds, cursor);
    PrefixIsValid(j, |j| - 1);
    var s := rest[n - 1].sequence;
    if n <= |before| {
      CutAfter(front, kinds, cursor, n);
      assert rest[..n] == before[..n];
    } else {
      NothingAboveLatest(front, kinds, cursor, last.sequence);
      NothingAboveLatest(j, kinds, last.sequence, I64_MAX);
      assert rest == before + [last] && s == last.sequence;
      assert rest[..n] == rest && rest[n..] == [];
    }
  }

  // ---- The bounded union is the plain filter ----

  lemma {:induction false} OneKindIsFewer(j: Journal, sequence: nat, kinds: set<EventType>, kind: EventType)
    requires kind in kinds
    ensures |After(j, {kind}, sequence)| <= |After(j, kinds, sequence)|
  {
    if j != [] {
      OneKindIsFewer(j[..|j| - 1], sequence, kinds, kind);
      var last := j[|j| - 1];
      if Matches({kind}, last) {
        var k :| k in {kind} && k in last.events;
        assert kind in kinds && kind in last.events;
      }
    }
  }

  /** A revision with fewer than a page of its kind before it is in that kind's branch. */
  lemma EarlyRevisionIsInBranch(j: Journal, i: nat, sequence: nat, kinds: set<EventType>, kind: EventType, limit: nat)
    requires ValidJournal(j) && i < |j| && kind in kinds && kind in j[i].events && sequence < j[i].sequence
    requires |After(j[..i], {kind}, sequence)| < limit
    ensures InSomeBranch(j, j[i], sequence, kinds, limit)
  {
    var branch, before := After(j, {kind}, sequence), After(j[..i], {kind}, sequence);
    assert After(j[..i + 1], {kind}, sequence) == before + [j[i]] by {
      assert kind in {kind} && j[..i + 1][..i] == j[..i];
    }
    ExtensionKeepsPast(j[..i + 1], j, {kind}, sequence, I64_MAX);
    assert branch[|before|] == j[i];
    assert Take(branch, limit)[|before|] == j[i];
    assert j[i] in KindBranch(j, sequence, kind, limit);
  }

  /** A matching revision missing from every branch comes after a full page of matching ones. */
  lemma MissingFromBranches(j: Journal, i: nat, sequence: nat, kinds: set<EventType>, limit: nat)
    requires ValidJournal(j) && i < |j| && kinds != {}
    requires sequence < j[i].sequence && Matches(kinds, j[i])
    requires !InSomeBranch(j, j[i], sequence, kinds, limit)
    ensures |After(j[..i], kinds, sequence)| >= limit
  {
    hide InSomeBranch, After;
    var kind :| kind in kinds && kind in j[i].events;
    OneKindIsFewer(j[..i], sequence, kinds, kind);
    if |After(j[..i], {kind}, sequence)| < limit {
      EarlyRevisionIsInBranch(j, i, sequence, kinds, kind, limit);
    }
  }

  /** What a branch returns does match. */
  lemma BranchesMatch(j: Journal, r: Revision, sequence: nat, kinds: set<EventType>, limit: nat)
    requires ValidJournal(j) && InSomeBranch(j, r, sequence, kinds, limit)
    ensures sequence < r.sequence <= I64_MAX && Matches(kinds, r)
  {
    var kind :| kind in kinds && r in KindBranch(j, sequence, kind, limit);
    BetweenMembers(j, {kind}, sequence, I64_MAX);
    assert r in After(j, {kind}, sequence);
    var k :| k in {kind} && k in r.events;
    assert kind in kinds && kind in r.events;
  }

  lemma SameTakeAppended(a: seq<Revision>, b: seq<Revision>, x: Revision, limit: nat)
    requires Take(a, limit) == Take(b, limit)
    ensures Take(a + [x], limit) == Take(b + [x], limit)
  {
    assert |a| <= limit && |b| <= limit ==> a == b;
    if |a| >= limit {
      TakeIgnoresMore(a, x, limit);
      assert |Take(a, limit)| == limit;
      TakeIgnoresMore(b, x, limit);
    }
  }

  lemma TakeIgnoresMore(s: seq<Revision>, x: Revision, limit: nat)
    requires |s| >= limit
    ensures Take(s + [x], limit) == Take(s, limit)
  {
    assert (s + [x])[..limit] == s[..limit];
  }

  lemma {:induction false} UnionRowsAreMatches(j: Journal, n: nat, sequence: nat, kinds: set<EventType>, limit: nat)
    requires ValidJournal(j) && n <= |j| && kinds != {}
    ensures Take(UnionRows(j, j[..n], sequence, kinds, limit), limit) == Take(After(j[..n], kinds, sequence), limit)
  {
    hide Matches, InSomeBranch, Take;
    if n > 0 {
      var rows, last := j[..n], j[n - 1];
      assert rows[..|rows| - 1] == j[..n - 1];
      UnionRowsAreMatches(j, n - 1, sequence, kinds, limit);
      var found, matching := UnionRows(j, j[..n - 1], sequence, kinds, limit), After(j[..n - 1], kinds, sequence);
      if InSomeBranch(j, last, sequence, kinds, limit) {
        BranchesMatch(j, last, sequence, kinds, limit);
        SameTakeAppended(found, matching, last, limit);
      } else if sequence < last.sequence && Matches(kinds, last) {
        MissingFromBranches(j, n - 1, sequence, kinds, limit);
        assert After(j[..n], kinds, sequence) == matching + [last];
        TakeIgnoresMore(matching, last, limit);
        assert UnionRows(j, j[..n], sequence, kinds, limit) == found;
      } else {
        assert After(j[..n], kinds, sequence) == matching;
        assert UnionRows(j, j[..n], sequence, kinds, limit) == found;
      }
    }
  }

  /**
   * A page is exact: it holds the first `limit` matches, which are all the matches up to its through
   * sequence; the through sequence never goes back, stays within the journal, and moves past the
   * requested sequence whenever any newer revision exists.
   */
  ghost predicate PageIsExact(j: Journal, sequence: nat, kinds: set<EventType>, limit: nat, page: FilteredPage) {
    && page.revisions == Take(After(j, kinds, sequence), limit)
    && page.revisions == Between(j, kinds, sequence, page.through)
    && After(j, kinds, page.through) == After(j, kinds, sequence)[|page.revisions|..]
    && sequence <= page.through <= U64_MAX
    && (page.through == sequence || page.through <= Latest(j))
    && (sequence < Latest(j) ==> sequence < page.through)
  }

  lemma FullPageIsExact(j: Journal, sequence: nat, kinds: set<EventType>, limit: nat)
    requires ValidJournal(j) && 0 < limit <= |After(j, kinds, sequence)|
    ensures var rest := After(j, kinds, sequence);
            var page := FilteredPage(rest[..limit], rest[limit - 1].sequence);
            PageIsExact(j, sequence, kinds, limit, page) && PageIsAccepted(page)
  {
    hide Between;
    BetweenAscends(j, kinds, sequence, I64_MAX);
    CutAfter(j, kinds, sequence, limit);
    LatestIsStored(j);
  }

  lemma ShortPageIsExact(j: Journal, sequence: U64, kinds: set<EventType>, limit: nat)
    requires ValidJournal(j) && |After(j, kinds, sequence)| < limit
    ensures var rest := After(j, kinds, sequence);
            var page := FilteredPage(rest, if Latest(j) > sequence then Latest(j) else sequence);
            PageIsExact(j, sequence, kinds, limit, page) && PageIsAccepted(page)
  {
    hide Between;
    var through := if Latest(j) > sequence then Latest(j) else sequence;
    BetweenAscends(j, kinds, sequence, I64_MAX);
    NothingAboveLatest(j, kinds, sequence, through);
    NothingAboveLatest(j, kinds, through, I64_MAX);
    LatestIsStored(j);
  }

  lemma LatestIsStored(j: Journal)
    requires ValidJournal(j)
    ensures Latest(j) <= I64_MAX
  {}

  /** The union of bounded branches is an exact page of the plain filter, and storage accepts it. */
  lemma FilteredPageIsExact(j: Journal, sequence: U64, kinds: set<EventType>, limit: nat)
    requires ValidJournal(j) && kinds != {} && limit > 0
    ensures PageIsExact(j, sequence, kinds, limit, ChangesSinceFiltered(j, sequence, kinds, limit))
    ensures PageIsAccepted(ChangesSinceFiltered(j, sequence, kinds, limit))
  {
    hide UnionRows, After, PageIsExact, PageIsAccepted, ValidJournal;
    LatestIsStored(j);
    if sequence <= I64_MAX {
      assert j[..|j|] == j;
      UnionRowsAreMatches(j, |j|, sequence, kinds, limit);
      if |After(j, kinds, sequence)| >= limit {
        assert Take(After(j, kinds, sequence), limit) == After(j, kinds, sequence)[..limit];
        FullPageIsExact(j, sequence, kinds, limit);
      } else {
        ShortPageIsExact(j, sequence, kinds, limit);
      }
    } else {
      NothingIsNewer(j, kinds, sequence);
      ShortPageIsExact(j, sequence, kinds, limit);
    }
  }

  lemma NothingIsNewer(j: Journal, kinds: set<EventType>, sequence: nat)
    requires ValidJournal(j) && Latest(j) <= sequence
    ensures After(j, kinds, sequence) == []
  {
    NothingAboveLatest(j, kinds, sequence, I64_MAX);
  }
}
