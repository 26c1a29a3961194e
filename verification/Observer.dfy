/** The change-feed observer (include/postproject/postproject.hpp, class RevisionObserver). */
module Observer {
  import opened Wrappers
  import opened Machine
  import opened Revisions

  const PAGE_SIZE := 100

  // ---- The environment ----

  /** How a wait ends when it is not cut short: it reads the journal, or one of the other outcomes. */
  datatype WaitChoice = Reads | TimesOut | Closes | Cancels | Throws

  /** What becomes of delivering one revision: its events cannot be loaded, or the callback throws. */
  datatype CallbackChoice = Accepts | EventsThrow | CallbackThrows

  /**
   * One turn of the environment: the commits other processes make before the observer's next atomic
   * interaction, and the choices the environment has in that interaction.
   */
  datatype Turn = Turn(commits: seq<seq<EventType>>, wait: WaitChoice, pageThrows: bool, callback: CallbackChoice)

  /** A turn in which nothing ends the observation. */
  predicate Quiet(t: Turn) {
    t.wait in {Reads, TimesOut} && !t.pageThrows && t.callback == Accepts
  }

  ghost predicate AllQuiet(turns: seq<Turn>) {
    forall i :: 0 <= i < |turns| ==> Quiet(turns[i])
  }

  /** Turns in which nobody commits either and no wait times out early. */
  ghost predicate AllIdle(turns: seq<Turn>) {
    AllQuiet(turns) && forall i :: 0 <= i < |turns| ==> turns[i].commits == [] && turns[i].wait == Reads
  }

  function Least(a: nat, b: nat): nat {
    if a < b then a else b
  }

  /** One turn for every page, the last one being short, and one for every revision. */
  function TurnsToDrain(toCome: nat): nat {
    toCome + toCome / PAGE_SIZE + 1
  }

  lemma TurnsForPage(toCome: nat)
    ensures TurnsToDrain(toCome) > Least(toCome, PAGE_SIZE)
    ensures toCome >= PAGE_SIZE ==> TurnsToDrain(toCome) == PAGE_SIZE + 1 + TurnsToDrain(toCome - PAGE_SIZE)
  {}

  lemma IdleIsQuiet(turns: seq<Turn>)
    ensures AllIdle(turns) ==> AllQuiet(turns)
  {}

  /** What an interaction that starts with the first schedule and leaves the second keeps. */
  ghost predicate Moves(before: seq<Turn>, after: seq<Turn>) {
    && |after| <= |before|
    && (AllQuiet(before) ==> AllQuiet(after))
    && (AllIdle(before) ==> AllIdle(after))
  }

  // ---- The observer's interactions ----

  datatype Status =
    | Delivered  // the page, or all filtered pages, went out
    | Suspended  // the schedule ends here; the run may go on
    | Stopped    // the waiter was closed or cancelled
    | Failed     // an exception ended the observation

  datatype Kind = Wait | Page | Call

  /** What the observer did in a turn. */
  datatype Interaction = Interaction(kind: Kind, turn: Turn)

  /** What an interaction means for the observation; `Delivered` when it goes on. */
  function Outcome(i: Interaction): Status {
    match i.kind
    case Wait =>
      if i.turn.wait in {Closes, Cancels} then Stopped else if i.turn.wait == Throws then Failed else Delivered
    case Page => if i.turn.pageThrows then Failed else Delivered
    case Call => if i.turn.callback == Accepts then Delivered else Failed
  }

  /** A closed or cancelled wait stops the observation, and whatever throws in an interaction fails it. */
  lemma OutcomeIsExact(i: Interaction)
    ensures Outcome(i) == Stopped <==> i.kind == Wait && (i.turn.wait == Closes || i.turn.wait == Cancels)
    ensures Outcome(i) == Failed <==> || (i.kind == Wait && i.turn.wait == Throws)
                                      || (i.kind == Page && i.turn.pageThrows)
                                      || (i.kind == Call && (i.turn.callback == EventsThrow
                                                             || i.turn.callback == CallbackThrows))
    ensures Outcome(i) != Suspended
  {}

  function Turns(record: seq<Interaction>): seq<Turn> {
    seq(|record|, i requires 0 <= i < |record| => record[i].turn)
  }

  /** How many of the interactions reached the callback. */
  function Calls(record: seq<Interaction>): nat {
    if record == [] then
      0
    else
      var last := record[|record| - 1];
      Calls(record[..|record| - 1]) + if last.kind == Call && last.turn.callback != EventsThrow then 1 else 0
  }

  /** Pages are read and revisions passed on only after a wait that found something. */
  predicate MayDeliver(record: seq<Interaction>) {
    record != [] && (record[|record| - 1].kind == Wait ==> record[|record| - 1].turn.wait == Reads)
  }

  ghost predicate IsOrderly(record: seq<Interaction>) {
    forall i :: 0 <= i < |record| && record[i].kind != Wait ==> MayDeliver(record[..i])
  }

  /** The interactions from one record to a later one all let the observation go on. */
  ghost predicate AllGoOn(before: seq<Interaction>, after: seq<Interaction>) {
    before <= after && forall i :: |before| <= i < |after| ==> Outcome(after[i]) == Delivered
  }

  /** No interaction but the last ends the observation, and the last one ends it exactly as reported. */
  ghost predicate EndsAs(before: seq<Interaction>, after: seq<Interaction>, status: Status) {
    && before <= after
    && (if status in {Stopped, Failed}
        then |before| < |after| && AllGoOn(before, after[..|after| - 1]) && Outcome(after[|after| - 1]) == status
        else AllGoOn(before, after))
  }

  /** The turns taken are the schedule's, in order, and the record of them is orderly. */
  ghost predicate Accounts(before: seq<Interaction>, planned: seq<Turn>, after: seq<Interaction>, left: seq<Turn>) {
    && before <= after && Turns(before) + planned == Turns(after) + left
    && (IsOrderly(before) ==> IsOrderly(after))
  }

  lemma AccountsAgain(a: seq<Interaction>, p: seq<Turn>, b: seq<Interaction>, q: seq<Turn>,
                      c: seq<Interaction>, r: seq<Turn>)
    requires Accounts(a, p, b, q) && Accounts(b, q, c, r)
    ensures Accounts(a, p, c, r)
  {}

  lemma GoOnThenEnd(a: seq<Interaction>, b: seq<Interaction>, c: seq<Interaction>, status: Status)
    requires AllGoOn(a, b) && EndsAs(b, c, status)
    ensures EndsAs(a, c, status)
    ensures status !in {Stopped, Failed} ==> AllGoOn(a, c)
  {}

  lemma NothingRecorded(record: seq<Interaction>, planned: seq<Turn>)
    ensures Accounts(record, planned, record, planned) && AllGoOn(record, record)
  {}

  lemma GoneOn(before: seq<Interaction>, after: seq<Interaction>)
    requires AllGoOn(before, after)
    ensures EndsAs(before, after, Delivered) && EndsAs(before, after, Suspended)
  {}

  lemma EndsDelivered(before: seq<Interaction>, after: seq<Interaction>)
    requires EndsAs(before, after, Delivered)
    ensures AllGoOn(before, after)
  {}

  lemma MayDeliverNow(record: seq<Interaction>, turn: Turn)
    requires turn.wait == Reads
    ensures MayDeliver(record + [Interaction(Wait, turn)])
  {}

  lemma AccountsGrow(a: seq<Interaction>, p: seq<Turn>, b: seq<Interaction>, q: seq<Turn>)
    requires Accounts(a, p, b, q)
    ensures a <= b
  {}

  /** The first interaction is a wait. */
  ghost predicate StartsWithWait(before: seq<Interaction>, after: seq<Interaction>) {
    |after| > |before| ==> after[|before|].kind == Wait
  }

  lemma NothingStarts(record: seq<Interaction>)
    ensures StartsWithWait(record, record)
  {}

  lemma WaitComesFirst(record: seq<Interaction>, turn: Turn)
    ensures StartsWithWait(record, record + [Interaction(Wait, turn)]) && StartsWithWait(record, record)
  {}

  lemma StillStartsWithWait(a: seq<Interaction>, b: seq<Interaction>, c: seq<Interaction>)
    requires StartsWithWait(a, b) && |a| < |b| && b <= c
    ensures StartsWithWait(a, c)
  {}

  lemma RoundsStartWithWait(a: seq<Interaction>, b: seq<Interaction>, c: seq<Interaction>, p: seq<Turn>, q: seq<Turn>)
    requires StartsWithWait(a, b) && StartsWithWait(b, c) && a <= b && Accounts(b, p, c, q)
    ensures StartsWithWait(a, c)
  {}

  lemma OutcomeOfWait(turn: Turn)
    ensures Outcome(Interaction(Wait, turn)) ==
      match turn.wait
      case Throws => Failed
      case Closes => Stopped
      case Cancels => Stopped
      case TimesOut => Delivered
      case Reads => Delivered
  {}

  /** Every call that was made, and nothing else, adds a revision to what was passed on. */
  ghost predicate Passed(d: seq<Revision>, before: seq<Interaction>, delivered: seq<Revision>,
                         after: seq<Interaction>)
  {
    d <= delivered && |delivered| - Calls(after) == |d| - Calls(before)
  }

  lemma NoEnd(record: seq<Interaction>)
    ensures EndsAs(record, record, Suspended) && EndsAs(record, record, Delivered)
  {}

  lemma OneMore(record: seq<Interaction>, planned: seq<Turn>, kind: Kind)
    requires planned != []
    ensures var i := Interaction(kind, planned[0]);
      && (kind == Wait || MayDeliver(record) ==> Accounts(record, planned, record + [i], planned[1..]))
      && EndsAs(record, record + [i], Outcome(i))
      && Calls(record + [i]) == Calls(record) + (if kind == Call && i.turn.callback != EventsThrow then 1 else 0)
  {
    var i := Interaction(kind, planned[0]);
    var after := record + [i];
    assert after[..|record|] == record;
    assert Turns(after) == Turns(record) + [planned[0]];
    assert planned == [planned[0]] + planned[1..];
    if IsOrderly(record) && (kind == Wait || MayDeliver(record)) {
      forall k | 0 <= k < |after| && after[k].kind != Wait
        ensures MayDeliver(after[..k])
      {
        assert k < |record| ==> after[..k] == record[..k];
      }
    }
  }

  /** A wait that ends the observation in the first turn ends it there. */
  lemma EndedAtOnce(before: seq<Interaction>, planned: seq<Turn>, after: seq<Interaction>, left: seq<Turn>,
                    status: Status)
    requires Accounts(before, planned, after, left) && EndsAs(before, after, status) && StartsWithWait(before, after)
    requires status == Suspended ==> left == []
    requires status != Delivered
    ensures planned != [] && planned[0].wait in {Closes, Cancels, Throws} ==>
      && status == (if planned[0].wait == Throws then Failed else Stopped)
      && left == planned[1..] && Calls(after) == Calls(before)
  {
    if planned != [] && planned[0].wait in {Closes, Cancels, Throws} {
      assert |Turns(before) + planned| == |Turns(after) + left|;
      assert |before| < |after|;
      assert after[|before|].turn == (Turns(after) + left)[|before|];
      assert (Turns(before) + planned)[|before|] == planned[0];
      assert Outcome(after[|before|]) != Delivered;
      assert |after| == |before| + 1;
      assert after[..|before|] == before;
      assert left == (Turns(after) + left)[|after|..] == (Turns(before) + planned)[|after|..] == planned[1..];
    }
  }

  /** The shared production. A schedule fixes one interleaving; it may end anywhere in the run. */
  class World {
    var journal: Journal
    var schedule: seq<Turn>
    ghost var record: seq<Interaction>

    ghost predicate Valid()
      reads this
    {
      ValidJournal(journal)
    }

    constructor (journal: Journal, schedule: seq<Turn>)
      requires ValidJournal(journal)
      ensures Valid() && this.journal == journal && this.schedule == schedule && record == []
    {
      this.journal := journal;
      this.schedule := schedule;
      record := [];
    }

    /** The environment moves: other processes commit, then the observer interacts. */
    method Next(ghost kind: Kind) returns (turn: Option<Turn>)
      requires Valid()
      modifies this
      ensures Valid() && old(journal) <= journal
      ensures turn.None? <==> old(schedule) == []
      ensures turn.None? ==> journal == old(journal) && schedule == old(schedule) && record == old(record)
      ensures turn.Some? ==>
        && turn.value == old(schedule)[0] && schedule == old(schedule)[1..]
        && record == old(record) + [Interaction(kind, turn.value)]
        && journal == CommitAll(old(journal), turn.value.commits)
      ensures Moves(old(schedule), schedule)
      ensures turn.Some? && AllQuiet(old(schedule)) ==> Quiet(turn.value)
      ensures turn.Some? && AllIdle(old(schedule)) ==> journal == old(journal) && turn.value.wait == Reads
    {
      if schedule == [] {
        return None;
      }
      CommitsExtend(journal, schedule[0].commits);
      turn := Some(schedule[0]);
      record := record + [Interaction(kind, schedule[0])];
      journal := CommitAll(journal, schedule[0].commits);
      schedule := schedule[1..];
    }
  }

  // ---- What has been delivered ----

  /**
   * The delivery state against a journal: what was passed to the callback is exactly the matching
   * revisions after the start and up to the cursor, and then the pending ones, which come next.
   */
  ghost predicate Progress(j: Journal, kinds: set<EventType>, start: nat, cursor: nat,
                           delivered: seq<Revision>, pending: seq<Revision>) {
    && start <= cursor
    && (cursor == start || cursor <= Latest(j))
    && delivered == Between(j, kinds, start, cursor) + pending
    && pending <= After(j, kinds, cursor)
  }

  lemma {:induction false} EmptyRange(j: Journal, kinds: set<EventType>, low: nat, high: nat)
    requires high <= low
    ensures Between(j, kinds, low, high) == []
  {
    hide Matches;
    if j != [] {
      EmptyRange(j[..|j| - 1], kinds, low, high);
    }
  }

  lemma ProgressAtStart(j: Journal, kinds: set<EventType>, start: nat)
    ensures Progress(j, kinds, start, start, [], [])
  {
    EmptyRange(j, kinds, start, start);
  }

  /** Commits by others never disturb the delivery state. */
  lemma CommitsKeepProgress(j: Journal, longer: Journal, kinds: set<EventType>, start: nat, cursor: nat,
                            delivered: seq<Revision>, pending: seq<Revision>)
    requires ValidJournal(longer) && j <= longer
    requires Progress(j, kinds, start, cursor, delivered, pending)
    ensures Progress(longer, kinds, start, cursor, delivered, pending)
  {
    hide Between, ValidJournal;
    ExtensionKeepsPast(j, longer, kinds, start, cursor);
    ExtensionKeepsPast(j, longer, kinds, cursor, I64_MAX);
    if cursor == start {
      EmptyRange(j, kinds, start, cursor);
      EmptyRange(longer, kinds, start, cursor);
    }
  }

  /** Moving the cursor over pending revisions that fill the range up to the new cursor. */
  lemma CursorMoves(j: Journal, kinds: set<EventType>, start: nat, cursor: nat, next: nat,
                    delivered: seq<Revision>, pending: seq<Revision>)
    requires ValidJournal(j) && Progress(j, kinds, start, cursor, delivered, pending)
    requires cursor <= next && (next == cursor || next <= Latest(j))
    requires pending == Between(j, kinds, cursor, next)
    ensures Progress(j, kinds, start, next, delivered, [])
  {
    hide Between, ValidJournal;
    BetweenConcatenates(j, kinds, start, cursor, next);
  }

  /** Delivering one more of the revisions to come, without moving the cursor. */
  lemma PendingGrows(j: Journal, kinds: set<EventType>, start: nat, cursor: nat,
                     delivered: seq<Revision>, pending: seq<Revision>, r: Revision)
    requires Progress(j, kinds, start, cursor, delivered, pending)
    requires pending + [r] <= After(j, kinds, cursor)
    ensures Progress(j, kinds, start, cursor, delivered + [r], pending + [r])
  {
    hide Between;
  }

  // ---- The observer ----

  class RevisionObserver {
    const kinds: set<EventType>
    var cursor: U64
    var failed: bool
    ghost const start: U64
    ghost var delivered: seq<Revision>

    ghost predicate Synced(j: Journal, pending: seq<Revision>)
      reads this
    {
      Progress(j, kinds, start, cursor, delivered, pending)
    }

    constructor (after: U64, kinds: set<EventType>)
      ensures cursor == start == after && this.kinds == kinds && !failed && delivered == []
      ensures forall j: Journal :: Synced(j, [])
    {
      this.kinds := kinds;
      cursor := after;
      failed := false;
      start := after;
      delivered := [];
      new;
      forall j: Journal
        ensures Synced(j, [])
      {
        ProgressAtStart(j, this.kinds, after);
      }
    }

    /** Loading a revision's events and calling the callback with them. */
    method Deliver(world: World, r: Revision, ghost pending: seq<Revision>) returns (status: Status)
      requires world.Valid() && Synced(world.journal, pending) && !failed
      requires pending + [r] <= After(world.journal, kinds, cursor) && MayDeliver(world.record)
      modifies world, this`delivered, this`failed
      ensures world.Valid() && old(world.journal) <= world.journal
      ensures status != Stopped && (status == Failed <==> failed)
      ensures status == Delivered ==> Synced(world.journal, pending + [r])
      ensures status == Suspended ==> Synced(world.journal, pending)
      ensures status == Failed ==> Synced(world.journal, pending) || Synced(world.journal, pending + [r])
      ensures Moves(old(world.schedule), world.schedule) && (AllQuiet(old(world.schedule)) ==> status != Failed)
      ensures status == Suspended <==> old(world.schedule) == []
      ensures old(world.schedule) != [] ==> |world.schedule| == |old(world.schedule)| - 1
      ensures Accounts(old(world.record), old(world.schedule), world.record, world.schedule)
      ensures EndsAs(old(world.record), world.record, status)
      ensures Passed(old(delivered), old(world.record), delivered, world.record)
      ensures status == Delivered ==> MayDeliver(world.record)
      ensures AllIdle(old(world.schedule)) ==> world.journal == old(world.journal)
    {
      hide Between, ValidJournal, Accounts, EndsAs;
      NothingRecorded(world.record, world.schedule);
      if world.schedule != [] {
        OneMore(world.record, world.schedule, Call);
      }
      assert EndsAs(world.record, world.record, Suspended) by { NoEnd(world.record); }
      var turn := world.Next(Call);
      CommitsKeepProgress(old(world.journal), world.journal, kinds, start, cursor, delivered, pending);
      ExtensionKeepsPast(old(world.journal), world.journal, kinds, cursor, I64_MAX);
      if turn.None? {
        return Suspended;
      }
      if turn.value.callback == EventsThrow {
        failed := true;
        return Failed;
      }
      PendingGrows(world.journal, kinds, start, cursor, delivered, pending, r);
      delivered := delivered + [r];
      if turn.value.callback == CallbackThrows {
        failed := true;
        return Failed;
      }
      status := Delivered;
    }

    /** The loop over an unfiltered page: the cursor follows every delivered revision. */
    method DeliverPage(world: World, page: seq<Revision>) returns (status: Status, ghost pending: seq<Revision>)
      requires world.Valid() && Synced(world.journal, []) && !failed
      requires kinds == {} && page != [] && page <= After(world.journal, kinds, cursor) && MayDeliver(world.record)
      modifies world, this
      ensures world.Valid() && old(world.journal) <= world.journal
      ensures Synced(world.journal, pending) && |pending| <= 1
      ensures status != Stopped && (status == Failed <==> failed)
      ensures status != Failed ==> pending == []
      ensures status == Delivered ==> cursor == page[|page| - 1].sequence && cursor > old(cursor)
      ensures old(cursor) <= cursor
      ensures Moves(old(world.schedule), world.schedule) && (AllQuiet(old(world.schedule)) ==> status != Failed)
      ensures Accounts(old(world.record), old(world.schedule), world.record, world.schedule)
      ensures EndsAs(old(world.record), world.record, status)
      ensures Passed(old(delivered), old(world.record), delivered, world.record)
      ensures status == Delivered ==> MayDeliver(world.record)
      ensures status == Suspended ==> world.schedule == []
      ensures AllIdle(old(world.schedule)) ==>
        && world.journal == old(world.journal)
        && (|old(world.schedule)| >= |page| ==>
              status == Delivered && |world.schedule| == |old(world.schedule)| - |page|)
    {
      hide Between, ValidJournal, AllQuiet, AllIdle, Accounts, EndsAs, AllGoOn, MayDeliver;
      IdleIsQuiet(world.schedule);
      NothingRecorded(world.record, world.schedule);
      NoEnd(world.record);
      pending := [];
      for i := 0 to |page|
        invariant world.Valid() && old(world.journal) <= world.journal
        invariant Moves(old(world.schedule), world.schedule)
        invariant AllIdle(old(world.schedule)) ==> world.journal == old(world.journal)
        invariant Accounts(old(world.record), old(world.schedule), world.record, world.schedule)
        invariant AllGoOn(old(world.record), world.record) && MayDeliver(world.record)
        invariant Passed(old(delivered), old(world.record), delivered, world.record)
        invariant |world.schedule| == |old(world.schedule)| - i
        invariant Synced(world.journal, []) && !failed
        invariant page[i..] <= After(world.journal, kinds, cursor)
        invariant if i == 0 then cursor == old(cursor) else cursor == page[i - 1].sequence && cursor > old(cursor)
      {
        ghost var before := world.journal;
        assert [] + [page[i]] <= page[i..];
        ghost var recorded, planned := world.record, world.schedule;
        status := Deliver(world, page[i], []);
        AccountsAgain(old(world.record), old(world.schedule), recorded, planned, world.record, world.schedule);
        GoOnThenEnd(old(world.record), recorded, world.record, status);
        ExtensionKeepsPast(before, world.journal, kinds, cursor, I64_MAX);
        if status != Delivered {
          pending := if status == Failed && !Synced(world.journal, []) then [page[i]] else [];
          assert [] + [page[i]] == [page[i]];
          return status, pending;
        }
        FirstToCome(world.journal, kinds, cursor, page[i..]);
        CursorMoves(world.journal, kinds, start, cursor, page[i].sequence, delivered, [page[i]]);
        assert page[i..][1..] == page[i + 1..];
        cursor := page[i].sequence;
      }
      status := Delivered;
      GoneOn(old(world.record), world.record);
    }

    /** One round of the inner loop: a filtered page is read and delivered, and the cursor follows it. */
    method DrainPage(world: World) returns (status: Status, ghost pending: seq<Revision>, size: nat)
      requires world.Valid() && Synced(world.journal, []) && !failed && kinds != {} && MayDeliver(world.record)
      modifies world, this
      ensures world.Valid() && old(world.journal) <= world.journal
      ensures Synced(world.journal, pending) && |pending| <= PAGE_SIZE
      ensures status != Stopped && (status == Failed <==> failed)
      ensures status == Delivered ==>
        && pending == [] && size <= PAGE_SIZE && |world.schedule| < |old(world.schedule)|
        && cursor >= old(cursor) && (old(cursor) < Latest(old(world.journal)) ==> cursor > old(cursor))
      ensures status == Delivered && world.journal == old(world.journal) ==>
        && size == Least(|After(old(world.journal), kinds, old(cursor))|, PAGE_SIZE)
        && After(world.journal, kinds, cursor) == After(old(world.journal), kinds, old(cursor))[size..]
      ensures status != Delivered ==> cursor == old(cursor)
      ensures Moves(old(world.schedule), world.schedule) && (AllQuiet(old(world.schedule)) ==> status != Failed)
      ensures Accounts(old(world.record), old(world.schedule), world.record, world.schedule)
      ensures EndsAs(old(world.record), world.record, status)
      ensures Passed(old(delivered), old(world.record), delivered, world.record)
      ensures status == Delivered ==> MayDeliver(world.record)
      ensures status == Suspended ==> world.schedule == []
      ensures AllIdle(old(world.schedule)) ==>
        var toCome := |After(old(world.journal), kinds, old(cursor))|;
        && world.journal == old(world.journal)
        && (|old(world.schedule)| > Least(toCome, PAGE_SIZE) ==>
              status == Delivered && |world.schedule| == |old(world.schedule)| - 1 - size)
    {
      hide Between, After, ValidJournal, AllQuiet, AllIdle, Progress, PageIsExact, ChangesSinceFiltered;
      hide Accounts, EndsAs, AllGoOn;
      IdleIsQuiet(world.schedule);
      NothingRecorded(world.record, world.schedule);
      NoEnd(world.record);
      if world.schedule != [] {
        OneMore(world.record, world.schedule, Page);
      }
      ghost var before := world.journal;
      size := 0;
      var turn := world.Next(Page);
      CommitsKeepProgress(before, world.journal, kinds, start, cursor, delivered, []);
      if turn.None? {
        return Suspended, [], size;
      }
      if turn.value.pageThrows {
        failed := true;
        return Failed, [], size;
      }
      var page := ChangesSinceFiltered(world.journal, cursor, kinds, PAGE_SIZE);
      FilteredPageIsExact(world.journal, cursor, kinds, PAGE_SIZE);
      ExactPageFacts(world.journal, kinds, cursor, page);
      ghost var read := world.journal;
      size := |page.revisions|;
      ghost var recorded, planned := world.record, world.schedule;
      assert AllGoOn(old(world.record), recorded) by { EndsDelivered(old(world.record), recorded); }
      status, pending := DeliverFiltered(world, page.revisions);
      AccountsAgain(old(world.record), old(world.schedule), recorded, planned, world.record, world.schedule);
      GoOnThenEnd(old(world.record), recorded, world.record, status);
      if status != Delivered {
        return status, pending, size;
      }
      DrainedPage(before, read, world.journal, kinds, start, cursor, delivered, page);
      cursor := page.through;
      pending := [];
    }

    /** The inner loop: filtered pages until a short one. */
    method DrainFiltered(world: World) returns (status: Status, ghost pending: seq<Revision>, ghost pages: nat)
      requires world.Valid() && Synced(world.journal, []) && !failed
      requires kinds != {} && cursor < Latest(world.journal) && MayDeliver(world.record)
      modifies world, this
      ensures world.Valid() && old(world.journal) <= world.journal
      ensures Synced(world.journal, pending) && |pending| <= PAGE_SIZE
      ensures status != Stopped && (status == Failed <==> failed)
      ensures status == Delivered ==> pending == [] && cursor > old(cursor)
      ensures old(cursor) <= cursor
      // Against a journal nobody extends, the number of pages is fixed by the revisions to come.
      ensures status == Delivered && world.journal == old(world.journal) ==>
        && pages == |After(old(world.journal), kinds, old(cursor))| / PAGE_SIZE + 1
        && After(world.journal, kinds, cursor) == []
      ensures Moves(old(world.schedule), world.schedule) && (AllQuiet(old(world.schedule)) ==> status != Failed)
      ensures Accounts(old(world.record), old(world.schedule), world.record, world.schedule)
      ensures EndsAs(old(world.record), world.record, status)
      ensures Passed(old(delivered), old(world.record), delivered, world.record)
      ensures status == Suspended ==> world.schedule == []
      ensures AllIdle(old(world.schedule)) ==>
        var toCome := |After(old(world.journal), kinds, old(cursor))|;
        && world.journal == old(world.journal)
        && |After(world.journal, kinds, cursor)| <= toCome
        && (|old(world.schedule)| >= TurnsToDrain(toCome) ==> status == Delivered)
    {
      hide Between, After, ValidJournal, AllQuiet, AllIdle, Progress, TurnsToDrain;
      hide Accounts, EndsAs, AllGoOn, MayDeliver;
      IdleIsQuiet(world.schedule);
      NothingRecorded(world.record, world.schedule);
      pending, pages := [], 0;
      ghost var first := world.journal;
      ghost var enough :=
        AllIdle(world.schedule) && |world.schedule| >= TurnsToDrain(|After(world.journal, kinds, cursor)|);
      while true
        invariant world.Valid() && first <= world.journal
        invariant Moves(old(world.schedule), world.schedule)
        invariant Accounts(old(world.record), old(world.schedule), world.record, world.schedule)
        invariant AllGoOn(old(world.record), world.record) && MayDeliver(world.record)
        invariant Passed(old(delivered), old(world.record), delivered, world.record)
        invariant AllIdle(old(world.schedule)) ==> world.journal == first
        invariant enough ==> |world.schedule| >= TurnsToDrain(|After(first, kinds, cursor)|)
        invariant Synced(world.journal, []) && !failed && old(cursor) <= cursor
        invariant pages == 0 ==> cursor == old(cursor)
        invariant pages > 0 ==> cursor > old(cursor)
        invariant world.journal == first ==>
          |After(first, kinds, old(cursor))| == PAGE_SIZE * pages + |After(first, kinds, cursor)|
        decreases |world.schedule|
      {
        ghost var before := world.journal;
        TurnsForPage(|After(before, kinds, cursor)|);
        assert Latest(first) <= Latest(before) by { ExtensionKeepsPast(first, before, kinds, cursor, I64_MAX); }
        var size;
        ghost var recorded, planned := world.record, world.schedule;
        status, pending, size := DrainPage(world);
        AccountsAgain(old(world.record), old(world.schedule), recorded, planned, world.record, world.schedule);
        GoOnThenEnd(old(world.record), recorded, world.record, status);
        if status != Delivered {
          return status, pending, pages;
        }
        assert world.journal == first ==> before == first by {
          assert |first| <= |before| <= |world.journal|;
        }
        pages := pages + 1;
        if size < PAGE_SIZE {
          return Delivered, [], pages;
        }
      }
    }

    /** The loop over a filtered page: every revision is delivered before the cursor moves. */
    method DeliverFiltered(world: World, page: seq<Revision>) returns (status: Status, ghost pending: seq<Revision>)
      requires world.Valid() && Synced(world.journal, []) && !failed
      requires page <= After(world.journal, kinds, cursor) && |page| <= PAGE_SIZE && MayDeliver(world.record)
      modifies world, this`delivered, this`failed
      ensures world.Valid() && old(world.journal) <= world.journal
      ensures Synced(world.journal, pending) && |pending| <= PAGE_SIZE
      ensures status != Stopped && (status == Failed <==> failed)
      ensures status == Delivered ==> pending == page
      ensures Moves(old(world.schedule), world.schedule) && (AllQuiet(old(world.schedule)) ==> status != Failed)
      ensures Accounts(old(world.record), old(world.schedule), world.record, world.schedule)
      ensures EndsAs(old(world.record), world.record, status)
      ensures Passed(old(delivered), old(world.record), delivered, world.record)
      ensures status == Delivered ==> MayDeliver(world.record)
      ensures status == Suspended ==> world.schedule == []
      ensures AllIdle(old(world.schedule)) ==>
        && world.journal == old(world.journal)
        && (|old(world.schedule)| >= |page| ==>
              status == Delivered && |world.schedule| == |old(world.schedule)| - |page|)
    {
      hide Between, ValidJournal, AllQuiet, AllIdle, Accounts, EndsAs, AllGoOn, MayDeliver;
      IdleIsQuiet(world.schedule);
      NothingRecorded(world.record, world.schedule);
      NoEnd(world.record);
      for i := 0 to |page|
        invariant world.Valid() && old(world.journal) <= world.journal
        invariant Moves(old(world.schedule), world.schedule)
        invariant AllIdle(old(world.schedule)) ==> world.journal == old(world.journal)
        invariant Accounts(old(world.record), old(world.schedule), world.record, world.schedule)
        invariant AllGoOn(old(world.record), world.record) && MayDeliver(world.record)
        invariant Passed(old(delivered), old(world.record), delivered, world.record)
        invariant |world.schedule| == |old(world.schedule)| - i
        invariant Synced(world.journal, page[..i]) && !failed
        invariant page <= After(world.journal, kinds, cursor)
      {
        ghost var before := world.journal;
        assert page[..i + 1] == page[..i] + [page[i]];
        ghost var recorded, planned := world.record, world.schedule;
        status := Deliver(world, page[i], page[..i]);
        AccountsAgain(old(world.record), old(world.schedule), recorded, planned, world.record, world.schedule);
        GoOnThenEnd(old(world.record), recorded, world.record, status);
        ExtensionKeepsPast(before, world.journal, kinds, cursor, I64_MAX);
        if status != Delivered {
          pending := if Synced(world.journal, page[..i]) then page[..i] else page[..i + 1];
          return status, pending;
        }
      }
      assert page[..|page|] == page;
      GoneOn(old(world.record), world.record);
      return Delivered, page;
    }

    /** One round of `run`: a wait, and the delivery of what it found. It is `Delivered` when the run goes on. */
    method Round(world: World) returns (status: Status, ghost pending: seq<Revision>)
      requires world.Valid() && Synced(world.journal, []) && !failed
      modifies world, this
      ensures world.Valid() && old(world.journal) <= world.journal
      ensures Synced(world.journal, pending) && old(cursor) <= cursor
      ensures |pending| <= if kinds == {} then 1 else PAGE_SIZE
      ensures status in {Delivered, Stopped} ==> pending == []
      ensures kinds == {} && status != Failed ==> pending == []
      ensures status == Failed <==> failed
      ensures Accounts(old(world.record), old(world.schedule), world.record, world.schedule)
      ensures EndsAs(old(world.record), world.record, status)
      ensures Passed(old(delivered), old(world.record), delivered, world.record)
      ensures StartsWithWait(old(world.record), world.record)
      ensures Moves(old(world.schedule), world.schedule)
      ensures AllQuiet(old(world.schedule)) ==> status !in {Stopped, Failed}
      ensures status == Delivered ==> |world.schedule| < |old(world.schedule)|
      ensures status == Suspended ==> world.schedule == []
      ensures AllIdle(old(world.schedule)) ==>
        var toCome := |After(old(world.journal), kinds, old(cursor))|;
        && world.journal == old(world.journal)
        && |After(world.journal, kinds, cursor)| <= toCome
        && (toCome > 0 && |old(world.schedule)| >= 2 * toCome + 2 ==>
              && status == Delivered
              && (|After(world.journal, kinds, cursor)| > 0 ==>
                    |world.schedule| >= 2 * |After(world.journal, kinds, cursor)| + 2))
    {
      hide Between, ValidJournal, AllQuiet, AllIdle, Accounts, EndsAs, AllGoOn, StartsWithWait, Calls, Outcome;
      IdleIsQuiet(world.schedule);
      NothingRecorded(world.record, world.schedule);
      NoEnd(world.record);
      NothingStarts(world.record);
      ghost var before, record := world.journal, world.record;
      if world.schedule != [] {
        OneMore(world.record, world.schedule, Wait);
        WaitComesFirst(world.record, world.schedule[0]);
      }
      var turn := world.Next(Wait);
      CommitsKeepProgress(before, world.journal, kinds, start, cursor, delivered, []);
      if turn.None? {
        return Suspended, [];
      }
      OutcomeOfWait(turn.value);
      match turn.value.wait {
        case Throws =>
          failed := true;
          return Failed, [];
        case Closes =>
          return Stopped, [];
        case Cancels =>
          return Stopped, [];
        case TimesOut =>
          return Delivered, [];
        case Reads =>
          var page := ChangesSince(world.journal, cursor, PAGE_SIZE);
          WaitPage(world.journal, cursor);
          if page == [] {
            // Nothing newer exists: the wait runs into its timeout.
            NothingIsNewer(world.journal, kinds, cursor);
            return Delivered, [];
          }
          ghost var recorded, planned := world.record, world.schedule;
          EndsDelivered(record, recorded);
          MayDeliverNow(record, turn.value);
          status, pending := DeliverFound(world, page);
          AccountsAgain(old(world.record), old(world.schedule), recorded, planned, world.record, world.schedule);
          GoOnThenEnd(old(world.record), recorded, world.record, status);
          AccountsGrow(recorded, planned, world.record, world.schedule);
          StillStartsWithWait(old(world.record), recorded, world.record);
      }
    }

    /** What follows a wait that found revisions: its page, or filtered pages. */
    method DeliverFound(world: World, page: seq<Revision>) returns (status: Status, ghost pending: seq<Revision>)
      requires world.Valid() && Synced(world.journal, []) && !failed && MayDeliver(world.record)
      requires page == ChangesSince(world.journal, cursor, PAGE_SIZE) && page != []
      modifies world, this
      ensures world.Valid() && old(world.journal) <= world.journal
      ensures Synced(world.journal, pending) && old(cursor) <= cursor
      ensures |pending| <= if kinds == {} then 1 else PAGE_SIZE
      ensures status == Delivered ==> pending == []
      ensures kinds == {} && status != Failed ==> pending == []
      ensures status != Stopped && (status == Failed <==> failed)
      ensures Accounts(old(world.record), old(world.schedule), world.record, world.schedule)
      ensures EndsAs(old(world.record), world.record, status)
      ensures Passed(old(delivered), old(world.record), delivered, world.record)
      ensures Moves(old(world.schedule), world.schedule) && (AllQuiet(old(world.schedule)) ==> status != Failed)
      ensures status == Suspended ==> world.schedule == []
      ensures AllIdle(old(world.schedule)) ==>
        var toCome := |After(old(world.journal), kinds, old(cursor))|;
        && world.journal == old(world.journal)
        && |After(world.journal, kinds, cursor)| <= toCome
        && (toCome > 0 && |old(world.schedule)| >= 2 * toCome + 1 ==>
              && status == Delivered
              && (|After(world.journal, kinds, cursor)| > 0 ==>
                    |world.schedule| >= 2 * |After(world.journal, kinds, cursor)| + 2))
    {
      hide Between, ValidJournal, AllQuiet, AllIdle, Accounts, EndsAs, AllGoOn, MayDeliver, Calls;
      WaitPage(world.journal, cursor);
      if kinds == {} {
        CutAfter(world.journal, kinds, cursor, |page|);
        status, pending := DeliverPage(world, page);
      } else {
        ghost var pages;
        status, pending, pages := DrainFiltered(world);
      }
      FewerToCome(world.journal, kinds, old(cursor), cursor);
    }

    /**
     * `run`, under any schedule of commits, wait outcomes, query failures and callback exceptions, and
     * cut at any interaction: the delivery state is exact, with at most the failing revision beyond the
     * cursor when there is no filter, and at most the current page when there is one. The observation ends
     * with the first interaction that ends it, exactly as that one says.
     */
    method Run(world: World) returns (status: Status, ghost pending: seq<Revision>)
      requires world.Valid() && Synced(world.journal, []) && !failed
      modifies world, this
      ensures world.Valid() && old(world.journal) <= world.journal
      ensures Synced(world.journal, pending) && old(cursor) <= cursor
      ensures |pending| <= if kinds == {} then 1 else PAGE_SIZE
      ensures status == Stopped ==> pending == []
      ensures kinds == {} && status != Failed ==> pending == []
      ensures status != Delivered && (status == Failed <==> failed)
      // Every interaction is accounted for, and so is every call: the first one is a wait.
      ensures Accounts(old(world.record), old(world.schedule), world.record, world.schedule)
      ensures EndsAs(old(world.record), world.record, status)
      ensures Passed(old(delivered), old(world.record), delivered, world.record)
      ensures StartsWithWait(old(world.record), world.record)
      ensures old(world.schedule) != [] && old(world.schedule)[0].wait in {Closes, Cancels, Throws} ==>
        && status == (if old(world.schedule)[0].wait == Throws then Failed else Stopped)
        && world.schedule == old(world.schedule)[1..] && delivered == old(delivered)
      // The observation goes on as long as nothing ends it, and catches up when it is left to run.
      ensures status == Suspended ==> world.schedule == []
      ensures AllQuiet(old(world.schedule)) ==> status == Suspended
      ensures AllIdle(old(world.schedule))
              && |old(world.schedule)| >= 2 * |After(old(world.journal), kinds, old(cursor))| + 2 ==>
        && world.journal == old(world.journal)
        && delivered == After(world.journal, kinds, start)
    {
      hide Between, After, ValidJournal, AllQuiet, AllIdle, Accounts, EndsAs, AllGoOn, StartsWithWait, Progress, Calls;
      ghost var enough := && AllIdle(world.schedule)
                          && |world.schedule| >= 2 * |After(world.journal, kinds, cursor)| + 2;
      NothingRecorded(world.record, world.schedule);
      NothingStarts(world.record);
      while true
        invariant world.Valid() && old(world.journal) <= world.journal
        invariant Synced(world.journal, []) && !failed && old(cursor) <= cursor
        invariant Moves(old(world.schedule), world.schedule)
        invariant Accounts(old(world.record), old(world.schedule), world.record, world.schedule)
        invariant AllGoOn(old(world.record), world.record)
        invariant Passed(old(delivered), old(world.record), delivered, world.record)
        invariant StartsWithWait(old(world.record), world.record)
        invariant enough ==>
          && world.journal == old(world.journal)
          && (|After(world.journal, kinds, cursor)| > 0 ==>
                |world.schedule| >= 2 * |After(world.journal, kinds, cursor)| + 2)
        decreases |world.schedule|
      {
        ghost var record, schedule := world.record, world.schedule;
        status, pending := Round(world);
        AccountsGrow(old(world.record), old(world.schedule), record, schedule);
        AccountsAgain(old(world.record), old(world.schedule), record, schedule, world.record, world.schedule);
        GoOnThenEnd(old(world.record), record, world.record, status);
        RoundsStartWithWait(old(world.record), record, world.record, schedule, world.schedule);
        if status != Delivered {
          if enough {
            assert pending == [] by { NothingPending(world.journal, kinds, start, cursor, delivered, pending); }
            CaughtUp(world.journal, kinds, start, cursor, delivered);
          }
          EndedAtOnce(old(world.record), old(world.schedule), world.record, world.schedule, status);
          return status, pending;
        }
      }
    }
  }

  /** Moving the cursor leaves no more revisions to come. */
  lemma FewerToCome(j: Journal, kinds: set<EventType>, low: nat, high: nat)
    requires ValidJournal(j) && low <= high
    ensures |After(j, kinds, high)| <= |After(j, kinds, low)|
  {
    hide Between, ValidJournal;
    LatestIsStored(j);
    if high <= I64_MAX {
      BetweenConcatenates(j, kinds, low, high, I64_MAX);
    } else {
      NothingIsNewer(j, kinds, high);
    }
  }

  /** With nothing to come nothing is pending. */
  lemma NothingPending(j: Journal, kinds: set<EventType>, start: nat, cursor: nat,
                       delivered: seq<Revision>, pending: seq<Revision>)
    requires Progress(j, kinds, start, cursor, delivered, pending) && |After(j, kinds, cursor)| == 0
    ensures pending == []
  {}

  /** When nothing is to come, everything after the start has been delivered. */
  lemma CaughtUp(j: Journal, kinds: set<EventType>, start: nat, cursor: nat, delivered: seq<Revision>)
    requires ValidJournal(j)
    ensures Progress(j, kinds, start, cursor, delivered, []) && After(j, kinds, cursor) == [] ==>
      delivered == After(j, kinds, start)
  {
    hide Between, ValidJournal;
    if Progress(j, kinds, start, cursor, delivered, []) {
      WholeSplitsAtCursor(j, kinds, start, cursor);
    }
  }

  /** The first of the revisions to come fills the range up to its own sequence. */
  lemma FirstToCome(j: Journal, kinds: set<EventType>, cursor: nat, page: seq<Revision>)
    requires ValidJournal(j) && page != [] && page <= After(j, kinds, cursor)
    ensures cursor < page[0].sequence <= Latest(j) <= I64_MAX
    ensures Between(j, kinds, cursor, page[0].sequence) == [page[0]]
    ensures page[1..] <= After(j, kinds, page[0].sequence)
  {
    hide Between;
    CutAfter(j, kinds, cursor, 1);
    LatestIsStored(j);
    assert After(j, kinds, cursor)[..1] == [page[0]];
  }

  /** An exact page holds the next revisions to come, and moves the cursor past what it covers. */
  lemma ExactPageFacts(j: Journal, kinds: set<EventType>, cursor: nat, page: FilteredPage)
    requires PageIsExact(j, cursor, kinds, PAGE_SIZE, page)
    ensures page.revisions <= After(j, kinds, cursor)
    ensures |page.revisions| == Least(|After(j, kinds, cursor)|, PAGE_SIZE)
    ensures After(j, kinds, page.through) == After(j, kinds, cursor)[|page.revisions|..]
    ensures cursor <= page.through <= U64_MAX && (cursor < Latest(j) ==> cursor < page.through)
  {}

  /** After an exact page has been delivered the cursor can move past it, whatever was committed since. */
  lemma DrainedPage(before: Journal, read: Journal, now: Journal, kinds: set<EventType>, start: nat, cursor: nat,
                    delivered: seq<Revision>, page: FilteredPage)
    requires ValidJournal(now) && before <= read <= now
    requires PageIsExact(read, cursor, kinds, PAGE_SIZE, page)
    requires Progress(now, kinds, start, cursor, delivered, page.revisions)
    ensures Progress(now, kinds, start, page.through, delivered, [])
    ensures cursor <= page.through <= U64_MAX && (cursor < Latest(before) ==> cursor < page.through)
    ensures now == before ==>
      && |page.revisions| == Least(|After(before, kinds, cursor)|, PAGE_SIZE)
      && After(now, kinds, page.through) == After(before, kinds, cursor)[|page.revisions|..]
  {
    hide Between, After, ValidJournal, PageIsExact;
    ExactPageFacts(read, kinds, cursor, page);
    ExtensionKeepsPast(read, now, kinds, cursor, I64_MAX);
    ExtensionKeepsPast(before, read, kinds, cursor, I64_MAX);
    PageStaysExact(read, now, kinds, cursor, page);
    CursorMoves(now, kinds, start, cursor, page.through, delivered, page.revisions);
    assert now == before ==> read == before by {
      assert |before| <= |read| <= |now|;
    }
  }

  /** A page read from an earlier journal still fills its range in a longer one. */
  lemma PageStaysExact(j: Journal, longer: Journal, kinds: set<EventType>, cursor: nat, page: FilteredPage)
    requires ValidJournal(longer) && j <= longer
    requires PageIsExact(j, cursor, kinds, PAGE_SIZE, page)
    ensures page.revisions == Between(longer, kinds, cursor, page.through)
    ensures page.through == cursor || page.through <= Latest(longer)
  {
    hide Between, ValidJournal;
    ExtensionKeepsPast(j, longer, kinds, cursor, page.through);
    if page.through == cursor {
      EmptyRange(j, kinds, cursor, page.through);
      EmptyRange(longer, kinds, cursor, page.through);
    }
  }

  /** A wait's page is the first hundred of what is to come, and is empty only when nothing newer exists. */
  lemma WaitPage(j: Journal, cursor: U64)
    requires ValidJournal(j)
    ensures ChangesSince(j, cursor, PAGE_SIZE) <= After(j, {}, cursor)
    ensures |ChangesSince(j, cursor, PAGE_SIZE)| == Least(|After(j, {}, cursor)|, 100)
    ensures ChangesSince(j, cursor, PAGE_SIZE) == [] <==> Latest(j) <= cursor
  {
    LatestIsStored(j);
    if Latest(j) <= cursor {
      NothingIsNewer(j, {}, cursor);
    } else {
      var last := j[|j| - 1];
      BetweenMembers(j, {}, cursor, I64_MAX);
      assert last in After(j, {}, cursor);
    }
  }

  // ---- Main results about a delivery state ----

  /**
   * Nothing lost, nothing repeated, in order: the deliveries are an ascending prefix of all the matching
   * revisions after the start, and contain every one up to the cursor.
   */
  lemma DeliveryIsExact(j: Journal, kinds: set<EventType>, start: nat, cursor: nat,
                        delivered: seq<Revision>, pending: seq<Revision>)
    requires ValidJournal(j) && Progress(j, kinds, start, cursor, delivered, pending)
    ensures delivered <= After(j, kinds, start)
    ensures forall a, b :: 0 <= a < b < |delivered| ==> delivered[a].sequence < delivered[b].sequence
    ensures forall r ::
              (r in j && start < r.sequence <= cursor && (kinds == {} || exists k :: k in kinds && k in r.events)) ==>
                r in delivered
    ensures forall r :: r in delivered ==>
              r in j && start < r.sequence && (kinds == {} || exists k :: k in kinds && k in r.events)
    ensures forall r :: r in delivered && r.sequence > cursor ==> r in pending
  {
    var early := Between(j, kinds, start, cursor);
    BetweenMembers(j, kinds, start, cursor);
    BetweenMembers(j, kinds, start, I64_MAX);
    BetweenAscends(j, kinds, start, I64_MAX);
    var whole := After(j, kinds, start);
    assert delivered <= whole by {
      WholeSplitsAtCursor(j, kinds, start, cursor);
      assert whole == early + After(j, kinds, cursor);
    }
    assert forall a :: 0 <= a < |delivered| ==> delivered[a] == whole[a];
    forall r | r in delivered
      ensures r in j && start < r.sequence && Matches(kinds, r)
      ensures r.sequence > cursor ==> r in pending
    {
      assert r in whole;
      assert r in early || r in pending;
    }
  }

  lemma WholeSplitsAtCursor(j: Journal, kinds: set<EventType>, start: nat, cursor: nat)
    requires ValidJournal(j) && start <= cursor && (cursor == start || cursor <= Latest(j))
    ensures After(j, kinds, start) == Between(j, kinds, start, cursor) + After(j, kinds, cursor)
  {
    hide Between, ValidJournal;
    LatestIsStored(j);
    if cursor == start {
      EmptyRange(j, kinds, start, cursor);
    } else {
      BetweenConcatenates(j, kinds, start, cursor, I64_MAX);
    }
  }

  /**
   * Restarting after any exception from the reported cursor loses nothing: what the first observation
   * delivered up to its cursor, followed by what the second one delivers, is again an exact delivery
   * from the original start. Only the pending revisions of the first can be delivered again.
   */
  lemma RestartLosesNothing(j1: Journal, j2: Journal, kinds: set<EventType>, start: nat, cursor1: nat, cursor2: nat,
                            first: seq<Revision>, pending1: seq<Revision>,
                            second: seq<Revision>, pending2: seq<Revision>)
    requires ValidJournal(j2) && j1 <= j2
    requires Progress(j1, kinds, start, cursor1, first, pending1)
    requires Progress(j2, kinds, cursor1, cursor2, second, pending2)
    ensures var kept := first[..|first| - |pending1|];
      && Progress(j2, kinds, start, cursor2, kept + second, pending2)
      && forall r :: r in first && r in second ==> r in pending1
  {
    hide Between, ValidJournal;
    var kept := first[..|first| - |pending1|];
    CommitsKeepProgress(j1, j2, kinds, start, cursor1, first, pending1);
    BetweenConcatenates(j2, kinds, start, cursor1, cursor2);
    assert kept == Between(j2, kinds, start, cursor1);
    BetweenMembers(j2, kinds, start, cursor1);
    DeliveryIsExact(j2, kinds, cursor1, cursor2, second, pending2);
    assert first == kept + pending1;
  }
}
