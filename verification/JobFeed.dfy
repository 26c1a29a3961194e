/**
 * The job protocol seen through the change feed: what an observer of the job events can reconstruct
 * (crates/postproject-storage-sqlite/src/transaction.rs, include/postproject/postproject.hpp).
 */
module JobFeed {
  import opened Wrappers
  import opened Machine
  import opened Orders
  import opened Identity
  import opened Jobs
  import Revisions
  import Observer

  const JOB_KINDS: set<Revisions.EventType> := {
    Revisions.JobRequested, Revisions.JobClaimed, Revisions.JobClaimRenewed, Revisions.JobClaimReleased,
    Revisions.JobSucceeded, Revisions.JobFailed, Revisions.JobCancelled
  }

  /** One stored revision with the job events that loading its events gives. */
  datatype Entry = Entry(revision: Revisions.Revision, details: seq<JobEvent>)

  /** An operation of a run, and the other events its transaction holds when it is a commit. */
  datatype Action = Action(op: Op, others: seq<Revisions.EventType>)

  function Operations(actions: seq<Action>): seq<Op> {
    Map((a: Action) => a.op, actions)
  }

  function Journal(feed: seq<Entry>): Revisions.Journal {
    Map((e: Entry) => e.revision, feed)
  }

  function EventTypes(details: seq<JobEvent>): seq<Revisions.EventType> {
    Map((e: JobEvent) => e.event, details)
  }

  /** The job events of the open transaction: the end of the log that is not durable yet. */
  function Pending(s: System): seq<JobEvent> {
    if s.staged.Some? && |s.durable.log| <= |s.staged.value.log|
    then s.staged.value.log[|s.durable.log|..]
    else []
  }

  /** `commit`: a revision is stored with all events of the transaction, unless there are none. */
  function Stored(s: System, a: Action, feed: seq<Entry>): seq<Entry> {
    if a.op != Commit(Commits) || s.staged.None? || EventTypes(Pending(s)) + a.others == [] then
      []
    else
      [Entry(Revisions.Revision(Revisions.Latest(Journal(feed)) + 1, EventTypes(Pending(s)) + a.others), Pending(s))]
  }

  function Feed(actions: seq<Action>): seq<Entry> {
    if actions == [] then
      []
    else
      var front, last := actions[..|actions| - 1], actions[|actions| - 1];
      Feed(front) + Stored(Run(NEW_SYSTEM, Operations(front)), last, Feed(front))
  }

  function Details(feed: seq<Entry>): seq<JobEvent> {
    if feed == [] then [] else Details(feed[..|feed| - 1]) + feed[|feed| - 1].details
  }

  /** Loading a revision's events by its identity. */
  function Load(feed: seq<Entry>, r: Revisions.Revision): seq<JobEvent> {
    if feed == [] then
      []
    else if feed[|feed| - 1].revision == r then
      feed[|feed| - 1].details
    else
      Load(feed[..|feed| - 1], r)
  }

  /** What the callback is passed for the revisions, one after another. */
  function LoadAll(feed: seq<Entry>, revisions: seq<Revisions.Revision>): seq<JobEvent> {
    if revisions == [] then
      []
    else
      LoadAll(feed, revisions[..|revisions| - 1]) + Load(feed, revisions[|revisions| - 1])
  }

  // ---- The feed and the protocol agree ----

  /** Job events appear in the log as job kinds only. */
  ghost predicate LogIsOfJobs(f: Facts) {
    forall i :: 0 <= i < |f.log| ==> f.log[i].event in JOB_KINDS
  }

  lemma MutationLogsJobs(f: Facts, op: Op)
    requires !op.Begin? && !op.Commit? && !op.Rollback?
    requires LogIsOfJobs(f) && Mutate(f, op).Ok?
    ensures LogIsOfJobs(Mutate(f, op).value)
  {
    hide CompletionMatches, EdgesExist, ClosesCycle, Transition;
  }

  lemma {:induction false} RunLogsJobs(ops: seq<Op>)
    ensures LogIsOfJobs(Run(NEW_SYSTEM, ops).durable)
    ensures Run(NEW_SYSTEM, ops).staged.Some? ==> LogIsOfJobs(Run(NEW_SYSTEM, ops).staged.value)
  {
    hide Mutate;
    if ops != [] {
      hide LogIsOfJobs;
      var op := ops[|ops| - 1];
      RunLogsJobs(ops[..|ops| - 1]);
      var before := Run(NEW_SYSTEM, ops[..|ops| - 1]);
      if before.staged.Some? && !op.Begin? && !op.Commit? && !op.Rollback? && Mutate(before.staged.value, op).Ok? {
        MutationLogsJobs(before.staged.value, op);
      }
    }
  }

  /** What the entries of a feed keep: ascending sequences, and job details for exactly the job kinds. */
  ghost predicate IsSoundFeed(feed: seq<Entry>) {
    && (forall i :: 0 <= i < |feed| ==> feed[i].revision.sequence == i + 1)
    && forall i :: 0 <= i < |feed| ==> IsSoundEntry(feed[i])
  }

  ghost predicate IsSoundEntry(e: Entry) {
    e.details != [] ==> Revisions.Matches(JOB_KINDS, e.revision)
  }

  lemma StoredIsSound(s: System, a: Action, feed: seq<Entry>)
    requires IsSoundFeed(feed)
    requires forall i :: 0 <= i < |Pending(s)| ==> Pending(s)[i].event in JOB_KINDS
    ensures IsSoundFeed(feed + Stored(s, a, feed)) && |Stored(s, a, feed)| <= 1
  {
    var stored := Stored(s, a, feed);
    assert |Journal(feed)| == |feed|;
    if stored != [] && stored[0].details != [] {
      var r := stored[0].revision;
      assert r.events[0] == Pending(s)[0].event;
      assert r.events[0] in JOB_KINDS && r.events[0] in r.events;
    }
  }

  /** In every run the details of the feed, put together, are the log of the durable facts. */
  lemma {:induction false} FeedIsTheLog(actions: seq<Action>)
    ensures IsSoundFeed(Feed(actions)) && |Feed(actions)| <= |actions|
    ensures Details(Feed(actions)) == Run(NEW_SYSTEM, Operations(actions)).durable.log
  {
    if actions == [] {
      assert Operations(actions) == [];
    } else {
      var front, last := actions[..|actions| - 1], actions[|actions| - 1];
      FeedIsTheLog(front);
      assert Operations(actions)[..|actions| - 1] == Operations(front);
      assert Operations(actions)[|actions| - 1] == last.op;
      var before := Run(NEW_SYSTEM, Operations(front));
      assert Run(NEW_SYSTEM, Operations(actions)) == Step(before, last.op).0;
      ReachableInvariant(Operations(front));
      RunLogsJobs(Operations(front));
      CommitStoresTheLog(before, last, Feed(front));
    }
  }

  /** The grown feed has one more entry for what the transaction staged, with the next sequence. */
  ghost predicate GrowsByCommit(s: System, others: seq<Revisions.EventType>, feed: seq<Entry>, fed: seq<Entry>)
    requires s.staged.Some?
  {
    && |fed| == |feed| + 1 && fed[..|feed|] == feed
    && s.staged.value.log == s.durable.log + fed[|feed|].details
    && fed[|feed|].revision.sequence == |feed| + 1
    && fed[|feed|].revision.events == EventTypes(fed[|feed|].details) + others
  }

  lemma StoredGrows(s: System, a: Action, feed: seq<Entry>)
    requires IsSoundFeed(feed) && (s.staged.Some? ==> s.durable.log <= s.staged.value.log)
    ensures var fed := feed + Stored(s, a, feed);
      if a.op == Commit(Commits) && s.staged.Some? && (s.staged.value.log != s.durable.log || a.others != [])
      then GrowsByCommit(s, a.others, feed, fed)
      else fed == feed
  {
    hide IsSoundFeed;
    NextSequence(feed);
    if s.staged.Some? {
      assert |EventTypes(Pending(s))| == |Pending(s)|;
      assert s.staged.value.log == s.durable.log + Pending(s);
    }
  }

  /**
   * A commit that goes through stores one revision for all that its transaction did, the job events first,
   * under the next sequence; a transaction without events stores none, and neither does anything else.
   */
  lemma CommitsAreFed(actions: seq<Action>, a: Action)
    ensures var s := Run(NEW_SYSTEM, Operations(actions));
      if a.op == Commit(Commits) && s.staged.Some? && (s.staged.value.log != s.durable.log || a.others != [])
      then GrowsByCommit(s, a.others, Feed(actions), Feed(actions + [a]))
      else Feed(actions + [a]) == Feed(actions)
  {
    hide Run, IsSoundFeed, SystemInvariant, Stored, GrowsByCommit;
    var s := Run(NEW_SYSTEM, Operations(actions));
    ReachableInvariant(Operations(actions));
    FeedIsTheLog(actions);
    if s.staged.Some? {
      StagedExtendsTheLog(s);
    }
    StoredGrows(s, a, Feed(actions));
    OneMoreAction(actions, a);
  }

  lemma OneMoreAction(actions: seq<Action>, a: Action)
    ensures Feed(actions + [a]) == Feed(actions) + Stored(Run(NEW_SYSTEM, Operations(actions)), a, Feed(actions))
  {
    hide Run, Stored;
    assert (actions + [a])[..|actions|] == actions;
  }

  lemma NextSequence(feed: seq<Entry>)
    requires IsSoundFeed(feed)
    ensures Revisions.Latest(Journal(feed)) == |feed|
  {
    assert |Journal(feed)| == |feed|;
  }

  lemma StagedExtendsTheLog(s: System)
    requires SystemInvariant(s) && s.staged.Some?
    ensures s.durable.log <= s.staged.value.log
  {}

  lemma OnlyCommitsChangeDurable(s: System, op: Op)
    ensures Step(s, op).0.durable == if op == Commit(Commits) && s.staged.Some? then s.staged.value else s.durable
  {
    hide Mutate;
  }

  lemma CommitStoresTheLog(s: System, a: Action, feed: seq<Entry>)
    requires SystemInvariant(s) && (s.staged.Some? ==> LogIsOfJobs(s.staged.value))
    requires IsSoundFeed(feed) && Details(feed) == s.durable.log
    ensures IsSoundFeed(feed + Stored(s, a, feed)) && |Stored(s, a, feed)| <= 1
    ensures Details(feed + Stored(s, a, feed)) == Step(s, a.op).0.durable.log
  {
    hide Step, SystemInvariant, IsSoundFeed;
    OnlyCommitsChangeDurable(s, a.op);
    if s.staged.Some? {
      StagedExtendsTheLog(s);
    }
    StoredIsSound(s, a, feed);
    DetailsAppended(feed, Stored(s, a, feed));
    assert |EventTypes(Pending(s))| == |Pending(s)|;
  }

  lemma DetailsAppended(feed: seq<Entry>, stored: seq<Entry>)
    requires |stored| <= 1
    ensures Details(feed + stored) == if stored == [] then Details(feed) else Details(feed) + stored[0].details
  {
    if stored == [] {
      assert feed + stored == feed;
    } else {
      assert (feed + stored)[..|feed|] == feed;
    }
  }

  // ---- Loading what was delivered ----

  lemma {:induction false} LoadFinds(feed: seq<Entry>, i: nat)
    requires IsSoundFeed(feed) && i < |feed|
    ensures Load(feed, feed[i].revision) == feed[i].details
  {
    if i < |feed| - 1 {
      var front := feed[..|feed| - 1];
      assert IsSoundFeed(front);
      LoadFinds(front, i);
    }
  }

  lemma OneMoreRevision(feed: seq<Entry>, n: nat, high: nat)
    requires IsSoundFeed(feed) && n < |feed|
    ensures var earlier := Revisions.Between(Journal(feed[..n]), JOB_KINDS, 0, high);
      Revisions.Between(Journal(feed[..n + 1]), JOB_KINDS, 0, high)
      == earlier + if n < high && Revisions.Matches(JOB_KINDS, feed[n].revision) then [feed[n].revision] else []
  {
    hide Revisions.Matches;
    assert Journal(feed[..n + 1])[..n] == Journal(feed[..n]);
    assert Journal(feed[..n + 1])[n] == feed[n].revision;
  }

  lemma DetailsOneMore(feed: seq<Entry>, n: nat)
    requires n < |feed|
    ensures Details(feed[..n + 1]) == Details(feed[..n]) + feed[n].details
  {
    assert feed[..n + 1][..n] == feed[..n];
  }

  lemma LoadOneMore(feed: seq<Entry>, revisions: seq<Revisions.Revision>, r: Revisions.Revision)
    ensures LoadAll(feed, revisions + [r]) == LoadAll(feed, revisions) + Load(feed, r)
  {
    assert (revisions + [r])[..|revisions|] == revisions;
  }

  lemma NoDetails(feed: seq<Entry>)
    ensures Details(feed[..0]) == [] && LoadAll(feed, []) == []
    ensures forall high :: Revisions.Between(Journal(feed[..0]), JOB_KINDS, 0, high) == []
  {}

  /** Loading the matching revisions up to a sequence gives all job details up to it. */
  lemma {:induction false} LoadedIsDetails(feed: seq<Entry>, n: nat, high: nat)
    requires IsSoundFeed(feed) && n <= |feed|
    ensures LoadAll(feed, Revisions.Between(Journal(feed[..n]), JOB_KINDS, 0, high))
         == Details(feed[..if high < n then high else n])
  {
    hide Load, LoadAll, Details, Journal, Revisions.Matches, Revisions.Between;
    if n == 0 {
      NoDetails(feed);
    } else {
      LoadedIsDetails(feed, n - 1, high);
      LoadFinds(feed, n - 1);
      OneMoreRevision(feed, n - 1, high);
      var earlier := Revisions.Between(Journal(feed[..n - 1]), JOB_KINDS, 0, high);
      LoadOneMore(feed, earlier, feed[n - 1].revision);
      DetailsOneMore(feed, n - 1);
      assert IsSoundEntry(feed[n - 1]);
      assert earlier + [] == earlier;
    }
  }

  lemma JournalIsValid(feed: seq<Entry>)
    requires IsSoundFeed(feed) && |feed| <= I64_MAX
    ensures Revisions.ValidJournal(Journal(feed)) && Revisions.Latest(Journal(feed)) == |feed|
  {}

  /** Replaying the events gives the state category of every job, and of no other, after the first k actions. */
  ghost predicate KnowsEveryJob(actions: seq<Action>, k: nat, events: seq<JobEvent>)
    requires k <= |actions|
  {
    var f := Run(NEW_SYSTEM, Operations(actions[..k])).durable;
    && events == f.log
    && forall id :: Replay(events, id) == if id in f.jobs then InState(f.jobs[id].state.Kind()) else Absent
  }

  lemma LogKnowsEveryJob(actions: seq<Action>, k: nat)
    requires k <= |actions|
    ensures KnowsEveryJob(actions, k, Run(NEW_SYSTEM, Operations(actions[..k])).durable.log)
  {
    hide Run, Replay;
    var ops := Operations(actions[..k]);
    forall id
      ensures var f := Run(NEW_SYSTEM, ops).durable;
        Replay(f.log, id) == if id in f.jobs then InState(f.jobs[id].state.Kind()) else Absent
    {
      EventsReplayToStates(ops, id);
    }
  }

  /** The feed grows by single revisions, so each of its prefixes was the feed at some moment. */
  lemma {:induction false} PrefixWasTheFeed(actions: seq<Action>, n: nat) returns (k: nat)
    requires n <= |Feed(actions)|
    ensures k <= |actions| && Feed(actions[..k]) == Feed(actions)[..n]
  {
    hide Stored;
    if n == |Feed(actions)| {
      k := |actions|;
      assert actions[..k] == actions;
    } else {
      var front := actions[..|actions| - 1];
      OneRevisionAtMost(actions);
      k := PrefixWasTheFeed(front, n);
      assert front[..k] == actions[..k];
    }
  }

  lemma OneRevisionAtMost(actions: seq<Action>)
    requires actions != []
    ensures var front := actions[..|actions| - 1];
      Feed(front) <= Feed(actions) && |Feed(actions)| <= |Feed(front)| + 1
  {}

  /**
   * An observer of the job kinds from the beginning, at any moment of any run: replaying what it was
   * passed for the revisions up to its cursor gives every job's state as it was when the revision at the
   * cursor had been committed.
   */
  lemma DeliveredEventsReplay(actions: seq<Action>, cursor: nat, delivered: seq<Revisions.Revision>,
                              pending: seq<Revisions.Revision>)
    returns (k: nat)
    requires |actions| <= I64_MAX
    requires Observer.Progress(Journal(Feed(actions)), JOB_KINDS, 0, cursor, delivered, pending)
    ensures k <= |actions| && |Feed(actions[..k])| == cursor
    ensures KnowsEveryJob(actions, k, LoadAll(Feed(actions), delivered[..|delivered| - |pending|]))
  {
    hide Run, Feed, Details, LoadAll, Journal, KnowsEveryJob, IsSoundFeed, Revisions.Between;
    var feed := Feed(actions);
    FeedIsTheLog(actions);
    JournalIsValid(feed);
    assert feed[..|feed|] == feed;
    LoadedIsDetails(feed, |feed|, cursor);
    k := PrefixWasTheFeed(actions, cursor);
    FeedIsTheLog(actions[..k]);
    LogKnowsEveryJob(actions, k);
    var early := Revisions.Between(Journal(feed), JOB_KINDS, 0, cursor);
    assert (early + pending)[..|early|] == early;
  }

  /**
   * An observer that has caught up has been passed exactly the job log: replaying it gives the state
   * category of every job, and of no other.
   */
  lemma CaughtUpObserverKnowsEveryJob(actions: seq<Action>, delivered: seq<Revisions.Revision>)
    requires |actions| <= I64_MAX
    requires delivered == Revisions.After(Journal(Feed(actions)), JOB_KINDS, 0)
    ensures KnowsEveryJob(actions, |actions|, LoadAll(Feed(actions), delivered))
  {
    hide Run, Feed, Details, LoadAll, KnowsEveryJob, IsSoundFeed, Revisions.Between;
    var feed := Feed(actions);
    FeedIsTheLog(actions);
    assert feed[..|feed|] == feed && actions[..|actions|] == actions;
    LoadedIsDetails(feed, |feed|, I64_MAX);
    LogKnowsEveryJob(actions, |actions|);
  }
}
