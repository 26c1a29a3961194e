/**
 * Where the stored facts come from: in every run each of them is what some operation of the run gave
 * (crates/postproject-storage-sqlite/src/transaction.rs).
 */
module Origins {
  import opened Wrappers
  import opened Machine
  import opened Identity
  import opened Jobs
  import Provenance
  import Revisions

  // ---- When a request or an action is accepted, and what it stores ----

  /** A request is stored exactly when everything it names is there; it stores the job as it was given. */
  lemma RequestIsStoredExactly(f: Facts, id: Uuid, job: Job, listed: set<string>, persists: bool)
    ensures var r := RequestIn(f, id, job, listed, persists);
      && (r.Ok? <==>
            && job.state == Requested && (job.targetRoot.Some? ==> job.targetRoot.value in listed)
            && job.asset in f.assets && (forall input :: input in job.inputs ==> input in f.representations)
            && id !in f.jobs && persists)
      && (r.Ok? ==> r.value == f.(jobs := f.jobs[id := job], log := f.log + [JobEvent(id, Revisions.JobRequested)]))
  {}

  /** Imports, representations and activities are stored exactly when what they name is there and they are new. */
  lemma AdditionsAreStoredExactly(f: Facts, added: Import, activity: Provenance.Activity, persists: bool)
    ensures var imported := ImportOriginalTo(f, added, persists);
      var represented := AddRepresentationTo(f, added, None, persists);
      var created := CreateActivityIn(f, activity, None, persists);
      var representations := f.representations[added.id := RepresentationFact(added.asset, added.kind, None)];
      && (imported.Ok? <==> added.asset !in f.assets && added.id !in f.representations && persists)
      && (imported.Ok? ==>
            imported.value == f.(assets := f.assets + {added.asset}, representations := representations))
      && (represented.Ok? <==> added.asset in f.assets && added.id !in f.representations && persists)
      && (represented.Ok? ==> represented.value == f.(representations := representations))
      && (created.Ok? <==>
            && activity.id !in f.activities && persists && !ClosesCycle(f, activity)
            && (forall id :: id in EdgeIds(activity.inputs) || id in EdgeIds(activity.outputs) ==>
                  id in f.representations))
      && (created.Ok? ==> created.value == f.(activities := f.activities[activity.id := ActivityFact(activity, None)]))
  {
    hide ClosesCycle;
  }

  /** The job's state after an action that succeeded; the event that the action records. */
  ghost predicate LeavesJob(f: Facts, r: Result<Facts>, id: Uuid, state: JobState, event: Revisions.EventType)
    requires id in f.jobs
  {
    r == Ok(f.(jobs := f.jobs[id := f.jobs[id].(state := state)], log := f.log + [JobEvent(id, event)]))
  }

  /** A waiting job, or one whose claim has expired, can be claimed by anyone, and by nobody otherwise. */
  lemma ClaimSucceedsExactly(f: Facts, id: Uuid, token: Uuid, tool: string, now: I64, expires: I64)
    requires id in f.jobs
    ensures var s := f.jobs[id].state;
      var r := ActIn(f, id, Claim(token, tool, now, expires));
      if s == Requested || (s.Claimed? && s.claim.expires <= now)
      then LeavesJob(f, r, id, Claimed(JobClaim(token, tool, expires)), Revisions.JobClaimed)
      else r == Err(Conflict)
  {}

  /** The holder renews a live claim to a later expiry, fails it while it is live, and releases it at any time. */
  lemma HolderActsExactly(f: Facts, id: Uuid, token: Uuid, now: I64, expires: I64, diagnostic: string)
    requires id in f.jobs
    ensures var s := f.jobs[id].state;
      var held := s.Claimed? && s.claim.token == token;
      var renewed := ActIn(f, id, Renew(token, now, expires));
      var failed := ActIn(f, id, Fail(token, now, diagnostic));
      var released := ActIn(f, id, Release(token));
      && (if held && now < s.claim.expires < expires
          then LeavesJob(f, renewed, id, Claimed(JobClaim(token, s.claim.tool, expires)), Revisions.JobClaimRenewed)
          else renewed == Err(Conflict))
      && (if held && now < s.claim.expires
          then LeavesJob(f, failed, id, Failed(diagnostic), Revisions.JobFailed)
          else failed == Err(Conflict))
      && (if held
          then LeavesJob(f, released, id, Requested, Revisions.JobClaimReleased)
          else released == Err(Conflict))
  {}

  /** Every job that has not ended can be cancelled, by anyone. */
  lemma CancelSucceedsExactly(f: Facts, id: Uuid)
    requires id in f.jobs
    ensures var s := f.jobs[id].state;
      if s == Requested || s.Claimed?
      then LeavesJob(f, ActIn(f, id, Cancel), id, Cancelled, Revisions.JobCancelled)
      else ActIn(f, id, Cancel) == Err(Conflict)
  {}

  /** A media root is stored exactly under a new identity and a new name; removing takes what the handle lists. */
  lemma RootsAreStoredExactly(f: Facts, root: MediaRoot, listed: set<Uuid>, persists: bool)
    ensures var added, removed := AddRootTo(f, root, persists), RemoveRootFrom(f, root.id, listed);
      && (added.Ok? <==> root.id !in f.roots && (forall id :: id in f.roots ==> f.roots[id] != root.name) && persists)
      && (added.Ok? ==> added.value == f.(roots := f.roots[root.id := root.name]))
      && (removed.Ok? <==> root.id in listed)
      && (removed.Ok? ==> removed.value == f.(roots := map id | id in f.roots && id != root.id :: f.roots[id]))
  {}

  /**
   * A completion is stored exactly for a live claim held by the token and for results that answer the
   * request, are new, name what is there and close no cycle. Nothing but the job and its results changes.
   */
  lemma CompletionIsStoredExactly(f: Facts, id: Uuid, token: Uuid, now: I64, output: Import,
                                  activity: Provenance.Activity, persists: bool)
    requires id in f.jobs
    ensures var r := CompleteIn(f, id, token, now, output, activity, persists);
      var job, s := f.jobs[id], f.jobs[id].state;
      var representations := f.representations[output.id := RepresentationFact(output.asset, output.kind, Some(id))];
      var activities := f.activities[activity.id := ActivityFact(activity, Some(id))];
      var completion := JobCompletion(activity.id, output.id);
      && (r.Ok? <==>
            && s.Claimed? && s.claim.token == token && now < s.claim.expires
            && output.asset == job.asset && output.kind == job.outputKind
            && multiset(EdgeIds(activity.inputs)) == multiset(job.inputs) && EdgeIds(activity.outputs) == [output.id]
            && output.asset in f.assets && output.id !in f.representations && activity.id !in f.activities
            && (forall input :: input in job.inputs ==> input in f.representations || input == output.id)
            && !ClosesCycle(f, activity) && persists)
      && (r.Ok? ==>
            LeavesJob(f.(representations := representations, activities := activities), r, id,
                      Succeeded(completion), Revisions.JobSucceeded))
  {
    hide CompletionMatches, ClosesCycle, EdgesExist, EdgeIds;
    MatchIsSameEdges(f.jobs[id], output, activity);
    var withOutput := AddRepresentationTo(f, output, Some(id), persists);
    if withOutput.Ok? && CompletionMatches(f.jobs[id], output, activity) {
      SameLineage(f, withOutput.value, activity);
      CompletedEdges(f.jobs[id], withOutput.value, output, activity);
      assert forall r :: r in withOutput.value.representations <==> r in f.representations || r == output.id;
    }
  }

  /** The edges of a completion that answers the request exist exactly when the request's inputs do. */
  lemma CompletedEdges(job: Job, withOutput: Facts, output: Import, activity: Provenance.Activity)
    requires output.id in withOutput.representations
    requires multiset(EdgeIds(activity.inputs)) == multiset(job.inputs) && EdgeIds(activity.outputs) == [output.id]
    ensures EdgesExist(withOutput, activity.inputs) && EdgesExist(withOutput, activity.outputs)
       <==> forall input :: input in job.inputs ==> input in withOutput.representations
  {
    hide EdgeIds;
    forall input
      ensures input in EdgeIds(activity.inputs) <==> input in job.inputs
    {
      assert input in EdgeIds(activity.inputs) <==> input in multiset(EdgeIds(activity.inputs));
      assert input in job.inputs <==> input in multiset(job.inputs);
    }
  }

  lemma SameLineage(f: Facts, g: Facts, activity: Provenance.Activity)
    requires g.activities == f.activities
    ensures ClosesCycle(g, activity) == ClosesCycle(f, activity)
  {
    assert LineageOf(g) == LineageOf(f);
  }

  // ---- Why an operation is refused ----

  /** A request is refused for its state, then for what it names, then for its identity. */
  lemma RequestErrorsAreExact(f: Facts, id: Uuid, job: Job, listed: set<string>, persists: bool)
    ensures var r := RequestIn(f, id, job, listed, persists);
      var known := && (job.targetRoot.Some? ==> job.targetRoot.value in listed) && job.asset in f.assets
                   && forall input :: input in job.inputs ==> input in f.representations;
      && (r == Err(InvalidArgument) <==> job.state != Requested)
      && (r == Err(NotFound) <==> job.state == Requested && !known)
      && (r == Err(AlreadyExists) <==> job.state == Requested && known && id in f.jobs)
      && (r == Err(Storage) <==> job.state == Requested && known && id !in f.jobs && !persists)
  {}

  /** Representations and activities are refused for unknown references, known identities and cycles. */
  lemma AdditionErrorsAreExact(f: Facts, added: Import, activity: Provenance.Activity, persists: bool)
    ensures var imported := ImportOriginalTo(f, added, persists);
      var represented := AddRepresentationTo(f, added, None, persists);
      var created := CreateActivityIn(f, activity, None, persists);
      var known := forall id :: id in EdgeIds(activity.inputs) || id in EdgeIds(activity.outputs) ==>
                     id in f.representations;
      && (imported == Err(AlreadyExists) <==> added.asset in f.assets || added.id in f.representations)
      && (imported.Err? ==> imported.error == AlreadyExists || (!persists && imported.error == Storage))
      && (represented == Err(NotFound) <==> added.asset !in f.assets)
      && (represented == Err(AlreadyExists) <==> added.asset in f.assets && added.id in f.representations)
      && (represented.Err? ==> represented.error in {NotFound, AlreadyExists, Storage})
      && (created == Err(AlreadyExists) <==> activity.id in f.activities)
      && (created == Err(NotFound) <==> activity.id !in f.activities && !known)
      && (created == Err(Conflict) <==> activity.id !in f.activities && known && ClosesCycle(f, activity))
      && (created.Err? ==> created.error in {NotFound, AlreadyExists, Conflict, Storage})
  {
    hide ClosesCycle;
  }

  /** A completion is refused for the claim, then for the request, then for its output and its activity. */
  lemma CompletionErrorsAreExact(f: Facts, id: Uuid, token: Uuid, now: I64, output: Import,
                                 activity: Provenance.Activity, persists: bool)
    ensures var r := CompleteIn(f, id, token, now, output, activity, persists);
      if id !in f.jobs then
        r == Err(NotFound)
      else
        var job, s := f.jobs[id], f.jobs[id].state;
        var live := s.Claimed? && s.claim.token == token && now < s.claim.expires;
        var answers := && output.asset == job.asset && output.kind == job.outputKind
                       && multiset(EdgeIds(activity.inputs)) == multiset(job.inputs)
                       && EdgeIds(activity.outputs) == [output.id];
        && (!live ==> r == Err(Conflict))
        && (live && !answers ==> r == Err(InvalidArgument))
        && (live && answers && output.asset in f.assets && output.id in f.representations ==> r == Err(AlreadyExists))
        && (r == Err(InvalidArgument) ==> live && !answers)
        && (live && r == Err(Conflict) ==> ClosesCycle(f, activity))
  {
    hide CompletionMatches, ClosesCycle, EdgesExist, EdgeIds;
    if id in f.jobs {
      MatchIsSameEdges(f.jobs[id], output, activity);
      var withOutput := AddRepresentationTo(f, output, Some(id), persists);
      if withOutput.Ok? {
        SameLineage(f, withOutput.value, activity);
      }
    }
  }

  /** Actions on unknown jobs find nothing, roots are refused as duplicates or as unlisted. */
  lemma OtherErrorsAreExact(f: Facts, id: Uuid, action: Action, root: MediaRoot, listed: set<Uuid>, persists: bool)
    ensures ActIn(f, id, action) == Err(NotFound) <==> id !in f.jobs
    ensures ActIn(f, id, action).Err? ==> ActIn(f, id, action).error in {NotFound, Conflict}
    ensures AddRootTo(f, root, persists) == Err(AlreadyExists)
       <==> root.id in f.roots || exists other :: other in f.roots && f.roots[other] == root.name
    ensures AddRootTo(f, root, persists).Err? ==> AddRootTo(f, root, persists).error in {AlreadyExists, Storage}
    ensures RemoveRootFrom(f, id, listed).Err? ==> RemoveRootFrom(f, id, listed).error == NotFound
  {}

  // ---- Transactions ----

  /** Operations need an open transaction, change only what it has staged, and change nothing when they fail. */
  lemma OperationsAreStaged(s: System, op: Op)
    requires !op.Begin? && !op.Commit? && !op.Rollback?
    ensures var (after, r) := Step(s, op);
      && after.durable == s.durable
      && (r.Err? ==> after == s)
      && (r.Ok? <==>
            && s.staged.Some? && Mutate(s.staged.value, op).Ok?
            && (op.Act? && (op.action.Claim? || op.action.Renew?) ==> op.action.now < op.action.expires))
      && (r.Ok? ==> after.staged == Some(Mutate(s.staged.value, op).value))
      && (op.Act? && op.action.Succeed? ==> r.Err?)
  {
    hide CompletionMatches, ClosesCycle, EdgesExist;
  }

  /**
   * A transaction begins with the durable facts. A commit makes all of them durable or none: a revision that
   * cannot be stored leaves it open, a commit that fails ends it, and so does a rollback.
   */
  lemma TransactionsAreAtomic(s: System, outcome: CommitOutcome)
    ensures Step(s, Begin) == if s.staged.None? then (System(s.durable, Some(s.durable)), Ok(())) else (s, Err(Storage))
    ensures s.staged.None? ==>
      Step(s, Commit(outcome)) == (s, Err(Conflict)) && Step(s, Rollback) == (s, Err(Conflict))
    ensures s.staged.Some? ==>
      && Step(s, Rollback) == (System(s.durable, None), Ok(()))
      && Step(s, Commit(Commits)) == (System(s.staged.value, None), Ok(()))
      && Step(s, Commit(RevisionFails)) == (s, Err(Storage))
      && Step(s, Commit(CommitFails)) == (System(s.durable, None), Err(Storage))
  {}

  // ---- The operations that facts come from ----

  predicate Requests(op: Op, id: Uuid, job: Job) {
    op.RequestJob? && op.id == id && op.job == job
  }

  predicate Claims(op: Op, id: Uuid, token: Uuid, tool: string) {
    op.Act? && op.id == id && op.action.Claim? && op.action.token == token && op.action.tool == tool
  }

  predicate SetsExpiry(op: Op, id: Uuid, token: Uuid, expires: I64) {
    && op.Act? && op.id == id && (op.action.Claim? || op.action.Renew?)
    && op.action.token == token && op.action.expires == expires
  }

  predicate Completes(op: Op, id: Uuid, completion: JobCompletion) {
    && op.CompleteJob? && op.id == id
    && op.output.id == completion.representation && op.activity.id == completion.activity
  }

  predicate Adds(op: Op, added: Import) {
    || ((op.ImportOriginal? || op.AddRepresentation?) && op.added == added)
    || (op.CompleteJob? && op.output == added)
  }

  predicate Creates(op: Op, activity: Provenance.Activity) {
    (op.CreateActivity? || op.CompleteJob?) && op.activity == activity
  }

  ghost predicate JobHasOrigin(ops: seq<Op>, id: Uuid, job: Job) {
    && (exists op :: op in ops && Requests(op, id, job.(state := Requested)))
    && match job.state
       case Requested => true
       case Claimed(c) =>
         && (exists op :: op in ops && Claims(op, id, c.token, c.tool))
         && (exists op :: op in ops && SetsExpiry(op, id, c.token, c.expires))
       case Succeeded(c) => exists op :: op in ops && Completes(op, id, c)
       case Failed(d) =>
         exists op :: op in ops && op.Act? && op.id == id && op.action.Fail? && op.action.diagnostic == d
       case Cancelled => Act(id, Cancel) in ops
  }

  ghost predicate RepresentationHasOrigin(ops: seq<Op>, id: Uuid, fact: RepresentationFact) {
    exists op :: op in ops && Adds(op, Import(id, fact.asset, fact.kind))
  }

  ghost predicate ActivityHasOrigin(ops: seq<Op>, id: Uuid, fact: ActivityFact) {
    fact.activity.id == id && exists op :: op in ops && Creates(op, fact.activity)
  }

  ghost predicate HaveOrigins(f: Facts, ops: seq<Op>) {
    && (forall id :: id in f.jobs ==> JobHasOrigin(ops, id, f.jobs[id]))
    && (forall r :: r in f.representations ==> RepresentationHasOrigin(ops, r, f.representations[r]))
    && (forall a :: a in f.activities ==> ActivityHasOrigin(ops, a, f.activities[a]))
  }

  lemma JobKeepsOrigin(ops: seq<Op>, op: Op, id: Uuid, job: Job)
    requires JobHasOrigin(ops, id, job)
    ensures JobHasOrigin(ops + [op], id, job)
  {
    var requested :| requested in ops && Requests(requested, id, job.(state := Requested));
    assert requested in ops + [op];
    match job.state
    case Claimed(c) =>
      var claim :| claim in ops && Claims(claim, id, c.token, c.tool);
      var expiry :| expiry in ops && SetsExpiry(expiry, id, c.token, c.expires);
      assert claim in ops + [op] && expiry in ops + [op];
    case Succeeded(c) =>
      var completion :| completion in ops && Completes(completion, id, c);
      assert completion in ops + [op];
    case Failed(d) =>
      var failure :| failure in ops && failure.Act? && failure.id == id && failure.action.Fail?
                     && failure.action.diagnostic == d;
      assert failure in ops + [op];
    case _ =>
  }

  lemma MoreOperations(f: Facts, ops: seq<Op>, op: Op)
    requires HaveOrigins(f, ops)
    ensures HaveOrigins(f, ops + [op])
  {
    hide JobHasOrigin;
    forall id | id in f.jobs
      ensures JobHasOrigin(ops + [op], id, f.jobs[id])
    {
      JobKeepsOrigin(ops, op, id, f.jobs[id]);
    }
    forall r | r in f.representations
      ensures RepresentationHasOrigin(ops + [op], r, f.representations[r])
    {
      var fact := f.representations[r];
      var added :| added in ops && Adds(added, Import(r, fact.asset, fact.kind));
      assert added in ops + [op];
    }
    forall a | a in f.activities
      ensures ActivityHasOrigin(ops + [op], a, f.activities[a])
    {
      var created :| created in ops && Creates(created, f.activities[a].activity);
      assert created in ops + [op];
    }
  }

  /** An action gives the job's new state its origin. */
  lemma ActionHasOrigin(f: Facts, ops: seq<Op>, id: Uuid, action: Action)
    requires HaveOrigins(f, ops) && !action.Succeed? && ActIn(f, id, action).Ok?
    ensures HaveOrigins(ActIn(f, id, action).value, ops + [Act(id, action)])
  {
    var op, g := Act(id, action), ActIn(f, id, action).value;
    MoreOperations(f, ops, op);
    assert op in ops + [op];
    assert JobHasOrigin(ops + [op], id, f.jobs[id]);
    assert g.jobs[id].(state := Requested) == f.jobs[id].(state := Requested);
    assert JobHasOrigin(ops + [op], id, g.jobs[id]) by {
      ActedJobHasOrigin(ops, id, f.jobs[id], g.jobs[id], action);
    }
  }

  lemma ActedJobHasOrigin(ops: seq<Op>, id: Uuid, before: Job, after: Job, action: Action)
    requires JobHasOrigin(ops + [Act(id, action)], id, before) && !action.Succeed?
    requires Transition(before.state, action) == Some(after.state) && after == before.(state := after.state)
    ensures JobHasOrigin(ops + [Act(id, action)], id, after)
  {
    var op := Act(id, action);
    assert op in ops + [op];
    var requested :| requested in ops + [op] && Requests(requested, id, before.(state := Requested));
    assert Requests(requested, id, after.(state := Requested));
    match action
    case Claim(token, tool, now, expires) =>
      assert Claims(op, id, token, tool) && SetsExpiry(op, id, token, expires);
    case Renew(token, now, expires) =>
      var claim :| claim in ops + [op] && Claims(claim, id, token, before.state.claim.tool);
      assert SetsExpiry(op, id, token, expires);
    case _ =>
  }

  lemma RequestHasOrigin(f: Facts, ops: seq<Op>, op: Op)
    requires op.RequestJob? && HaveOrigins(f, ops) && Mutate(f, op).Ok?
    ensures HaveOrigins(Mutate(f, op).value, ops + [op])
  {
    hide JobHasOrigin;
    MoreOperations(f, ops, op);
    RequestIsStoredExactly(f, op.id, op.job, op.names, op.persists);
    assert op in ops + [op];
    assert JobHasOrigin(ops + [op], op.id, op.job) by { NewJobHasOrigin(ops + [op], op); }
  }

  lemma NewJobHasOrigin(ops: seq<Op>, op: Op)
    requires op in ops && op.RequestJob? && op.job.state == Requested
    ensures JobHasOrigin(ops, op.id, op.job)
  {
    assert Requests(op, op.id, op.job.(state := Requested));
  }

  lemma CompletionHasOrigin(f: Facts, ops: seq<Op>, op: Op)
    requires op.CompleteJob? && HaveOrigins(f, ops) && Mutate(f, op).Ok?
    ensures HaveOrigins(Mutate(f, op).value, ops + [op])
  {
    hide JobHasOrigin, CompletionMatches, ClosesCycle, EdgesExist;
    var g := Mutate(f, op).value;
    MoreOperations(f, ops, op);
    assert op in ops + [op];
    var completion := JobCompletion(op.activity.id, op.output.id);
    assert g.jobs == f.jobs[op.id := f.jobs[op.id].(state := Succeeded(completion))];
    CompletedJobHasOrigin(ops + [op], op, f.jobs[op.id], g.jobs[op.id]);
    assert Adds(op, op.output) && Creates(op, op.activity);
  }

  lemma CompletedJobHasOrigin(ops: seq<Op>, op: Op, before: Job, after: Job)
    requires op in ops && op.CompleteJob? && JobHasOrigin(ops, op.id, before)
    requires after == before.(state := Succeeded(JobCompletion(op.activity.id, op.output.id)))
    ensures JobHasOrigin(ops, op.id, after)
  {
    var requested :| requested in ops && Requests(requested, op.id, before.(state := Requested));
    assert Requests(requested, op.id, after.(state := Requested));
    assert Completes(op, op.id, after.state.completion);
  }

  lemma OtherMutationHasOrigin(f: Facts, ops: seq<Op>, op: Op)
    requires !op.Begin? && !op.Commit? && !op.Rollback? && !op.RequestJob? && !op.Act? && !op.CompleteJob?
    requires HaveOrigins(f, ops) && Mutate(f, op).Ok?
    ensures HaveOrigins(Mutate(f, op).value, ops + [op])
  {
    hide JobHasOrigin, ClosesCycle, EdgesExist;
    MoreOperations(f, ops, op);
    assert op in ops + [op];
    if op.CreateActivity? {
      assert Creates(op, op.activity);
    } else if op.ImportOriginal? || op.AddRepresentation? {
      assert Adds(op, op.added);
    }
  }

  lemma {:induction false} RunHasOrigins(ops: seq<Op>)
    ensures HaveOrigins(Run(NEW_SYSTEM, ops).durable, ops)
    ensures Run(NEW_SYSTEM, ops).staged.Some? ==> HaveOrigins(Run(NEW_SYSTEM, ops).staged.value, ops)
  {
    hide Step, HaveOrigins;
    if ops != [] {
      var front, op := ops[..|ops| - 1], ops[|ops| - 1];
      RunHasOrigins(front);
      assert ops == front + [op];
      StepHasOrigins(Run(NEW_SYSTEM, front), front, op);
    } else {
      NothingHasOrigins();
    }
  }

  lemma NothingHasOrigins()
    ensures HaveOrigins(NO_FACTS, [])
  {}

  lemma StepHasOrigins(s: System, ops: seq<Op>, op: Op)
    requires HaveOrigins(s.durable, ops) && (s.staged.Some? ==> HaveOrigins(s.staged.value, ops))
    ensures var after := Step(s, op).0;
      && HaveOrigins(after.durable, ops + [op])
      && (after.staged.Some? ==> HaveOrigins(after.staged.value, ops + [op]))
  {
    hide Mutate, HaveOrigins;
    MoreOperations(s.durable, ops, op);
    if s.staged.Some? {
      MoreOperations(s.staged.value, ops, op);
      if !op.Begin? && !op.Commit? && !op.Rollback? && Mutate(s.staged.value, op).Ok? {
        MutationHasOrigin(s.staged.value, ops, op);
      }
    }
  }

  lemma MutationHasOrigin(f: Facts, ops: seq<Op>, op: Op)
    requires !op.Begin? && !op.Commit? && !op.Rollback?
    requires HaveOrigins(f, ops) && Mutate(f, op).Ok?
    ensures HaveOrigins(Mutate(f, op).value, ops + [op])
  {
    if op.RequestJob? {
      hide HaveOrigins;
      RequestHasOrigin(f, ops, op);
    } else if op.Act? {
      hide HaveOrigins;
      ActionHasOrigin(f, ops, op.id, op.action);
    } else if op.CompleteJob? {
      hide HaveOrigins, Mutate;
      CompletionHasOrigin(f, ops, op);
    } else {
      hide HaveOrigins, Mutate;
      OtherMutationHasOrigin(f, ops, op);
    }
  }

  // ---- Main results ----

  /** Every stored job is one that a request of the run asked for, as it asked for it. */
  lemma JobsComeFromRequests(ops: seq<Op>, id: Uuid)
    requires id in Run(NEW_SYSTEM, ops).durable.jobs
    ensures exists k :: && 0 <= k < |ops| && ops[k].RequestJob? && ops[k].id == id
                        && Run(NEW_SYSTEM, ops).durable.jobs[id].(state := Requested) == ops[k].job
  {
    hide Run;
    RunHasOrigins(ops);
    var job := Run(NEW_SYSTEM, ops).durable.jobs[id];
    assert JobHasOrigin(ops, id, job);
    var op :| op in ops && Requests(op, id, job.(state := Requested));
    var k :| 0 <= k < |ops| && ops[k] == op;
  }

  /** Every stored state, claim and outcome is what some operation of the run on that job gave. */
  lemma StatesComeFromOperations(ops: seq<Op>, id: Uuid)
    requires id in Run(NEW_SYSTEM, ops).durable.jobs
    ensures JobHasOrigin(ops, id, Run(NEW_SYSTEM, ops).durable.jobs[id])
  {
    hide Run, JobHasOrigin;
    RunHasOrigins(ops);
  }

  /** The completion gave a succeeded job its outcome, and its output and activity are stored as it gave them. */
  ghost predicate IsCompletionOf(op: Op, f: Facts, id: Uuid) {
    && id in f.jobs && op.CompleteJob? && op.id == id
    && f.jobs[id].state == Succeeded(JobCompletion(op.activity.id, op.output.id))
    && op.activity.id in f.activities && f.activities[op.activity.id].activity == op.activity
    && op.output.id in f.representations
    && f.representations[op.output.id].asset == op.output.asset
    && f.representations[op.output.id].kind == op.output.kind
  }

  ghost predicate AreCompleted(f: Facts, ops: seq<Op>) {
    forall id :: id in f.jobs && f.jobs[id].state.Succeeded? ==> exists op :: op in ops && IsCompletionOf(op, f, id)
  }

  /** Later facts keep what a completion gave. */
  lemma LaterKeepsCompletion(op: Op, f: Facts, later: Facts, id: Uuid)
    requires Follows(f, later) && IsCompletionOf(op, f, id)
    ensures IsCompletionOf(op, later, id)
  {
    assert JobFollows(f, later, id);
  }

  lemma MutationKeepsCompletions(f: Facts, ops: seq<Op>, op: Op)
    requires !op.Begin? && !op.Commit? && !op.Rollback?
    requires Consistent(f) && AreCompleted(f, ops) && Mutate(f, op).Ok?
    ensures AreCompleted(Mutate(f, op).value, ops + [op])
  {
    hide Consistent, Follows, IsCompletionOf;
    var g := Mutate(f, op).value;
    MutationKeepsConsistency(f, op);
    forall id | id in g.jobs && g.jobs[id].state.Succeeded?
      ensures exists c :: c in ops + [op] && IsCompletionOf(c, g, id)
    {
      if id in f.jobs && f.jobs[id].state.Succeeded? {
        var c :| c in ops && IsCompletionOf(c, f, id);
        LaterKeepsCompletion(c, f, g, id);
        assert c in ops + [op];
      } else {
        NewlySucceeded(f, op, id);
        assert op in ops + [op];
      }
    }
  }

  lemma NewlySucceeded(f: Facts, op: Op, id: Uuid)
    requires !op.Begin? && !op.Commit? && !op.Rollback? && Mutate(f, op).Ok?
    requires id in Mutate(f, op).value.jobs && Mutate(f, op).value.jobs[id].state.Succeeded?
    requires !(id in f.jobs && f.jobs[id].state.Succeeded?)
    ensures IsCompletionOf(op, Mutate(f, op).value, id)
  {
    hide CompletionMatches, ClosesCycle, EdgesExist;
  }

  lemma MoreCompletions(f: Facts, ops: seq<Op>, op: Op)
    requires AreCompleted(f, ops)
    ensures AreCompleted(f, ops + [op])
  {
    hide IsCompletionOf;
    forall id | id in f.jobs && f.jobs[id].state.Succeeded?
      ensures exists c :: c in ops + [op] && IsCompletionOf(c, f, id)
    {
      var c :| c in ops && IsCompletionOf(c, f, id);
      assert c in ops + [op];
    }
  }

  ghost predicate IsSystemCompleted(s: System, ops: seq<Op>) {
    AreCompleted(s.durable, ops) && (s.staged.Some? ==> AreCompleted(s.staged.value, ops))
  }

  lemma StagedIsConsistent(s: System)
    requires SystemInvariant(s) && s.staged.Some?
    ensures Consistent(s.staged.value)
  {}

  lemma StepKeepsCompletions(s: System, ops: seq<Op>, op: Op)
    requires SystemInvariant(s) && IsSystemCompleted(s, ops)
    ensures IsSystemCompleted(Step(s, op).0, ops + [op])
  {
    hide Mutate, SystemInvariant, Consistent, AreCompleted;
    MoreCompletions(s.durable, ops, op);
    if s.staged.Some? {
      StagedIsConsistent(s);
      MoreCompletions(s.staged.value, ops, op);
      if !op.Begin? && !op.Commit? && !op.Rollback? && Mutate(s.staged.value, op).Ok? {
        MutationKeepsCompletions(s.staged.value, ops, op);
      }
    }
  }

  lemma {:induction false} RunIsCompleted(ops: seq<Op>)
    ensures IsSystemCompleted(Run(NEW_SYSTEM, ops), ops)
  {
    hide Step, SystemInvariant, IsSystemCompleted;
    if ops == [] {
      assert IsSystemCompleted(NEW_SYSTEM, ops) by { NothingIsCompleted(); }
    } else {
      var front, op := ops[..|ops| - 1], ops[|ops| - 1];
      RunIsCompleted(front);
      ReachableInvariant(front);
      StepKeepsCompletions(Run(NEW_SYSTEM, front), front, op);
      assert ops == front + [op];
    }
  }

  lemma NothingIsCompleted()
    ensures IsSystemCompleted(NEW_SYSTEM, [])
  {}

  /**
   * A succeeded job has the output and the activity that one completion of the run gave it, stored as they
   * were given, and these are what its request asked for: asset, kind, inputs, and the one output.
   */
  lemma SucceededJobsAnswerTheirRequests(ops: seq<Op>, id: Uuid) returns (request: Op, completion: Op)
    requires id in Run(NEW_SYSTEM, ops).durable.jobs && Run(NEW_SYSTEM, ops).durable.jobs[id].state.Succeeded?
    ensures request in ops && request.RequestJob? && request.id == id
    ensures completion in ops && IsCompletionOf(completion, Run(NEW_SYSTEM, ops).durable, id)
    ensures completion.output.asset == request.job.asset && completion.output.kind == request.job.outputKind
    ensures multiset(EdgeIds(completion.activity.inputs)) == multiset(request.job.inputs)
    ensures EdgeIds(completion.activity.outputs) == [completion.output.id]
  {
    hide Run;
    var f := Run(NEW_SYSTEM, ops).durable;
    JobsComeFromRequests(ops, id);
    var k :| && 0 <= k < |ops| && ops[k].RequestJob? && ops[k].id == id
             && f.jobs[id].(state := Requested) == ops[k].job;
    request := ops[k];
    RunIsCompleted(ops);
    completion :| completion in ops && IsCompletionOf(completion, f, id);
    CompletionsAnswerRequests(ops, id);
  }
}
