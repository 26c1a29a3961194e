/**
 * The job lease protocol: states, guards, transactions and runs (crates/postproject-core/src/job.rs,
 * crates/postproject-core/src/storage.rs, crates/postproject-storage-sqlite/src/transaction.rs).
 */
module Jobs {
  import opened Wrappers
  import opened Machine
  import opened Orders
  import opened Identity
  import opened Keys
  import Provenance
  import Revisions
  import Lineage

  const MAX_JOB_INPUTS := 100_000

  // ---- Values ----

  datatype JobClaim = JobClaim(token: Uuid, tool: string, expires: I64)

  datatype JobCompletion = JobCompletion(activity: Uuid, representation: Uuid)

  datatype JobState =
    | Requested
    | Claimed(claim: JobClaim)
    | Succeeded(completion: JobCompletion)
    | Failed(diagnostic: string)
    | Cancelled
  {
    predicate IsTerminal() {
      Succeeded? || Failed? || Cancelled?
    }

    function Kind(): JobStateKind {
      match this
      case Requested => KindRequested
      case Claimed(_) => KindClaimed
      case Succeeded(_) => KindSucceeded
      case Failed(_) => KindFailed
      case Cancelled => KindCancelled
    }

    predicate HeldBy(token: Uuid) {
      Claimed? && claim.token == token
    }
  }

  datatype JobStateKind = KindRequested | KindClaimed | KindSucceeded | KindFailed | KindCancelled

  /** The category tells the state apart, and three of the five categories are final. */
  lemma KindsTellStates(state: JobState)
    ensures state.Kind() == KindRequested <==> state == Requested
    ensures state.Kind() == KindClaimed <==> state.Claimed?
    ensures state.Kind() == KindSucceeded <==> state.Succeeded?
    ensures state.Kind() == KindFailed <==> state.Failed?
    ensures state.Kind() == KindCancelled <==> state == Cancelled
    ensures state.IsTerminal() <==> state != Requested && !state.Claimed?
  {}

  datatype RepresentationKind = Original | Proxy | Optimized | Derived

  datatype Job = Job(
    kind: string, inputs: seq<Uuid>, asset: Uuid, outputKind: RepresentationKind, targetRoot: Option<string>,
    state: JobState)

  /** `Job::new`: inputs are sorted; a shorter list after deduplication means a duplicate. */
  function NewJob(kind: string, inputs: seq<Uuid>, asset: Uuid, outputKind: RepresentationKind,
                  targetRoot: Option<string>): Result<Job> {
    if |inputs| > MAX_JOB_INPUTS then
      Err(InvalidArgument)
    else
      var canonical := Dedup(Sort(UuidLeq(), inputs));
      if |canonical| != |inputs| then
        Err(InvalidArgument)
      else
        Ok(Job.Job(kind, canonical, asset, outputKind, targetRoot, Requested))
  }

  /** A request is accepted exactly for bounded distinct inputs, and their order does not matter. */
  lemma JobInputsAreCanonical(kind: string, a: seq<Uuid>, b: seq<Uuid>, asset: Uuid, outputKind: RepresentationKind,
                              targetRoot: Option<string>)
    ensures var job := NewJob(kind, a, asset, outputKind, targetRoot);
      var other := NewJob(kind, b, asset, outputKind, targetRoot);
      && (job.Ok? <==> |a| <= 100_000 && Distinct(a))
      && (job.Ok? ==>
            && job.value.kind == kind && job.value.asset == asset && job.value.outputKind == outputKind
            && job.value.targetRoot == targetRoot && job.value.state == Requested
            && multiset(job.value.inputs) == multiset(a) && job.value.inputs == Sort(UuidLeq(), a)
            && Ascend(job.value.inputs))
      && (job.Ok? && other.Ok? ==> (job == other <==> multiset(a) == multiset(b)))
  {
    hide UuidLeq, Distinct, Sorted;
    JobInputsDecide(a);
    JobInputsDecide(b);
    UuidOrderIsTotal();
    SortIsCanonical(UuidLeq(), a, b);
    SortSorts(UuidLeq(), a);
    SortedInputsAscend(Sort(UuidLeq(), a));
    SameElementsSameDistinctness(a, Sort(UuidLeq(), a));
  }

  /** Strictly ascending in the order of their bytes. */
  ghost predicate Ascend(ids: seq<Uuid>) {
    forall i, j :: 0 <= i < j < |ids| ==> BytewiseBelow(ids[i], ids[j])
  }

  lemma SortedInputsAscend(ids: seq<Uuid>)
    requires Sorted(UuidLeq(), ids)
    ensures Distinct(ids) ==> Ascend(ids)
  {
    hide UuidLeq, BytewiseBelow;
    if Distinct(ids) {
      forall i, j | 0 <= i < j < |ids|
        ensures BytewiseBelow(ids[i], ids[j])
      {
        IdentitiesAreBytewise(ids[i], ids[j]);
      }
    }
  }

  lemma JobInputsDecide(inputs: seq<Uuid>)
    ensures var sorted := Sort(UuidLeq(), inputs);
      (|Dedup(sorted)| == |inputs| <==> Distinct(inputs)) && (Distinct(inputs) ==> Dedup(sorted) == sorted)
  {
    hide UuidLeq, Distinct, Sorted;
    var sorted := Sort(UuidLeq(), inputs);
    UuidOrderIsTotal();
    SortSorts(UuidLeq(), inputs);
    DedupOfSorted(UuidLeq(), sorted);
    SameElementsSameDistinctness(inputs, sorted);
    if Distinct(inputs) {
      DedupOfDistinct(sorted);
    }
  }

  lemma {:induction false} DedupOfDistinct<T>(s: seq<T>)
    requires Distinct(s)
    ensures Dedup(s) == s
  {
    if |s| > 1 {
      DedupOfDistinct(s[..|s| - 1]);
      assert s[|s| - 2] != s[|s| - 1];
      assert s == s[..|s| - 1] + [s[|s| - 1]];
    }
  }

  // ---- The guards of one job ----

  /** The lease is live: its expiry is after the caller's clock. */
  predicate Live(claim: JobClaim, now: I64) {
    claim.expires > now
  }

  datatype Action =
    | Claim(token: Uuid, tool: string, now: I64, expires: I64)
    | Renew(token: Uuid, now: I64, expires: I64)
    | Release(token: Uuid)
    | Fail(token: Uuid, now: I64, diagnostic: string)
    | Succeed(token: Uuid, now: I64, completion: JobCompletion)
    | Cancel

  /** The state an action leads to, or nothing when its guard refuses it. */
  function Transition(state: JobState, action: Action): Option<JobState> {
    match action
    case Claim(token, tool, now, expires) =>
      if state.Requested? || (state.Claimed? && !Live(state.claim, now))
      then Some(Claimed(JobClaim(token, tool, expires))) else None
    case Renew(token, now, expires) =>
      if state.HeldBy(token) && Live(state.claim, now) && state.claim.expires < expires
      then Some(Claimed(state.claim.(expires := expires))) else None
    case Release(token) =>
      if state.HeldBy(token) then Some(Requested) else None
    case Fail(token, now, diagnostic) =>
      if state.HeldBy(token) && Live(state.claim, now) then Some(Failed(diagnostic)) else None
    case Succeed(token, now, completion) =>
      if state.HeldBy(token) && Live(state.claim, now) then Some(Succeeded(completion)) else None
    case Cancel =>
      if state.Requested? || state.Claimed? then Some(Cancelled) else None
  }

  /** Claiming and renewing demand an expiry after the caller's clock. */
  predicate ExpiryIsFuture(action: Action) {
    (action.Claim? || action.Renew? ==> action.expires > action.now)
  }

  function EventOf(action: Action): Revisions.EventType {
    match action
    case Claim(_, _, _, _) => Revisions.JobClaimed
    case Renew(_, _, _) => Revisions.JobClaimRenewed
    case Release(_) => Revisions.JobClaimReleased
    case Fail(_, _, _) => Revisions.JobFailed
    case Succeed(_, _, _) => Revisions.JobSucceeded
    case Cancel => Revisions.JobCancelled
  }

  /** At any clock value exactly one of the holder's finishing actions and a rival's claim is allowed. */
  lemma HolderAndRivalExclude(state: JobState, token: Uuid, rival: Uuid, now: I64, expires: I64, tool: string,
                              diagnostic: string, completion: JobCompletion)
    requires state.HeldBy(token)
    ensures var claimable := Transition(state, Claim(rival, tool, now, expires)).Some?;
      && (claimable <==> Transition(state, Fail(token, now, diagnostic)).None?)
      && (claimable <==> Transition(state, Succeed(token, now, completion)).None?)
  {}

  // ---- Stored facts ----

  /** The job whose completion staged the fact is history of this model, not a stored column. */
  datatype RepresentationFact = RepresentationFact(asset: Uuid, kind: RepresentationKind, origin: Option<Uuid>)

  datatype ActivityFact = ActivityFact(activity: Provenance.Activity, origin: Option<Uuid>)

  datatype JobEvent = JobEvent(job: Uuid, event: Revisions.EventType)

  datatype Facts = Facts(
    assets: set<Uuid>,
    representations: map<Uuid, RepresentationFact>,
    activities: map<Uuid, ActivityFact>,
    jobs: map<Uuid, Job>,
    log: seq<JobEvent>,
    roots: map<Uuid, string>)

  const NO_FACTS := Facts({}, map[], map[], map[], [], map[])

  datatype Import = Import(id: Uuid, asset: Uuid, kind: RepresentationKind)

  function EdgeIds(edges: seq<Provenance.Edge>): seq<Uuid> {
    seq(|edges|, i requires 0 <= i < |edges| => edges[i].representation)
  }

  // ---- Mutations of an open transaction ----

  /**
   * A media root by its name. Every handle lists the roots on its own: it loads them when it opens the
   * production, and only its own commits change its list. Operations that look at it carry what it lists.
   */
  datatype MediaRoot = MediaRoot(id: Uuid, name: string)

  /** Persisting the revision can fail, which leaves the transaction open, and so can the commit, which ends it. */
  datatype CommitOutcome = Commits | RevisionFails | CommitFails

  datatype Op =
    | Begin
    | Commit(outcome: CommitOutcome)
    | Rollback
    | ImportOriginal(added: Import, persists: bool)
    | AddRepresentation(added: Import, persists: bool)
    | CreateActivity(activity: Provenance.Activity, persists: bool)
    | AddMediaRoot(root: MediaRoot, persists: bool)
    | RemoveMediaRoot(id: Uuid, listed: set<Uuid>)
    | RequestJob(id: Uuid, job: Job, names: set<string>, persists: bool)
    | Act(id: Uuid, action: Action)
    | CompleteJob(id: Uuid, token: Uuid, now: I64, output: Import, activity: Provenance.Activity, persists: bool)

  function AddRepresentationTo(f: Facts, added: Import, origin: Option<Uuid>, persists: bool): Result<Facts> {
    if added.asset !in f.assets then
      Err(NotFound)
    else if added.id in f.representations then
      Err(AlreadyExists)
    else if !persists then
      Err(Storage)
    else
      Ok(f.(representations := f.representations[added.id := RepresentationFact(added.asset, added.kind, origin)]))
  }

  predicate EdgesExist(f: Facts, edges: seq<Provenance.Edge>) {
    forall id :: id in EdgeIds(edges) ==> id in f.representations
  }

  function LineageOf(f: Facts): Lineage.Graph {
    map a | a in f.activities :: f.activities[a].activity
  }

  predicate ClosesCycle(f: Facts, activity: Provenance.Activity) {
    Lineage.CreatesCycle(LineageOf(f)[activity.id := activity], activity.id)
  }

  function CreateActivityIn(f: Facts, activity: Provenance.Activity, origin: Option<Uuid>, persists: bool)
    : Result<Facts>
  {
    if activity.id in f.activities then
      Err(AlreadyExists)
    else if !EdgesExist(f, activity.inputs) || !EdgesExist(f, activity.outputs) then
      Err(NotFound)
    else if ClosesCycle(f, activity) then
      Err(Conflict)
    else if !persists then
      Err(Storage)
    else
      Ok(f.(activities := f.activities[activity.id := ActivityFact(activity, origin)]))
  }

  function ImportOriginalTo(f: Facts, added: Import, persists: bool): Result<Facts> {
    if added.asset in f.assets then
      Err(AlreadyExists)
    else
      AddRepresentationTo(f.(assets := f.assets + {added.asset}), added, None, persists)
  }

  function AddRootTo(f: Facts, root: MediaRoot, persists: bool): Result<Facts> {
    if root.id in f.roots || root.name in f.roots.Values then
      Err(AlreadyExists)
    else if !persists then
      Err(Storage)
    else
      Ok(f.(roots := f.roots[root.id := root.name]))
  }

  function RemoveRootFrom(f: Facts, id: Uuid, listed: set<Uuid>): Result<Facts> {
    if id !in listed then Err(NotFound) else Ok(f.(roots := f.roots - {id}))
  }

  function RequestIn(f: Facts, id: Uuid, job: Job, listed: set<string>, persists: bool): Result<Facts> {
    if !job.state.Requested? then
      Err(InvalidArgument)
    else if job.targetRoot.Some? && job.targetRoot.value !in listed then
      Err(NotFound)
    else if job.asset !in f.assets then
      Err(NotFound)
    else if exists input :: input in job.inputs && input !in f.representations then
      Err(NotFound)
    else if id in f.jobs then
      Err(AlreadyExists)
    else if !persists then
      Err(Storage)
    else
      Ok(f.(jobs := f.jobs[id := job], log := f.log + [JobEvent(id, Revisions.JobRequested)]))
  }

  function ActIn(f: Facts, id: Uuid, action: Action): Result<Facts> {
    if id !in f.jobs then
      Err(NotFound)
    else
      match Transition(f.jobs[id].state, action)
      case None => Err(Conflict)
      case Some(state) =>
        Ok(f.(jobs := f.jobs[id := f.jobs[id].(state := state)], log := f.log + [JobEvent(id, EventOf(action))]))
  }

  /**
   * The handle's list decides about a request's target root, whatever roots are stored: a stored root that
   * the handle does not list is refused, and a listed root that is gone is accepted.
   */
  lemma ListedRootsDecide(f: Facts, id: Uuid, job: Job, listed: set<string>, root: Uuid, name: string)
    requires job.state.Requested? && job.targetRoot == Some(name)
    ensures name !in listed ==> RequestIn(f.(roots := f.roots[root := name]), id, job, listed, true) == Err(NotFound)
    ensures name in listed ==>
      (RequestIn(f.(roots := map[]), id, job, listed, true).Ok?
       <==> RequestIn(f.(roots := map[]), id, job.(targetRoot := None), listed, true).Ok?)
  {}

  /** The completion answers the request: asset, kind, inputs in any order, and the one output. */
  predicate CompletionMatches(job: Job, output: Import, activity: Provenance.Activity) {
    && output.asset == job.asset && output.kind == job.outputKind
    && Sort(UuidLeq(), EdgeIds(activity.inputs)) == Sort(UuidLeq(), job.inputs)
    && |activity.outputs| == 1 && activity.outputs[0].representation == output.id
  }

  /** In other words: the same inputs, in whatever order, and the one output. */
  lemma MatchIsSameEdges(job: Job, output: Import, activity: Provenance.Activity)
    ensures CompletionMatches(job, output, activity) <==>
      && output.asset == job.asset && output.kind == job.outputKind
      && multiset(EdgeIds(activity.inputs)) == multiset(job.inputs) && EdgeIds(activity.outputs) == [output.id]
  {
    UuidOrderIsTotal();
    SortIsCanonical(UuidLeq(), EdgeIds(activity.inputs), job.inputs);
    if |activity.outputs| == 1 {
      assert EdgeIds(activity.outputs)[0] == activity.outputs[0].representation;
    }
    assert |EdgeIds(activity.outputs)| == |activity.outputs|;
  }

  function CompleteIn(f: Facts, id: Uuid, token: Uuid, now: I64, output: Import, activity: Provenance.Activity,
                      persists: bool): Result<Facts> {
    if id !in f.jobs then
      Err(NotFound)
    else if !f.jobs[id].state.HeldBy(token) || !Live(f.jobs[id].state.claim, now) then
      Err(Conflict)
    else if !CompletionMatches(f.jobs[id], output, activity) then
      Err(InvalidArgument)
    else
      var withOutput :- AddRepresentationTo(f, output, Some(id), persists);
      var withActivity :- CreateActivityIn(withOutput, activity, Some(id), persists);
      ActIn(withActivity, id, Succeed(token, now, JobCompletion(activity.id, output.id)))
  }

  function Mutate(f: Facts, op: Op): Result<Facts>
    requires !op.Begin? && !op.Commit? && !op.Rollback?
  {
    match op
    case ImportOriginal(added, persists) => ImportOriginalTo(f, added, persists)
    case AddRepresentation(added, persists) => AddRepresentationTo(f, added, None, persists)
    case CreateActivity(activity, persists) => CreateActivityIn(f, activity, None, persists)
    case AddMediaRoot(root, persists) => AddRootTo(f, root, persists)
    case RemoveMediaRoot(id, listed) => RemoveRootFrom(f, id, listed)
    case RequestJob(id, job, listed, persists) => RequestIn(f, id, job, listed, persists)
    // Succeeding is never an operation of its own: it is the last part of a completion.
    case Act(id, action) => if action.Succeed? then Err(InvalidArgument) else ActIn(f, id, action)
    case CompleteJob(id, token, now, output, activity, persists) =>
      CompleteIn(f, id, token, now, output, activity, persists)
  }

  // ---- The system: durable facts and at most one open write transaction ----

  datatype System = System(durable: Facts, staged: Option<Facts>)

  const NEW_SYSTEM := System(NO_FACTS, None)

  function Step(s: System, op: Op): (System, Result<()>) {
    if op.Act? && !ExpiryIsFuture(op.action) then
      (s, Err(InvalidArgument))
    else
      match op
      case Begin => if s.staged.Some? then (s, Err(Storage)) else (s.(staged := Some(s.durable)), Ok(()))
      case Commit(outcome) =>
        if s.staged.None? then (s, Err(Conflict))
        else
          (match outcome
           case Commits => (System(s.staged.value, None), Ok(()))
           case RevisionFails => (s, Err(Storage))
           case CommitFails => (s.(staged := None), Err(Storage)))
      case Rollback => if s.staged.None? then (s, Err(Conflict)) else (s.(staged := None), Ok(()))
      case _ =>
        if s.staged.None? then
          (s, Err(Conflict))
        else
          match Mutate(s.staged.value, op)
          case Err(error) => (s, Err(error))
          case Ok(f) => (s.(staged := Some(f)), Ok(()))
  }

  function Run(s: System, ops: seq<Op>): System {
    if ops == [] then s else Step(Run(s, ops[..|ops| - 1]), ops[|ops| - 1]).0
  }

  lemma {:induction false} RunConcatenates(s: System, a: seq<Op>, b: seq<Op>)
    ensures Run(s, a + b) == Run(Run(s, a), b)
  {
    hide Step;
    if b == [] {
      assert a + b == a;
    } else {
      RunConcatenates(s, a, b[..|b| - 1]);
      assert (a + b)[..|a + b| - 1] == a + b[..|b| - 1];
    }
  }

  // ---- Replaying the job events ----

  datatype Replayed = Absent | InState(kind: JobStateKind) | Illegal

  function ReplayStep(r: Replayed, event: Revisions.EventType): Replayed {
    match (r, event)
    case (Absent, JobRequested) => InState(KindRequested)
    case (InState(KindRequested), JobClaimed) => InState(KindClaimed)
    case (InState(KindClaimed), JobClaimed) => InState(KindClaimed)
    case (InState(KindClaimed), JobClaimRenewed) => InState(KindClaimed)
    case (InState(KindClaimed), JobClaimReleased) => InState(KindRequested)
    case (InState(KindClaimed), JobSucceeded) => InState(KindSucceeded)
    case (InState(KindClaimed), JobFailed) => InState(KindFailed)
    case (InState(KindRequested), JobCancelled) => InState(KindCancelled)
    case (InState(KindClaimed), JobCancelled) => InState(KindCancelled)
    case _ => Illegal
  }

  /** The state category the job's own events lead to, read without looking at the job. */
  function Replay(log: seq<JobEvent>, id: Uuid): Replayed {
    if log == [] then
      Absent
    else
      var before, last := Replay(log[..|log| - 1], id), log[|log| - 1];
      if last.job == id then ReplayStep(before, last.event) else before
  }

  // ---- What every reachable set of facts satisfies ----

  ghost predicate ReplayAgrees(f: Facts) {
    forall id :: Replay(f.log, id) == if id in f.jobs then InState(f.jobs[id].state.Kind()) else Absent
  }

  /** Succeeded jobs and the facts their completions staged point at each other. */
  ghost predicate CompletionsLink(f: Facts) {
    && (forall id :: id in f.jobs && f.jobs[id].state.Succeeded? ==> CompletionIsRecorded(f, id))
    && (forall r :: r in f.representations && f.representations[r].origin.Some? ==> OutputHasJob(f, r))
    && (forall a :: a in f.activities && f.activities[a].origin.Some? ==> ActivityHasJob(f, a))
  }

  /** The completion's facts are there, and they answer the job's request. */
  ghost predicate CompletionIsRecorded(f: Facts, id: Uuid)
    requires id in f.jobs && f.jobs[id].state.Succeeded?
  {
    var job, c := f.jobs[id], f.jobs[id].state.completion;
    && c.representation in f.representations && f.representations[c.representation].origin == Some(id)
    && c.activity in f.activities && f.activities[c.activity].origin == Some(id)
    && CompletionMatches(job, Import(c.representation, f.representations[c.representation].asset,
                                     f.representations[c.representation].kind), f.activities[c.activity].activity)
  }

  ghost predicate OutputHasJob(f: Facts, r: Uuid)
    requires r in f.representations && f.representations[r].origin.Some?
  {
    var id := f.representations[r].origin.value;
    id in f.jobs && f.jobs[id].state.Succeeded? && f.jobs[id].state.completion.representation == r
  }

  ghost predicate ActivityHasJob(f: Facts, a: Uuid)
    requires a in f.activities && f.activities[a].origin.Some?
  {
    var id := f.activities[a].origin.value;
    id in f.jobs && f.jobs[id].state.Succeeded? && f.jobs[id].state.completion.activity == a
  }

  ghost predicate Consistent(f: Facts) {
    ReplayAgrees(f) && CompletionsLink(f)
  }

  /** Later facts keep earlier ones: nothing recorded changes, and terminal jobs do not either. */
  ghost predicate Follows(f: Facts, later: Facts) {
    && f.assets <= later.assets
    && (forall r :: r in f.representations ==>
          r in later.representations && later.representations[r] == f.representations[r])
    && (forall a :: a in f.activities ==> a in later.activities && later.activities[a] == f.activities[a])
    && (forall id :: id in f.jobs ==> JobFollows(f, later, id))
    && f.log <= later.log
  }

  ghost predicate JobFollows(f: Facts, later: Facts, id: Uuid)
    requires id in f.jobs
  {
    && id in later.jobs
    && later.jobs[id].(state := f.jobs[id].state) == f.jobs[id]
    && (f.jobs[id].state.IsTerminal() ==> later.jobs[id] == f.jobs[id])
  }

  lemma FollowsTransitive(a: Facts, b: Facts, c: Facts)
    requires Follows(a, b) && Follows(b, c)
    ensures Follows(a, c)
  {
    forall id | id in a.jobs
      ensures JobFollows(a, c, id)
    {
      assert JobFollows(a, b, id) && JobFollows(b, c, id);
    }
  }

  lemma ReplayOneMore(f: Facts, id: Uuid, event: Revisions.EventType, other: Uuid)
    ensures Replay(f.log + [JobEvent(id, event)], other)
         == if other == id then ReplayStep(Replay(f.log, other), event) else Replay(f.log, other)
  {
    assert (f.log + [JobEvent(id, event)])[..|f.log|] == f.log;
  }

  /** Every guarded transition is a legal step of the replay, and none leaves a terminal state. */
  lemma TransitionIsLegal(state: JobState, action: Action)
    requires Transition(state, action).Some?
    ensures ReplayStep(InState(state.Kind()), EventOf(action)) == InState(Transition(state, action).value.Kind())
    ensures !state.IsTerminal()
  {}

  lemma ActionKeepsReplay(f: Facts, id: Uuid, action: Action)
    requires ReplayAgrees(f) && ActIn(f, id, action).Ok?
    ensures ReplayAgrees(ActIn(f, id, action).value)
    ensures Follows(f, ActIn(f, id, action).value)
  {
    hide Transition, EventOf, Replay, ReplayStep;
    var g := ActIn(f, id, action).value;
    TransitionIsLegal(f.jobs[id].state, action);
    forall other
      ensures Replay(g.log, other) == if other in g.jobs then InState(g.jobs[other].state.Kind()) else Absent
    {
      ReplayOneMore(f, id, EventOf(action), other);
    }
  }

  lemma ActionKeepsLinks(f: Facts, id: Uuid, action: Action)
    requires CompletionsLink(f) && ActIn(f, id, action).Ok? && !action.Succeed?
    ensures CompletionsLink(ActIn(f, id, action).value)
  {
    hide CompletionMatches;
    var g := ActIn(f, id, action).value;
    assert !f.jobs[id].state.Succeeded? && !g.jobs[id].state.Succeeded?;
    forall other | other in g.jobs && g.jobs[other].state.Succeeded?
      ensures CompletionIsRecorded(g, other)
    {
      assert other != id && CompletionIsRecorded(f, other);
    }
    forall r | r in g.representations && g.representations[r].origin.Some?
      ensures OutputHasJob(g, r)
    {
      assert OutputHasJob(f, r);
    }
    forall a | a in g.activities && g.activities[a].origin.Some?
      ensures ActivityHasJob(g, a)
    {
      assert ActivityHasJob(f, a);
    }
  }

  /** Facts staged by other mutations do not disturb the links. */
  lemma UnrelatedFactsKeepLinks(f: Facts, g: Facts)
    requires CompletionsLink(f) && f.log <= g.log && f.assets <= g.assets
    requires forall r :: r in f.representations ==>
      r in g.representations && g.representations[r] == f.representations[r]
    requires forall a :: a in f.activities ==> a in g.activities && g.activities[a] == f.activities[a]
    requires forall r :: r in g.representations && r !in f.representations ==> g.representations[r].origin.None?
    requires forall a :: a in g.activities && a !in f.activities ==> g.activities[a].origin.None?
    requires forall id :: id in f.jobs ==> id in g.jobs && g.jobs[id] == f.jobs[id]
    requires forall id :: id in g.jobs && id !in f.jobs ==> g.jobs[id].state.Requested?
    ensures CompletionsLink(g) && Follows(f, g)
  {
    hide CompletionMatches;
    forall id | id in g.jobs && g.jobs[id].state.Succeeded?
      ensures CompletionIsRecorded(g, id)
    {
      assert CompletionIsRecorded(f, id);
    }
    forall r | r in g.representations && g.representations[r].origin.Some?
      ensures OutputHasJob(g, r)
    {
      assert OutputHasJob(f, r);
    }
    forall a | a in g.activities && g.activities[a].origin.Some?
      ensures ActivityHasJob(g, a)
    {
      assert ActivityHasJob(f, a);
    }
  }

  /** A completion adds one output, one activity and one succeeded job, linked to each other. */
  lemma CompletionKeepsConsistency(f: Facts, id: Uuid, token: Uuid, now: I64, output: Import,
                                   activity: Provenance.Activity, persists: bool)
    requires Consistent(f) && CompleteIn(f, id, token, now, output, activity, persists).Ok?
    ensures var g := CompleteIn(f, id, token, now, output, activity, persists).value;
            Consistent(g) && Follows(f, g)
  {
    hide CompletionMatches, Replay, ClosesCycle, EdgesExist, CompletionsLink, ReplayAgrees;
    var g := CompleteIn(f, id, token, now, output, activity, persists).value;
    var completion := JobCompletion(activity.id, output.id);
    var withOutput := AddRepresentationTo(f, output, Some(id), persists).value;
    var withActivity := CreateActivityIn(withOutput, activity, Some(id), persists).value;
    assert ReplayAgrees(withActivity) by { SameJobsSameReplay(f, withActivity); }
    ActionKeepsReplay(withActivity, id, Succeed(token, now, completion));
    CompletionAddsLinks(f, g, id, output, activity);
  }

  lemma SameJobsSameReplay(f: Facts, g: Facts)
    requires ReplayAgrees(f) && g.jobs == f.jobs && g.log == f.log
    ensures ReplayAgrees(g)
  {}

  lemma CompletionAddsLinks(f: Facts, g: Facts, id: Uuid, output: Import, activity: Provenance.Activity)
    requires CompletionsLink(f) && id in f.jobs && !f.jobs[id].state.Succeeded?
    requires CompletionMatches(f.jobs[id], output, activity)
    requires output.id !in f.representations && activity.id !in f.activities
    requires g.representations
          == f.representations[output.id := RepresentationFact(output.asset, output.kind, Some(id))]
    requires g.activities == f.activities[activity.id := ActivityFact(activity, Some(id))]
    requires g.jobs == f.jobs[id := f.jobs[id].(state := Succeeded(JobCompletion(activity.id, output.id)))]
    ensures CompletionsLink(g)
  {
    hide CompletionMatches;
    CompletionMatchesIgnoresState(f.jobs[id], g.jobs[id], output, activity);
    forall other | other in g.jobs && g.jobs[other].state.Succeeded?
      ensures CompletionIsRecorded(g, other)
    {
      assert other != id ==> CompletionIsRecorded(f, other);
    }
    forall r | r in g.representations && g.representations[r].origin.Some?
      ensures OutputHasJob(g, r)
    {
      assert r != output.id ==> OutputHasJob(f, r);
    }
    forall a | a in g.activities && g.activities[a].origin.Some?
      ensures ActivityHasJob(g, a)
    {
      assert a != activity.id ==> ActivityHasJob(f, a);
    }
  }

  lemma CompletionMatchesIgnoresState(job: Job, other: Job, output: Import, activity: Provenance.Activity)
    requires other.(state := job.state) == job
    ensures CompletionMatches(job, output, activity) == CompletionMatches(other, output, activity)
  {}

  lemma RequestKeepsConsistency(f: Facts, id: Uuid, job: Job, listed: set<string>, persists: bool)
    requires Consistent(f) && RequestIn(f, id, job, listed, persists).Ok?
    ensures var g := RequestIn(f, id, job, listed, persists).value; Consistent(g) && Follows(f, g)
  {
    var g := RequestIn(f, id, job, listed, persists).value;
    UnrelatedFactsKeepLinks(f, g);
    forall other
      ensures Replay(g.log, other) == if other in g.jobs then InState(g.jobs[other].state.Kind()) else Absent
    {
      ReplayOneMore(f, id, Revisions.JobRequested, other);
    }
  }

  lemma MutationKeepsConsistency(f: Facts, op: Op)
    requires !op.Begin? && !op.Commit? && !op.Rollback?
    requires Consistent(f) && Mutate(f, op).Ok?
    ensures Consistent(Mutate(f, op).value) && Follows(f, Mutate(f, op).value)
  {
    hide CompletionMatches, Replay, CompletionsLink, Follows, ReplayAgrees, ClosesCycle, EdgesExist;
    match op
    case RequestJob(id, job, listed, persists) =>
      RequestKeepsConsistency(f, id, job, listed, persists);
    case Act(id, action) =>
      ActionKeepsReplay(f, id, action);
      ActionKeepsLinks(f, id, action);
    case CompleteJob(id, token, now, output, activity, persists) =>
      CompletionKeepsConsistency(f, id, token, now, output, activity, persists);
    case _ =>
      ImportKeepsConsistency(f, op);
  }

  lemma ImportKeepsConsistency(f: Facts, op: Op)
    requires !op.Begin? && !op.Commit? && !op.Rollback? && !op.RequestJob? && !op.Act? && !op.CompleteJob?
    requires Consistent(f) && Mutate(f, op).Ok?
    ensures Consistent(Mutate(f, op).value) && Follows(f, Mutate(f, op).value)
  {
    hide Replay, ClosesCycle, EdgesExist;
    UnrelatedFactsKeepLinks(f, Mutate(f, op).value);
  }

  // ---- Invariants of every run ----

  ghost predicate SystemInvariant(s: System) {
    && Consistent(s.durable)
    && (s.staged.Some? ==> Consistent(s.staged.value) && Follows(s.durable, s.staged.value))
  }

  lemma NothingIsConsistent()
    ensures SystemInvariant(NEW_SYSTEM)
  {}

  lemma FollowsReflexive(f: Facts)
    ensures Follows(f, f)
  {}

  lemma StepKeepsInvariant(s: System, op: Op)
    requires SystemInvariant(s)
    ensures SystemInvariant(Step(s, op).0) && Follows(s.durable, Step(s, op).0.durable)
  {
    hide Consistent, Follows, Mutate;
    FollowsReflexive(s.durable);
    if s.staged.Some? && !op.Begin? && !op.Commit? && !op.Rollback? && Mutate(s.staged.value, op).Ok? {
      MutationKeepsConsistency(s.staged.value, op);
      FollowsTransitive(s.durable, s.staged.value, Mutate(s.staged.value, op).value);
    }
  }

  lemma {:induction false} RunKeepsInvariant(s: System, ops: seq<Op>)
    requires SystemInvariant(s)
    ensures SystemInvariant(Run(s, ops)) && Follows(s.durable, Run(s, ops).durable)
  {
    hide SystemInvariant, Follows, Step;
    if ops == [] {
      FollowsReflexive(s.durable);
    } else {
      RunKeepsInvariant(s, ops[..|ops| - 1]);
      var before := Run(s, ops[..|ops| - 1]);
      StepKeepsInvariant(before, ops[|ops| - 1]);
      FollowsTransitive(s.durable, before.durable, Step(before, ops[|ops| - 1]).0.durable);
    }
  }

  lemma ReachableInvariant(ops: seq<Op>)
    ensures SystemInvariant(Run(NEW_SYSTEM, ops))
  {
    NothingIsConsistent();
    RunKeepsInvariant(NEW_SYSTEM, ops);
  }

  // ---- Main results ----

  /** Terminal states absorb: once durable, the whole job stays as it is whatever anyone does. */
  lemma TerminalStatesAbsorb(before: seq<Op>, after: seq<Op>, id: Uuid)
    requires id in Run(NEW_SYSTEM, before).durable.jobs
    requires Run(NEW_SYSTEM, before).durable.jobs[id].state.IsTerminal()
    ensures id in Run(NEW_SYSTEM, before + after).durable.jobs
    ensures Run(NEW_SYSTEM, before + after).durable.jobs[id] == Run(NEW_SYSTEM, before).durable.jobs[id]
  {
    var s := Run(NEW_SYSTEM, before);
    hide Run, Step;
    ReachableInvariant(before);
    RunKeepsInvariant(s, after);
    RunConcatenates(NEW_SYSTEM, before, after);
    assert JobFollows(s.durable, Run(s, after).durable, id);
  }

  /** In every run the job events, replayed, give each job's state category and are all legal. */
  lemma EventsReplayToStates(ops: seq<Op>, id: Uuid)
    ensures var f := Run(NEW_SYSTEM, ops).durable;
      Replay(f.log, id) == if id in f.jobs then InState(f.jobs[id].state.Kind()) else Absent
  {
    ReachableInvariant(ops);
  }

  ghost function SucceededJobs(f: Facts): set<Uuid> {
    set id | id in f.jobs && f.jobs[id].state.Succeeded?
  }

  ghost function JobOutputs(f: Facts): set<Uuid> {
    set r | r in f.representations && f.representations[r].origin.Some?
  }

  ghost function JobActivities(f: Facts): set<Uuid> {
    set a | a in f.activities && f.activities[a].origin.Some?
  }

  lemma {:induction false} InjectionKeepsCardinality(m: map<Uuid, Uuid>, image: set<Uuid>)
    requires forall x, y :: x in m && y in m && m[x] == m[y] ==> x == y
    requires forall v :: v in image <==> exists x :: x in m && m[x] == v
    ensures |m.Keys| == |image|
  {
    if m.Keys != {} {
      var x :| x in m.Keys;
      var rest := m - {x};
      ImageWithout(m, image, x);
      InjectionKeepsCardinality(rest, image - {m[x]});
      assert m.Keys == rest.Keys + {x};
    } else {
      assert image == {};
    }
  }

  lemma ImageWithout(m: map<Uuid, Uuid>, image: set<Uuid>, x: Uuid)
    requires forall x, y :: x in m && y in m && m[x] == m[y] ==> x == y
    requires forall v :: v in image <==> exists x :: x in m && m[x] == v
    requires x in m
    ensures forall v :: v in image - {m[x]} <==> exists y :: y in m - {x} && (m - {x})[y] == v
  {
    var rest := m - {x};
    forall v
      ensures v in image - {m[x]} <==> exists y :: y in rest && rest[y] == v
    {
      if v in image - {m[x]} {
        var y :| y in m && m[y] == v;
        assert y in rest && rest[y] == v;
      }
      if y :| y in rest && rest[y] == v {
        assert y in m && m[y] == v && y != x;
      }
    }
  }

  /**
   * In every run the outputs and activities recorded by completions number exactly the succeeded jobs:
   * each job has at most one completion, and no completion's facts are left without their job.
   */
  lemma CompletionsAreCounted(ops: seq<Op>)
    ensures var f := Run(NEW_SYSTEM, ops).durable;
      |JobOutputs(f)| == |SucceededJobs(f)| && |JobActivities(f)| == |SucceededJobs(f)|
  {
    var f := Run(NEW_SYSTEM, ops).durable;
    ReachableInvariant(ops);
    assert CompletionsLink(f);
    LinkedCompletionsAreCounted(f);
  }

  lemma LinkedCompletionsAreCounted(f: Facts)
    requires CompletionsLink(f)
    ensures |JobOutputs(f)| == |SucceededJobs(f)| && |JobActivities(f)| == |SucceededJobs(f)|
  {
    hide CompletionMatches;
    var outputs := map id | id in SucceededJobs(f) :: f.jobs[id].state.completion.representation;
    var activities := map id | id in SucceededJobs(f) :: f.jobs[id].state.completion.activity;
    forall id | id in SucceededJobs(f)
      ensures CompletionIsRecorded(f, id)
    {}
    forall r
      ensures r in JobOutputs(f) <==> exists x :: x in outputs && outputs[x] == r
    {
      if r in JobOutputs(f) {
        assert OutputHasJob(f, r);
        assert outputs[f.representations[r].origin.value] == r;
      }
    }
    forall a
      ensures a in JobActivities(f) <==> exists x :: x in activities && activities[x] == a
    {
      if a in JobActivities(f) {
        assert ActivityHasJob(f, a);
        assert activities[f.activities[a].origin.value] == a;
      }
    }
    InjectionKeepsCardinality(outputs, JobOutputs(f));
    InjectionKeepsCardinality(activities, JobActivities(f));
    assert outputs.Keys == SucceededJobs(f) && activities.Keys == SucceededJobs(f);
  }

  /** Every succeeded job's recorded output and activity answer its request, inputs included. */
  lemma CompletionsAnswerRequests(ops: seq<Op>, id: Uuid)
    requires id in Run(NEW_SYSTEM, ops).durable.jobs && Run(NEW_SYSTEM, ops).durable.jobs[id].state.Succeeded?
    ensures var f := Run(NEW_SYSTEM, ops).durable;
      var job, c := f.jobs[id], f.jobs[id].state.completion;
      && c.representation in f.representations && c.activity in f.activities
      && f.representations[c.representation].asset == job.asset
      && f.representations[c.representation].kind == job.outputKind
      && EdgeIds(f.activities[c.activity].activity.outputs) == [c.representation]
      && multiset(EdgeIds(f.activities[c.activity].activity.inputs)) == multiset(job.inputs)
  {
    ReachableInvariant(ops);
    var f := Run(NEW_SYSTEM, ops).durable;
    assert CompletionIsRecorded(f, id);
    var c := f.jobs[id].state.completion;
    var fact := f.representations[c.representation];
    MatchIsSameEdges(f.jobs[id], Import(c.representation, fact.asset, fact.kind), f.activities[c.activity].activity);
  }

  // ---- Leases and tokens over runs ----

  predicate HeldIn(f: Facts, id: Uuid, token: Uuid) {
    id in f.jobs && f.jobs[id].state.HeldBy(token)
  }

  ghost predicate HoldsUntil(f: Facts, id: Uuid, token: Uuid, expiry: int) {
    HeldIn(f, id, token) && f.jobs[id].state.claim.expires >= expiry
  }

  /** The holder itself does not give the job up, nobody cancels it, and rivals' clocks are before the expiry. */
  predicate RespectsLease(op: Op, id: Uuid, token: Uuid, expiry: int) {
    match op
    case Act(job, Claim(_, _, now, _)) => job == id ==> now < expiry
    case Act(job, Release(t)) => job == id ==> t != token
    case Act(job, Fail(t, _, _)) => job == id ==> t != token
    case Act(job, Cancel) => job != id
    case CompleteJob(job, t, _, _, _, _) => job == id ==> t != token
    case _ => true
  }

  lemma MutationHonoursLease(f: Facts, op: Op, id: Uuid, token: Uuid, expiry: int)
    requires !op.Begin? && !op.Commit? && !op.Rollback?
    requires HoldsUntil(f, id, token, expiry) && RespectsLease(op, id, token, expiry) && Mutate(f, op).Ok?
    ensures HoldsUntil(Mutate(f, op).value, id, token, expiry)
  {
    hide CompletionMatches, ClosesCycle, EdgesExist;
  }

  /**
   * A live lease is honoured: as long as its holder keeps it, nobody cancels the job, and every rival
   * claims with a clock before the expiry, the token stays current and its expiry never gets earlier.
   * Clocks may otherwise run backwards and differ between workers.
   */
  lemma {:induction false} LeaseIsHonoured(s: System, ops: seq<Op>, id: Uuid, token: Uuid, expiry: int)
    requires HoldsUntil(s.durable, id, token, expiry)
    requires s.staged.Some? ==> HoldsUntil(s.staged.value, id, token, expiry)
    requires forall i :: 0 <= i < |ops| ==> RespectsLease(ops[i], id, token, expiry)
    ensures HoldsUntil(Run(s, ops).durable, id, token, expiry)
    ensures Run(s, ops).staged.Some? ==> HoldsUntil(Run(s, ops).staged.value, id, token, expiry)
  {
    hide HoldsUntil, RespectsLease, Mutate;
    if ops != [] {
      var op := ops[|ops| - 1];
      LeaseIsHonoured(s, ops[..|ops| - 1], id, token, expiry);
      var before := Run(s, ops[..|ops| - 1]);
      if before.staged.Some? && !op.Begin? && !op.Commit? && !op.Rollback? && Mutate(before.staged.value, op).Ok? {
        MutationHonoursLease(before.staged.value, op, id, token, expiry);
      }
    }
  }

  predicate ClaimsWith(op: Op, token: Uuid) {
    op.Act? && op.action.Claim? && op.action.token == token
  }

  /** Random tokens are fresh: no two claims of a run ask for the same one. */
  ghost predicate TokensAreFresh(ops: seq<Op>) {
    forall i, k, token :: 0 <= i < k < |ops| && ClaimsWith(ops[i], token) ==> !ClaimsWith(ops[k], token)
  }

  lemma MutationDoesNotRevive(f: Facts, op: Op, id: Uuid, token: Uuid)
    requires !op.Begin? && !op.Commit? && !op.Rollback?
    requires !HeldIn(f, id, token) && !ClaimsWith(op, token) && Mutate(f, op).Ok?
    ensures !HeldIn(Mutate(f, op).value, id, token)
  {
    hide CompletionMatches, ClosesCycle, EdgesExist;
  }

  /** The token is not current, neither durably nor in a transaction built on the durable facts. */
  ghost predicate DeadUnlessDurable(s: System, id: Uuid, token: Uuid) {
    s.staged.Some? && !HeldIn(s.durable, id, token) ==> !HeldIn(s.staged.value, id, token)
  }

  lemma {:induction false} StaysDead(s: System, ops: seq<Op>, id: Uuid, token: Uuid)
    requires forall i :: 0 <= i < |ops| ==> !ClaimsWith(ops[i], token)
    requires DeadUnlessDurable(s, id, token)
    ensures DeadUnlessDurable(Run(s, ops), id, token)
    ensures !HeldIn(s.durable, id, token) ==> !HeldIn(Run(s, ops).durable, id, token)
  {
    hide Mutate, HeldIn, ClaimsWith;
    if ops != [] {
      var op := ops[|ops| - 1];
      StaysDead(s, ops[..|ops| - 1], id, token);
      var before := Run(s, ops[..|ops| - 1]);
      if before.staged.Some? && !op.Begin? && !op.Commit? && !op.Rollback? && Mutate(before.staged.value, op).Ok? {
        if !HeldIn(before.staged.value, id, token) {
          MutationDoesNotRevive(before.staged.value, op, id, token);
        }
      }
    }
  }

  /** A held token was asked for by some claim of the run. */
  lemma {:induction false} HeldTokenWasClaimed(ops: seq<Op>, id: Uuid, token: Uuid)
    requires forall i :: 0 <= i < |ops| ==> !ClaimsWith(ops[i], token)
    ensures !HeldIn(Run(NEW_SYSTEM, ops).durable, id, token)
  {
    StaysDead(NEW_SYSTEM, ops, id, token);
  }

  /** The operations a token holder performs on a job. */
  predicate UsesToken(op: Op, id: Uuid, token: Uuid) {
    match op
    case Act(job, Renew(t, _, _)) => job == id && t == token
    case Act(job, Release(t)) => job == id && t == token
    case Act(job, Fail(t, _, _)) => job == id && t == token
    case CompleteJob(job, t, _, _, _, _) => job == id && t == token
    case _ => false
  }

  lemma DeadTokenIsRefused(s: System, op: Op, id: Uuid, token: Uuid)
    requires UsesToken(op, id, token) && (s.staged.Some? ==> !HeldIn(s.staged.value, id, token))
    ensures Step(s, op).1.Err? && Step(s, op).0 == s
  {}

  /**
   * Once a durable token has been superseded, released or used up, it never becomes current again and
   * every later use of it is refused and changes nothing, whatever the clocks say.
   */
  lemma SupersededTokenIsDead(first: seq<Op>, second: seq<Op>, third: seq<Op>, op: Op, id: Uuid, token: Uuid)
    requires TokensAreFresh(first + second + third)
    requires HeldIn(Run(NEW_SYSTEM, first).durable, id, token)
    requires !HeldIn(Run(NEW_SYSTEM, first + second).durable, id, token)
    requires UsesToken(op, id, token)
    ensures var s := Run(NEW_SYSTEM, first + second + third);
      !HeldIn(s.durable, id, token) && Step(s, op).1.Err? && Step(s, op).0 == s
  {
    hide Run, Step, HeldIn, ClaimsWith, UsesToken;
    var s1 := Run(NEW_SYSTEM, first);
    var later := second + third;
    assert first + second + third == first + later;
    NoClaimAfter(first, later, id, token);
    RunConcatenates(NEW_SYSTEM, first, second);
    RunConcatenates(NEW_SYSTEM, first + second, third);
    StaysDeadAfterHolding(s1, second, third, id, token);
    DeadTokenIsRefused(Run(NEW_SYSTEM, first + second + third), op, id, token);
  }

  /** With fresh tokens, after a durable claim nobody claims with its token again. */
  lemma NoClaimAfter(first: seq<Op>, later: seq<Op>, id: Uuid, token: Uuid)
    requires TokensAreFresh(first + later) && HeldIn(Run(NEW_SYSTEM, first).durable, id, token)
    ensures forall i :: 0 <= i < |later| ==> !ClaimsWith(later[i], token)
  {
    hide Run, HeldIn, ClaimsWith;
    if forall i :: 0 <= i < |first| ==> !ClaimsWith(first[i], token) {
      HeldTokenWasClaimed(first, id, token);
    } else {
      var i :| 0 <= i < |first| && ClaimsWith(first[i], token);
      forall k | 0 <= k < |later|
        ensures !ClaimsWith(later[k], token)
      {
        assert (first + later)[i] == first[i] && (first + later)[|first| + k] == later[k];
      }
    }
  }

  lemma StaysDeadAfterHolding(s: System, second: seq<Op>, third: seq<Op>, id: Uuid, token: Uuid)
    requires HeldIn(s.durable, id, token)
    requires !HeldIn(Run(s, second).durable, id, token)
    requires forall i :: 0 <= i < |second + third| ==> !ClaimsWith((second + third)[i], token)
    ensures var t := Run(Run(s, second), third);
      !HeldIn(t.durable, id, token) && (t.staged.Some? ==> !HeldIn(t.staged.value, id, token))
  {
    hide Run, HeldIn, ClaimsWith;
    assert forall i :: 0 <= i < |second| ==> (second + third)[i] == second[i];
    assert forall i :: 0 <= i < |third| ==> (second + third)[|second| + i] == third[i];
    StaysDead(s, second, id, token);
    StaysDead(Run(s, second), third, id, token);
  }
}
