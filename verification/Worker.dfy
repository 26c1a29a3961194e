/** The reference worker as a client of the lease protocol (crates/postproject-cli/src/main.rs). */
module Worker {
  import opened Wrappers
  import opened Machine
  import opened Orders
  import opened Identity
  import opened Keys
  import opened Jobs
  import opened Records
  import opened OutputPath
  import opened Diagnostic
  import Provenance
  import Lineage

  // ---- The activity a worker reports ----

  function PlainEdge(id: Uuid): Provenance.Edge {
    Provenance.Edge.Edge(id, None, None)
  }

  function PlainEdges(ids: seq<Uuid>): seq<Provenance.Edge> {
    Map((id: Uuid) => PlainEdge(id), ids)
  }

  /** The recorded inputs of the request, the one output, and the times of start and completion. */
  function ExecutorActivity(id: Uuid, job: Job, output: Uuid, started: I64, finished: I64)
    : Result<Provenance.Activity>
  {
    var activity :- Provenance.NewActivity(id, job.kind, PlainEdges(job.inputs), [PlainEdge(output)]);
    Provenance.WithTiming(activity, Some(started), Some(finished))
  }

  lemma PlainEdgeIds(ids: seq<Uuid>)
    ensures EdgeIds(PlainEdges(ids)) == ids
    ensures Distinct(PlainEdges(ids)) <==> Distinct(ids)
  {}

  /** For a request with bounded distinct inputs and a new output, only a clock that went back is refused. */
  lemma OnlyTimingIsRefused(id: Uuid, job: Job, output: Uuid, started: I64, finished: I64)
    requires |job.inputs| <= MAX_JOB_INPUTS && Distinct(job.inputs) && output !in job.inputs
    ensures ExecutorActivity(id, job, output, started, finished).Ok? <==> started <= finished
  {
    var inputs, outputs := PlainEdges(job.inputs), [PlainEdge(output)];
    PlainEdgeIds(job.inputs);
    assert Distinct(outputs);
    hide Distinct;
    Provenance.ActivityAcceptsExactly(id, job.kind, inputs, outputs);
  }

  /** The reported activity always answers the request it was built from. */
  lemma ExecutorActivityAnswers(id: Uuid, job: Job, output: Uuid, started: I64, finished: I64)
    requires ExecutorActivity(id, job, output, started, finished).Ok?
    ensures var a := ExecutorActivity(id, job, output, started, finished).value;
      && a.id == id && a.kind == job.kind && a.started == Some(started) && a.finished == Some(finished)
      && CompletionMatches(job, Import(output, job.asset, job.outputKind), a)
      && multiset(EdgeIds(a.inputs)) == multiset(job.inputs) && EdgeIds(a.outputs) == [output]
  {
    var inputs, outputs := PlainEdges(job.inputs), [PlainEdge(output)];
    var a := ExecutorActivity(id, job, output, started, finished).value;
    PlainEdgeIds(job.inputs);
    Provenance.EdgeOrderIsTotal();
    SortSorts(Provenance.EdgeLeq(), inputs);
    IdsOfPermutation(a.inputs, inputs);
    SortSorts(Provenance.EdgeLeq(), outputs);
    SameLength(a.outputs, outputs);
    assert a.outputs[0] in multiset(outputs);
    UuidOrderIsTotal();
    SortIsCanonical(UuidLeq(), EdgeIds(a.inputs), job.inputs);
  }

  lemma IdsOfPermutation(a: seq<Provenance.Edge>, b: seq<Provenance.Edge>)
    requires multiset(a) == multiset(b)
    ensures multiset(EdgeIds(a)) == multiset(EdgeIds(b))
  {
    var id := (e: Provenance.Edge) => e.representation;
    assert EdgeIds(a) == Map(id, a) && EdgeIds(b) == Map(id, b);
    MapOfPermutation(id, a, b);
  }

  // ---- Acceptance ----

  /**
   * A worker's completion is accepted exactly while it holds a live claim: its own report never fails the
   * comparison with the request, and the representations it names are still there.
   */
  lemma CompletionAcceptedExactly(ops: seq<Op>, id: Uuid, token: Uuid, job: Job, output: Uuid, activity: Uuid,
                                  started: I64, finished: I64)
    requires var f := Run(NEW_SYSTEM, ops).durable;
      && id in f.jobs && f.jobs[id].(state := job.state) == job
      && output !in f.representations && activity !in f.activities
    requires ExecutorActivity(activity, job, output, started, finished).Ok?
    ensures var f := Run(NEW_SYSTEM, ops).durable;
      CompleteIn(f, id, token, finished, Import(output, job.asset, job.outputKind),
                 ExecutorActivity(activity, job, output, started, finished).value, true).Ok?
      <==> HeldIn(f, id, token) && Live(f.jobs[id].state.claim, finished)
  {
    hide Run, CompletionMatches, ExecutorActivity, ClosesCycle, Lineage.Acyclic;
    var f := Run(NEW_SYSTEM, ops).durable;
    var a := ExecutorActivity(activity, job, output, started, finished).value;
    var added := Import(output, job.asset, job.outputKind);
    RecordsStaySound(ops);
    ExecutorActivityAnswers(activity, job, output, started, finished);
    CompletionMatchesIgnoresState(job, f.jobs[id], added, a);
    assert JobReferencesExist(f, f.jobs[id]);
    forall e | e in EdgeIds(a.inputs)
      ensures e in f.representations
    {
      assert e in multiset(EdgeIds(a.inputs));
      assert e in job.inputs;
    }
    NewOutputClosesNoCycle(f, a, output);
    var withOutput := AddRepresentationTo(f, added, Some(id), true);
    assert withOutput.Ok? && LineageOf(withOutput.value) == LineageOf(f);
    SameLineageSameCycles(f, withOutput.value, a);
  }

  lemma SameLineageSameCycles(f: Facts, g: Facts, activity: Provenance.Activity)
    requires LineageOf(f) == LineageOf(g)
    ensures ClosesCycle(f, activity) == ClosesCycle(g, activity)
  {}

  /** An output that is not stored yet is not among the inputs of a stored job. */
  lemma NewOutputIsNoInput(ops: seq<Op>, id: Uuid, job: Job, output: Uuid)
    requires var f := Run(NEW_SYSTEM, ops).durable;
      id in f.jobs && f.jobs[id].(state := job.state) == job && output !in f.representations
    ensures output !in job.inputs
  {
    hide Run;
    RecordsStaySound(ops);
    var f := Run(NEW_SYSTEM, ops).durable;
    assert JobReferencesExist(f, f.jobs[id]);
  }

  // ---- What the worker does not decide itself ----

  /** The worker's job, the token of its claim, and the identities it makes up for its results. */
  datatype Ids = Ids(job: Uuid, token: Uuid, output: Uuid, activity: Uuid)

  /** What other processes do before the worker's next step: on the production, and on the output path. */
  datatype Turn = Turn(ops: seq<Op>, files: seq<PathEvent>)

  /** One heartbeat: what others do before it, its clock, and the outcome of its commit. */
  datatype Beat = Beat(others: Turn, now: I64, outcome: CommitOutcome)

  datatype Ending = Unavailable | Reported(diagnostic: string) | Broke(diagnostic: string)

  /**
   * The executor stops after its probe, before it looks at the output path, or it runs with heartbeats and
   * then either ends without an output or renames its output to the final path.
   */
  datatype Execution = StopsEarly(early: Ending) | Runs(beats: seq<Beat>, ending: Option<Ending>)

  datatype Script = Script(
    beforeClaim: Turn, started: I64, claimCommit: CommitOutcome, requestIsValid: bool,
    probe: seq<Beat>, beforeCheck: Turn, execution: Execution, beforeEnd: Turn,
    beforePreparing: Turn, prepares: bool, beforeCompletion: Turn, finished: I64, persists: bool,
    endCommit: CommitOutcome, afterCompletion: Turn, reloads: bool)

  datatype View = ViewFailed | ViewSucceeded

  const OUTPUT_EXISTS := "executor output already exists"
  const CANNOT_PREPARE := "cannot prepare executor output"
  const EXECUTOR_ERROR := "reference executor error"

  /** `timestamp_after`: the lease in microseconds must fit, and so must the sum. */
  function TimestampAfter(now: I64, micros: nat): Result<I64> {
    if micros > I64_MAX || now + micros > I64_MAX then Err(InvalidArgument) else Ok(now + micros)
  }

  predicate IsMutation(op: Op) {
    !op.Begin? && !op.Commit? && !op.Rollback?
  }

  /** The job has succeeded with this worker's results, and they are stored. */
  predicate Recorded(f: Facts, ids: Ids, job: Job, s: Script) {
    && ids.job in f.jobs
    && f.jobs[ids.job].state == Succeeded(JobCompletion(ids.activity, ids.output))
    && ResultsAreStored(f, ids, job, s.started, s.finished)
  }

  /** Stored are the output that was asked for and one activity that made it: its kind, times and edges. */
  predicate ResultsAreStored(f: Facts, ids: Ids, job: Job, started: I64, finished: I64) {
    && ids.output in f.representations && ids.activity in f.activities
    && f.representations[ids.output].asset == job.asset && f.representations[ids.output].kind == job.outputKind
    && var activity := f.activities[ids.activity].activity;
       && activity.id == ids.activity && activity.kind == job.kind
       && activity.started == Some(started) && activity.finished == Some(finished)
       && multiset(EdgeIds(activity.inputs)) == multiset(job.inputs) && EdgeIds(activity.outputs) == [ids.output]
  }

  /** What is recorded stays whatever other processes do. */
  lemma RecordedStays(history: seq<Op>, ops: seq<Op>, ids: Ids, job: Job, s: Script)
    requires Recorded(Run(NEW_SYSTEM, history).durable, ids, job, s)
    ensures Recorded(Run(Run(NEW_SYSTEM, history), ops).durable, ids, job, s)
  {
    hide Run, SystemInvariant;
    var production := Run(NEW_SYSTEM, history);
    ReachableInvariant(history);
    RunKeepsInvariant(production, ops);
    assert JobFollows(production.durable, Run(production, ops).durable, ids.job);
  }

  lemma CompletionStoresResults(f: Facts, ids: Ids, job: Job, s: Script, activity: Provenance.Activity)
    requires ExecutorActivity(ids.activity, job, ids.output, s.started, s.finished) == Ok(activity)
    ensures var added := Import(ids.output, job.asset, job.outputKind);
      var after := Mutate(f, CompleteJob(ids.job, ids.token, s.finished, added, activity, s.persists));
      after.Ok? ==> ResultsAreStored(after.value, ids, job, s.started, s.finished)
  {
    hide ExecutorActivity, CompletionMatches, ClosesCycle, EdgesExist, EdgeIds;
    ExecutorActivityAnswers(ids.activity, job, ids.output, s.started, s.finished);
  }

  /** The bounded diagnostic is accepted as a failure. */
  predicate IsRecordable(diagnostic: string) {
    diagnostic != "" && '\0' !in Bounded(diagnostic)
  }

  /** The job has failed with the bounded text of the diagnostic. */
  predicate FailureIsReported(f: Facts, ids: Ids, diagnostic: Option<string>) {
    diagnostic.Some? && ids.job in f.jobs && f.jobs[ids.job].state == Failed(Bounded(diagnostic.value))
  }

  // ---- The path during a run ----

  /** The path when the claim has committed. */
  function PathAtClaim(p: Path, token: Uuid, s: Script): Path {
    After(AfterOthers(p, token, s.beforeClaim.files), Start(token))
  }

  function AfterBeats(p: Path, token: Uuid, beats: seq<Beat>): Path {
    if beats == [] then
      p
    else
      AfterOthers(AfterBeats(p, token, beats[..|beats| - 1]), token, beats[|beats| - 1].others.files)
  }

  /** The path when the executor looks at it, from the path at the claim. */
  function PathAtCheck(claimed: Path, token: Uuid, s: Script): Path {
    AfterOthers(AfterBeats(claimed, token, s.probe), token, s.beforeCheck.files)
  }

  lemma NoBeats(p: Path, token: Uuid, beats: seq<Beat>)
    ensures AfterBeats(p, token, beats[..0]) == p
  {}

  lemma OneMoreBeat(p: Path, token: Uuid, beats: seq<Beat>, i: nat)
    requires i < |beats|
    ensures AfterBeats(p, token, beats[..i + 1])
         == AfterOthers(AfterBeats(p, token, beats[..i]), token, beats[i].others.files)
  {
    assert beats[..i + 1][..i] == beats[..i];
  }

  /** Through all heartbeats the worker's phase is its own, and nobody else publishes for it. */
  lemma {:induction false} BeatsKeepOwn(p: Path, token: Uuid, beats: seq<Beat>)
    requires token in p.phases
    ensures var q := AfterBeats(p, token, beats);
      && token in q.phases && q.phases[token] == p.phases[token]
      && (q.file == Some(token) ==> p.file == Some(token))
  {
    if beats != [] {
      BeatsKeepOwn(p, token, beats[..|beats| - 1]);
      OthersKeepSafe(AfterBeats(p, token, beats[..|beats| - 1]), token, beats[|beats| - 1].others.files);
    }
  }

  /** The path when the output has been renamed to its final name, from the path at the claim. */
  function PathAtPublication(claimed: Path, token: Uuid, s: Script): Path
    requires s.execution.Runs?
  {
    var checked := After(PathAtCheck(claimed, token, s), CheckPath(token));
    After(AfterOthers(AfterBeats(checked, token, s.execution.beats), token, s.beforeEnd.files), Publish(token))
  }

  lemma Started(p: Path, token: Uuid)
    requires token !in p.phases
    ensures After(p, Start(token)).InPhase(token, Executing) && After(p, Start(token)).file == p.file
  {}

  lemma PassedCheck(p: Path, token: Uuid)
    requires p.InPhase(token, Executing) && p.file.None?
    ensures After(p, CheckPath(token)).InPhase(token, Checked) && After(p, CheckPath(token)).file.None?
  {}

  lemma Renamed(p: Path, token: Uuid)
    requires p.InPhase(token, Checked)
    ensures After(p, Publish(token)).InPhase(token, Published) && After(p, Publish(token)).file == Some(token)
  {}

  lemma CleanedUp(p: Path, token: Uuid)
    requires p.InPhase(token, Published)
    ensures After(p, CleanUp(token)).file.None?
  {}

  lemma LeftAlone(p: Path, token: Uuid)
    ensures After(p, Leave(token)).file == p.file
    ensures IsSafe(p, token) ==> IsSafe(After(p, Leave(token)), token)
  {
    if IsSafe(p, token) {
      OwnEventsKeepSafe(p, token);
    }
  }

  lemma SafeMeans(p: Path, token: Uuid)
    ensures IsSafe(p, token) <==> p.file == Some(token) && !p.HasLateWorker(token)
  {}

  /** The diagnostic of an execution that reports a failure; a file at the path is one. */
  function Report(s: Script, atCheck: Path): Option<string> {
    match s.execution
    case StopsEarly(Reported(d)) => Some(d)
    case StopsEarly(_) => None
    case Runs(_, ending) =>
      if atCheck.file.Some? then Some(OUTPUT_EXISTS)
      else if ending.Some? && ending.value.Reported? then Some(ending.value.diagnostic)
      else None
  }

  // ---- A lease among other processes ----

  predicate LeasedUntil(f: Facts, id: Uuid, token: Uuid, expires: int) {
    HeldIn(f, id, token) && f.jobs[id].state.claim.expires == expires
  }

  /** The claim runs to the expiry, and the identities of the results are not taken. */
  predicate IsReady(f: Facts, ids: Ids, expires: int) {
    && LeasedUntil(f, ids.job, ids.token, expires)
    && ids.output !in f.representations && ids.activity !in f.activities
  }

  predicate TakesIdentity(op: Op, ids: Ids) {
    match op
    case ImportOriginal(added, _) => added.id == ids.output
    case AddRepresentation(added, _) => added.id == ids.output
    case CreateActivity(activity, _) => activity.id == ids.activity
    case CompleteJob(_, _, _, output, activity, _) => output.id == ids.output || activity.id == ids.activity
    case _ => false
  }

  /** An operation of another process that respects the lease and does not use the worker's identities. */
  predicate LeavesAlone(op: Op, ids: Ids, expires: int) {
    RespectsLease(op, ids.job, ids.token, expires) && !UsesToken(op, ids.job, ids.token) && !TakesIdentity(op, ids)
  }

  /** Whether a transaction is open after the operations. */
  function IsOpen(open: bool, ops: seq<Op>): bool {
    if ops == [] then
      open
    else
      var before := IsOpen(open, ops[..|ops| - 1]);
      match ops[|ops| - 1]
      case Begin => true
      case Commit(outcome) => before && outcome == RevisionFails
      case Rollback => false
      case _ => before
  }

  /** Other processes may do anything that leaves the worker's claim alone, and end their transactions. */
  ghost predicate Harmless(ops: seq<Op>, ids: Ids, expires: int) {
    (forall i :: 0 <= i < |ops| ==> LeavesAlone(ops[i], ids, expires)) && !IsOpen(false, ops)
  }

  lemma {:induction false} OpenIsStaged(s: System, ops: seq<Op>)
    ensures Run(s, ops).staged.Some? <==> IsOpen(s.staged.Some?, ops)
  {
    hide Mutate;
    if ops != [] {
      OpenIsStaged(s, ops[..|ops| - 1]);
    }
  }

  lemma MutationKeepsReady(f: Facts, op: Op, ids: Ids, expires: int)
    requires IsMutation(op) && IsReady(f, ids, expires) && LeavesAlone(op, ids, expires) && Mutate(f, op).Ok?
    ensures IsReady(Mutate(f, op).value, ids, expires)
  {
    hide CompletionMatches, ClosesCycle, EdgesExist;
  }

  lemma {:induction false} RunKeepsReady(s: System, ops: seq<Op>, ids: Ids, expires: int)
    requires IsReady(s.durable, ids, expires) && (s.staged.Some? ==> IsReady(s.staged.value, ids, expires))
    requires forall i :: 0 <= i < |ops| ==> LeavesAlone(ops[i], ids, expires)
    ensures IsReady(Run(s, ops).durable, ids, expires)
    ensures Run(s, ops).staged.Some? ==> IsReady(Run(s, ops).staged.value, ids, expires)
  {
    hide IsReady, LeavesAlone, Mutate;
    if ops != [] {
      var op := ops[|ops| - 1];
      RunKeepsReady(s, ops[..|ops| - 1], ids, expires);
      var before := Run(s, ops[..|ops| - 1]);
      if before.staged.Some? && IsMutation(op) && Mutate(before.staged.value, op).Ok? {
        MutationKeepsReady(before.staged.value, op, ids, expires);
      }
    }
  }

  predicate HoldsLease(s: System, ids: Ids, expires: int) {
    s.staged.None? && IsReady(s.durable, ids, expires)
  }

  /** Harmless operations of others leave the worker's claim exactly as it was. */
  lemma HarmlessKeepsLease(s: System, ops: seq<Op>, ids: Ids, expires: int)
    requires HoldsLease(s, ids, expires) && Harmless(ops, ids, expires)
    ensures HoldsLease(Run(s, ops), ids, expires)
  {
    hide Run, IsReady, LeavesAlone, IsOpen;
    RunKeepsReady(s, ops, ids, expires);
    OpenIsStaged(s, ops);
  }

  /** The job waits for a worker, or its claim has expired. */
  predicate Claimable(f: Facts, id: Uuid, now: I64) {
    id in f.jobs
    && (f.jobs[id].state.Requested? || (f.jobs[id].state.Claimed? && !Live(f.jobs[id].state.claim, now)))
  }

  lemma ClaimTakesLease(f: Facts, ids: Ids, tool: string, now: I64, expires: I64)
    requires Claimable(f, ids.job, now) && ids.output !in f.representations && ids.activity !in f.activities
    ensures var r := Mutate(f, Act(ids.job, Claim(ids.token, tool, now, expires)));
      r.Ok? && IsReady(r.value, ids, expires)
  {}

  lemma ClaimNeedsClaimable(f: Facts, ids: Ids, tool: string, now: I64, expires: I64)
    ensures !Claimable(f, ids.job, now) ==> Mutate(f, Act(ids.job, Claim(ids.token, tool, now, expires))).Err?
  {}

  /** A holder's renewal goes through exactly while its lease is live and when it makes the lease longer. */
  lemma RenewalSucceedsExactly(f: Facts, ids: Ids, now: I64, current: int, expires: I64)
    requires IsReady(f, ids, current)
    ensures var r := Mutate(f, Act(ids.job, Renew(ids.token, now, expires)));
      if now < current < expires then r.Ok? && IsReady(r.value, ids, expires) else r == Err(Conflict)
  {}

  /** A holder whose clock has stepped back to its last renewal or before is refused, though its lease is live. */
  lemma SteppedBackClockIsRefused(f: Facts, ids: Ids, renewed: I64, now: I64, lease: nat)
    requires 0 < lease && now <= renewed && now + lease <= I64_MAX
    requires IsReady(f, ids, renewed + lease)
    ensures Live(f.jobs[ids.job].state.claim, now)
    ensures Mutate(f, Act(ids.job, Renew(ids.token, now, now + lease))) == Err(Conflict)
  {
    RenewalSucceedsExactly(f, ids, now, renewed + lease, now + lease);
  }

  lemma RenewedLease(f: Facts, id: Uuid, token: Uuid, now: I64, expires: I64)
    ensures var r := Mutate(f, Act(id, Renew(token, now, expires)));
      r.Ok? ==> LeasedUntil(r.value, id, token, expires)
  {}

  /** The clock of the claim, or of the last of the first n heartbeats. */
  function LastClock(started: I64, beats: seq<Beat>, n: nat): I64
    requires n <= |beats|
  {
    if n == 0 then started else beats[n - 1].now
  }

  /** Others are harmless before the heartbeat, its expiry can be represented, and its commit succeeds. */
  ghost predicate IsUndisturbed(beat: Beat, ids: Ids, current: int, lease: nat) {
    && Harmless(beat.others.ops, ids, current) && beat.outcome == Commits
    && lease <= I64_MAX && beat.now + lease <= I64_MAX
  }

  ghost predicate AreUndisturbed(started: I64, beats: seq<Beat>, ids: Ids, lease: nat) {
    forall i :: 0 <= i < |beats| ==> IsUndisturbed(beats[i], ids, LastClock(started, beats, i) + lease, lease)
  }

  /** The clock lies strictly between the one before it and the end of the lease that one began. */
  predicate IsOnTime(started: I64, beats: seq<Beat>, i: nat, lease: nat)
    requires i < |beats|
  {
    LastClock(started, beats, i) < beats[i].now < LastClock(started, beats, i) + lease
  }

  lemma FirstClock(started: I64, beats: seq<Beat>)
    ensures LastClock(started, beats, 0) == started
  {}

  lemma OneMoreClock(started: I64, beats: seq<Beat>, i: nat, lease: nat)
    requires i < |beats|
    ensures LastClock(started, beats, i + 1) == beats[i].now
    ensures var current := LastClock(started, beats, i) + lease;
      IsOnTime(started, beats, i, lease) <==> beats[i].now < current < beats[i].now + lease
  {}

  predicate OnSchedule(started: I64, beats: seq<Beat>, lease: nat) {
    forall i :: 0 <= i < |beats| ==> IsOnTime(started, beats, i, lease)
  }

  /** The first heartbeat from the i-th on that is not on time, or the number of heartbeats. */
  function FirstLate(started: I64, beats: seq<Beat>, i: nat, lease: nat): (n: nat)
    requires i <= |beats|
    ensures i <= n <= |beats|
    ensures forall k :: i <= k < n ==> IsOnTime(started, beats, k, lease)
    ensures n < |beats| ==> !IsOnTime(started, beats, n, lease)
    decreases |beats| - i
  {
    if i == |beats| || !IsOnTime(started, beats, i, lease) then i else FirstLate(started, beats, i + 1, lease)
  }

  /** How long the lease runs after the heartbeats, of which the first late one was refused. */
  function KeptUntil(started: I64, beats: seq<Beat>, lease: nat): int {
    LastClock(started, beats, FirstLate(started, beats, 0, lease)) + lease
  }

  lemma KeptToTheLast(started: I64, beats: seq<Beat>, lease: nat)
    ensures OnSchedule(started, beats, lease) ==>
      KeptUntil(started, beats, lease) == LastClock(started, beats, |beats|) + lease
  {}

  lemma LateIsFirst(started: I64, beats: seq<Beat>, i: nat, lease: nat)
    requires i < |beats| && !IsOnTime(started, beats, i, lease)
    requires forall k :: 0 <= k < i ==> IsOnTime(started, beats, k, lease)
    ensures KeptUntil(started, beats, lease) == LastClock(started, beats, i) + lease
  {}

  /** The clock of the claim or of the last heartbeat of the probe. */
  function ProbedAt(s: Script): I64 {
    LastClock(s.started, s.probe, |s.probe|)
  }

  /** When the lease of the last heartbeat ends. */
  function LastExpiry(s: Script, lease: nat): int {
    if s.execution.Runs?
    then LastClock(ProbedAt(s), s.execution.beats, |s.execution.beats|) + lease
    else ProbedAt(s) + lease
  }

  /** The clocks of the run: heartbeats on schedule, and the end not before the start and within the lease. */
  predicate KeepsLease(s: Script, lease: nat) {
    && OnSchedule(s.started, s.probe, lease)
    && (s.execution.Runs? ==> OnSchedule(ProbedAt(s), s.execution.beats, lease))
    && s.started <= s.finished < LastExpiry(s, lease)
  }

  /** Others are harmless until the completion commits, and nothing fails. */
  ghost predicate Finishes(s: Script, ids: Ids, expires: int) {
    && Harmless(s.beforePreparing.ops, ids, expires) && s.prepares
    && Harmless(s.beforeCompletion.ops, ids, expires)
    && s.persists && s.endCommit == Commits && s.reloads
  }

  /** The claim goes through: after what others did, the job is claimable and the identities are new. */
  ghost predicate Begins(s: Script, ids: Ids, production: System) {
    var before := Run(production, s.beforeClaim.ops);
    && before.staged.None? && Claimable(before.durable, ids.job, s.started)
    && ids.output !in before.durable.representations && ids.activity !in before.durable.activities
    && s.claimCommit == Commits && s.requestIsValid
  }

  /** Nothing fails, the path is free, no late worker is on it, and others leave the claim alone. */
  ghost predicate RunsThrough(s: Script, ids: Ids, lease: nat, claimed: Path) {
    && AreUndisturbed(s.started, s.probe, ids, lease)
    && Harmless(s.beforeCheck.ops, ids, ProbedAt(s) + lease)
    && s.execution.Runs? && s.execution.ending.None?
    && AreUndisturbed(ProbedAt(s), s.execution.beats, ids, lease)
    && Harmless(s.beforeEnd.ops, ids, LastExpiry(s, lease)) && Finishes(s, ids, LastExpiry(s, lease))
    && PathAtCheck(claimed, ids.token, s).file.None?
    && !PathAtPublication(claimed, ids.token, s).HasLateWorker(ids.token)
  }

  /** How the execution ends without an output, if it does, among others that leave the claim alone. */
  function EndOf(s: Script, lease: nat, atCheck: Path): Option<Ending> {
    if !OnSchedule(s.started, s.probe, lease) then
      Some(Broke(EXECUTOR_ERROR))
    else
      match s.execution
      case StopsEarly(early) => Some(early)
      case Runs(beats, ending) =>
        if atCheck.file.Some? then Some(Reported(OUTPUT_EXISTS))
        else if !OnSchedule(ProbedAt(s), beats, lease) then Some(Broke(EXECUTOR_ERROR))
        else ending
  }

  /** Whether the executor gets to run after its probe. */
  predicate GetsToRun(s: Script, lease: nat, atCheck: Path) {
    OnSchedule(s.started, s.probe, lease) && s.execution.Runs? && atCheck.file.None?
  }

  /** How long the lease runs when the execution ends. */
  function LeaseAtEnd(s: Script, lease: nat, atCheck: Path): int {
    if GetsToRun(s, lease, atCheck)
    then KeptUntil(ProbedAt(s), s.execution.beats, lease)
    else KeptUntil(s.started, s.probe, lease)
  }

  /** Others leave the claim alone until the execution ends, and its last transaction commits. */
  ghost predicate EndsUndisturbed(s: Script, ids: Ids, lease: nat, atCheck: Path) {
    && AreUndisturbed(s.started, s.probe, ids, lease)
    && Harmless(s.beforeCheck.ops, ids, KeptUntil(s.started, s.probe, lease))
    && (GetsToRun(s, lease, atCheck) ==>
          && AreUndisturbed(ProbedAt(s), s.execution.beats, ids, lease)
          && Harmless(s.beforeEnd.ops, ids, LeaseAtEnd(s, lease, atCheck)))
    && s.endCommit == Commits
  }

  /** Others leave the claim alone from the look at the path to the end of the execution. */
  ghost predicate BeatsAlone(s: Script, ids: Ids, lease: nat, expires: int)
    requires s.execution.Runs?
  {
    AreUndisturbed(ProbedAt(s), s.execution.beats, ids, lease) && Harmless(s.beforeEnd.ops, ids, expires)
  }

  /**
   * What becomes of the job: an unavailable executor gives it back as it was requested; any other ending
   * fails it with the bounded diagnostic while the lease is live, and leaves it claimed otherwise.
   */
  predicate JobEndsAs(f: Facts, ids: Ids, job: Job, ending: Ending, finished: I64, expires: int) {
    && ids.job in f.jobs
    && (if ending.Unavailable? then f.jobs[ids.job] == job.(state := Requested)
        else if finished < expires && IsRecordable(ending.diagnostic) then
          f.jobs[ids.job] == job.(state := Failed(Bounded(ending.diagnostic)))
        else
          LeasedUntil(f, ids.job, ids.token, expires))
  }

  /** The view that the worker gives of such an ending. */
  predicate ViewOf(r: Result<View>, ending: Ending, s: Script, expires: int) {
    r != Ok(ViewSucceeded)
    && (r == Ok(ViewFailed) <==>
          ending.Reported? && s.finished < expires && IsRecordable(ending.diagnostic) && s.reloads)
  }

  /** The executor publishes, and others leave the claim alone until the output is prepared. */
  ghost predicate Publishes(s: Script, ids: Ids, lease: nat, atCheck: Path) {
    && GetsToRun(s, lease, atCheck) && EndOf(s, lease, atCheck).None?
    && EndsUndisturbed(s, ids, lease, atCheck)
    && Harmless(s.beforePreparing.ops, ids, LeaseAtEnd(s, lease, atCheck))
  }

  lemma MessagesAreRecordable()
    ensures IsRecordable(OUTPUT_EXISTS) && IsRecordable(CANNOT_PREPARE) && IsRecordable(EXECUTOR_ERROR)
    ensures Bounded(CANNOT_PREPARE) == CANNOT_PREPARE && Bounded(EXECUTOR_ERROR) == EXECUTOR_ERROR
    ensures Bounded(OUTPUT_EXISTS) == OUTPUT_EXISTS
  {
    hide Bounded;
    ShortIsKept(OUTPUT_EXISTS);
    ShortIsKept(CANNOT_PREPARE);
    ShortIsKept(EXECUTOR_ERROR);
  }

  /** A run that only the worker's own clocks can break; others do whatever leaves its claim alone. */
  ghost predicate Smooth(s: Script, ids: Ids, lease: nat, production: System, path: Path) {
    && Begins(s, ids, production)
    && 0 < lease <= I64_MAX && s.started + lease <= I64_MAX
    && RunsThrough(s, ids, lease, PathAtClaim(path, ids.token, s))
  }

  predicate CanComplete(s: System, ids: Ids, now: I64) {
    && s.staged.None? && ids.output !in s.durable.representations && ids.activity !in s.durable.activities
    && HeldIn(s.durable, ids.job, ids.token) && Live(s.durable.jobs[ids.job].state.claim, now)
  }

  lemma LeaseMeans(s: System, ids: Ids, now: I64, expires: int)
    requires HoldsLease(s, ids, expires)
    ensures s.staged.None? && HeldIn(s.durable, ids.job, ids.token)
    ensures LeasedUntil(s.durable, ids.job, ids.token, expires)
    ensures Live(s.durable.jobs[ids.job].state.claim, now) <==> now < expires
  {}

  lemma LeaseCanComplete(s: System, ids: Ids, now: I64, expires: int)
    requires HoldsLease(s, ids, expires)
    ensures CanComplete(s, ids, now) <==> now < expires
  {}

  /** What the steps of one transaction do, whatever its operation is. */
  lemma TransactionSteps(s: System, op: Op, outcome: CommitOutcome)
    requires IsMutation(op)
    ensures s.staged.Some? ==> Step(s, Begin) == (s, Err(Storage))
    ensures s.staged.None? ==>
      var open := s.(staged := Some(s.durable));
      var made := Mutate(s.durable, op);
      && Step(s, Begin) == (open, Ok(())) && Step(open, Rollback) == (s, Ok(()))
      && (if (op.Act? ==> ExpiryIsFuture(op.action)) && made.Ok?
          then Step(open, op) == (s.(staged := Some(made.value)), Ok(()))
          else Step(open, op).0 == open && Step(open, op).1.Err?)
      && (made.Ok? ==> AfterCommit(s, s.(staged := Some(made.value)), outcome))
  {
    hide Mutate;
  }

  /** A commit takes effect or fails, and then a rollback leaves the system as it was before the transaction. */
  ghost predicate AfterCommit(before: System, staged: System, outcome: CommitOutcome)
    requires staged.staged.Some?
  {
    var done := Step(staged, Commit(outcome));
    if outcome == Commits
    then done == (System(staged.staged.value, None), Ok(()))
    else done.1.Err? && Step(done.0, Rollback).0 == before
  }

  /** Requests are never rewritten: every operation keeps each job except for its state. */
  lemma MutationKeepsRequests(ops: seq<Op>, op: Op)
    requires IsMutation(op)
    ensures var f := Jobs.Run(NEW_SYSTEM, ops).durable;
      Mutate(f, op).Ok? ==> forall id, job: Job :: id in f.jobs && f.jobs[id].(state := job.state) == job ==>
        id in Mutate(f, op).value.jobs && Mutate(f, op).value.jobs[id].(state := job.state) == job
  {
    hide Jobs.Run, Mutate, Consistent;
    var f := Jobs.Run(NEW_SYSTEM, ops).durable;
    ReachableInvariant(ops);
    if Mutate(f, op).Ok? {
      MutationKeepsConsistency(f, op);
      forall id | id in f.jobs
        ensures JobFollows(f, Mutate(f, op).value, id)
      {}
    }
  }

  // ---- The worker ----

  class ReferenceWorker {
    var production: System
    var path: Path
    ghost var history: seq<Op>

    ghost predicate Valid()
      reads this
    {
      production == Run(NEW_SYSTEM, history)
    }

    /** The prepared job is the stored one as it was requested. */
    ghost predicate Prepared(id: Uuid, job: Job)
      reads this
    {
      id in production.durable.jobs && production.durable.jobs[id].(state := job.state) == job
    }

    /** Other processes use the same production and the same path. */
    method Others(turn: Turn, ids: Ids, ghost job: Job)
      requires Valid() && Prepared(ids.job, job)
      modifies this
      ensures Valid() && Prepared(ids.job, job)
      ensures production == Run(old(production), turn.ops)
      ensures path == AfterOthers(old(path), ids.token, turn.files)
    {
      hide Run, SystemInvariant;
      ReachableInvariant(history);
      RunKeepsInvariant(production, turn.ops);
      RunConcatenates(NEW_SYSTEM, history, turn.ops);
      assert JobFollows(production.durable, Run(production, turn.ops).durable, ids.job);
      production := Run(production, turn.ops);
      path := AfterOthers(path, ids.token, turn.files);
      history := history + turn.ops;
    }

    /** One transaction around one operation: committed as a whole, or dropped without a trace. */
    method Transact(op: Op, outcome: CommitOutcome) returns (r: Result<()>)
      requires Valid() && IsMutation(op)
      modifies this`production, this`history
      ensures Valid()
      ensures r.Ok? <==> && old(production).staged.None? && outcome == Commits
                         && (op.Act? ==> ExpiryIsFuture(op.action)) && Mutate(old(production).durable, op).Ok?
      ensures r.Ok? ==> production == System(Mutate(old(production).durable, op).value, None)
      ensures r.Err? ==> production == old(production)
      ensures forall id, job :: old(Prepared(id, job)) ==> Prepared(id, job)
    {
      hide Mutate, Step, Jobs.Run, JobFollows;
      MutationKeepsRequests(history, op);
      TransactionSteps(production, op, outcome);
      r := Issue(Begin);
      if r.Err? {
        return;
      }
      r := Issue(op);
      if r.Ok? {
        r := Issue(Commit(outcome));
      }
      if r.Err? {
        var dropped := Issue(Rollback);
      }
    }

    method Issue(op: Op) returns (r: Result<()>)
      requires Valid()
      modifies this`production, this`history
      ensures Valid() && (production, r) == Step(old(production), op)
    {
      hide Step;
      assert (history + [op])[..|history|] == history;
      var step := Step(production, op);
      production, history, r := step.0, history + [op], step.1;
    }

    /**
     * `fail_executor_job`: the failure is recorded exactly when the bounded diagnostic is accepted, the
     * claim is held and live, and the transaction commits; otherwise nothing changes.
     */
    method FailExecutorJob(ids: Ids, now: I64, diagnostic: string, outcome: CommitOutcome) returns (r: Result<()>)
      requires Valid()
      modifies this`production, this`history
      ensures Valid()
      ensures r.Ok? <==> && IsRecordable(diagnostic)
                         && old(production).staged.None? && outcome == Commits
                         && HeldIn(old(production).durable, ids.job, ids.token)
                         && Live(old(production).durable.jobs[ids.job].state.claim, now)
      ensures r.Ok? ==> && ids.job in production.durable.jobs
                        && production.durable.jobs[ids.job].state == Failed(Bounded(diagnostic))
      ensures r.Err? ==> production == old(production)
      ensures forall id, job :: old(Prepared(id, job)) ==> Prepared(id, job)
    {
      hide Bounded;
      var bounded := BoundedJobDiagnostic(diagnostic);
      FailureAcceptedExactly(diagnostic);
      var failure :- NewFailure(bounded);
      r := Transact(Act(ids.job, Fail(ids.token, now, failure)), outcome);
    }

    /** The executor ends without an output: the job is released or failed, and no view reports success. */
    method EndWithoutOutput(ids: Ids, ghost job: Job, ending: Ending, s: Script, ghost expires: int)
      returns (r: Result<View>)
      requires Valid() && Prepared(ids.job, job)
      modifies this
      ensures Valid() && path == After(old(path), Leave(ids.token)) && r != Ok(ViewSucceeded)
      ensures r == Ok(ViewFailed) ==>
        ending.Reported? && FailureIsReported(production.durable, ids, Some(ending.diagnostic))
      ensures var before := old(production);
        before.staged.None? && s.endCommit == Commits && HeldIn(before.durable, ids.job, ids.token) ==>
          if ending.Unavailable? then
            production.durable.jobs == before.durable.jobs[ids.job := job.(state := Requested)]
          else if Live(before.durable.jobs[ids.job].state.claim, s.finished) && IsRecordable(ending.diagnostic) then
            FailureIsReported(production.durable, ids, Some(ending.diagnostic))
          else
            production == before
      ensures HoldsLease(old(production), ids, expires) && s.endCommit == Commits ==>
        && JobEndsAs(production.durable, ids, job, ending, s.finished, expires)
        && ViewOf(r, ending, s, expires)
    {
      hide Run, Bounded;
      path := After(path, Leave(ids.token));
      match ending
      case Unavailable =>
        var released := Transact(Act(ids.job, Release(ids.token)), s.endCommit);
        r := Err(if released.Err? then released.error else Storage);
      case Reported(diagnostic) =>
        var failed :- FailExecutorJob(ids, s.finished, diagnostic, s.endCommit);
        assert Prepared(ids.job, job);
        r := if s.reloads then Ok(ViewFailed) else Err(Storage);
      case Broke(diagnostic) =>
        var failed := FailExecutorJob(ids, s.finished, diagnostic, s.endCommit);
        assert Prepared(ids.job, job);
        r := Err(Storage);
    }

    /**
     * The completion transaction: it commits exactly when the identities are new, the claim is held and
     * live, and storage persists and commits it; then the job has succeeded with this worker's results.
     */
    method RecordCompletion(ids: Ids, job: Job, s: Script, activity: Provenance.Activity) returns (r: Result<()>)
      requires Valid() && Prepared(ids.job, job)
      requires ExecutorActivity(ids.activity, job, ids.output, s.started, s.finished) == Ok(activity)
      modifies this`production, this`history
      ensures Valid() && Prepared(ids.job, job)
      ensures var f := old(production).durable;
        r.Ok? <==> && s.persists && s.endCommit == Commits && old(production).staged.None?
                   && ids.output !in f.representations && ids.activity !in f.activities
                   && HeldIn(f, ids.job, ids.token) && Live(f.jobs[ids.job].state.claim, s.finished)
      ensures r.Ok? ==> Recorded(production.durable, ids, job, s)
      ensures r.Err? ==> production == old(production)
    {
      hide Run, CompletionMatches, ExecutorActivity, ClosesCycle, EdgesExist, ResultsAreStored;
      ghost var f := production.durable;
      if ids.output !in f.representations && ids.activity !in f.activities {
        CompletionAcceptedExactly(history, ids.job, ids.token, job, ids.output, ids.activity, s.started, s.finished);
      }
      ExecutorActivityAnswers(ids.activity, job, ids.output, s.started, s.finished);
      CompletionStoresResults(f, ids, job, s, activity);
      var added := Import(ids.output, job.asset, job.outputKind);
      r := Transact(CompleteJob(ids.job, ids.token, s.finished, added, activity, s.persists), s.endCommit);
    }

    /** The output cannot be prepared, or is gone: the worker removes what is there and fails the job. */
    method FailPreparation(ids: Ids, ghost job: Job, s: Script, ghost expires: int) returns (r: Result<View>)
      requires Valid() && Prepared(ids.job, job)
      modifies this
      ensures Valid() && path == After(old(path), CleanUp(ids.token)) && r.Err?
      ensures HoldsLease(old(production), ids, expires) && s.endCommit == Commits ==>
        JobEndsAs(production.durable, ids, job, Broke(CANNOT_PREPARE), s.finished, expires)
    {
      hide Run, Bounded;
      path := After(path, CleanUp(ids.token));
      MessagesAreRecordable();
      var failed := FailExecutorJob(ids, s.finished, CANNOT_PREPARE, s.endCommit);
      assert Prepared(ids.job, job);
      r := Err(if failed.Err? then failed.error else Storage);
    }

    /**
     * `complete_executor_job`, entered when the output has just been published. Other workers may take the
     * file away at any time if they were already past their check. When none was, the file is in place at
     * the end exactly when the completion has committed or the activity was refused.
     */
    method CompleteExecutorJob(ids: Ids, job: Job, s: Script, ghost expires: int)
      returns (r: Result<View>, ghost committed: bool)
      requires Valid() && Prepared(ids.job, job)
      requires path.InPhase(ids.token, Published) && path.file == Some(ids.token)
      modifies this
      ensures Valid()
      ensures r != Ok(ViewFailed) && (r == Ok(ViewSucceeded) <==> committed && s.reloads)
      ensures committed ==> Recorded(production.durable, ids, job, s)
      ensures var refused := s.prepares && ExecutorActivity(ids.activity, job, ids.output, s.started, s.finished).Err?;
        && (path.file == Some(ids.token) ==> committed || refused)
        && (!old(path).HasLateWorker(ids.token) ==> (path.file == Some(ids.token) <==> committed || refused))
      ensures HoldsLease(old(production), ids, expires) && Finishes(s, ids, expires)
              && !old(path).HasLateWorker(ids.token) ==>
        (r == Ok(ViewSucceeded) <==>
           && ExecutorActivity(ids.activity, job, ids.output, s.started, s.finished).Ok?
           && s.finished < expires)
      ensures HoldsLease(old(production), ids, expires) && Harmless(s.beforePreparing.ops, ids, expires)
              && (!s.prepares || AfterOthers(old(path), ids.token, s.beforePreparing.files).file.None?)
              && s.endCommit == Commits ==>
        JobEndsAs(production.durable, ids, job, Broke(CANNOT_PREPARE), s.finished, expires)
    {
      hide Run, ExecutorActivity, After, AfterOthers, Harmless, IsSafe, Mutate, HoldsLease, Recorded, JobEndsAs;
      committed := false;
      ghost var leased := HoldsLease(production, ids, expires) && Harmless(s.beforePreparing.ops, ids, expires);
      ghost var smooth := HoldsLease(production, ids, expires) && Finishes(s, ids, expires);
      ghost var safe := !path.HasLateWorker(ids.token);
      assert safe ==> IsSafe(path, ids.token) by { SafeMeans(path, ids.token); }
      assert leased ==> HoldsLease(Run(production, s.beforePreparing.ops), ids, expires) by {
        if leased { HarmlessKeepsLease(production, s.beforePreparing.ops, ids, expires); }
      }
      OthersKeepSafe(path, ids.token, s.beforePreparing.files);
      Others(s.beforePreparing, ids, job);
      SafeMeans(path, ids.token);
      if !s.prepares || path.file.None? {
        CleanedUp(path, ids.token);
        r := FailPreparation(ids, job, s, expires);
        return;
      }
      assert smooth ==> HoldsLease(Run(production, s.beforeCompletion.ops), ids, expires) by {
        if smooth { HarmlessKeepsLease(production, s.beforeCompletion.ops, ids, expires); }
      }
      OthersKeepSafe(path, ids.token, s.beforeCompletion.files);
      Others(s.beforeCompletion, ids, job);
      var activity := ExecutorActivity(ids.activity, job, ids.output, s.started, s.finished);
      SafeMeans(path, ids.token);
      LeftAlone(path, ids.token);
      if activity.Err? {
        path := After(path, Leave(ids.token));
        return Err(activity.error), false;
      }
      assert smooth ==> (CanComplete(production, ids, s.finished) <==> s.finished < expires) by {
        if smooth { LeaseCanComplete(production, ids, s.finished, expires); }
      }
      var completion := RecordCompletion(ids, job, s, activity.value);
      if completion.Err? {
        CleanedUp(path, ids.token);
        path := After(path, CleanUp(ids.token));
        return Err(completion.error), false;
      }
      committed := true;
      path := After(path, Leave(ids.token));
      OthersKeepSafe(path, ids.token, s.afterCompletion.files);
      RecordedStays(history, s.afterCompletion.ops, ids, job, s);
      Others(s.afterCompletion, ids, job);
      SafeMeans(path, ids.token);
      r := if s.reloads then Ok(ViewSucceeded) else Err(Storage);
    }

    /** The heartbeat closure: renewing from the current clock in a transaction of its own. */
    method Heartbeat(ids: Ids, job: Job, lease: nat, beat: Beat, ghost current: int) returns (ok: bool)
      requires Valid() && Prepared(ids.job, job)
      modifies this
      ensures Valid() && Prepared(ids.job, job)
      ensures path == AfterOthers(old(path), ids.token, beat.others.files)
      ensures ok ==> LeasedUntil(production.durable, ids.job, ids.token, beat.now + lease)
      ensures IsUndisturbed(beat, ids, current, lease) && HoldsLease(old(production), ids, current) ==>
        && (ok <==> beat.now < current < beat.now + lease)
        && HoldsLease(production, ids, if ok then beat.now + lease else current)
    {
      hide Mutate, Run, LeasedUntil, IsReady, Harmless, AfterOthers;
      ghost var undisturbed := IsUndisturbed(beat, ids, current, lease) && HoldsLease(production, ids, current);
      if undisturbed {
        HarmlessKeepsLease(production, beat.others.ops, ids, current);
      }
      Others(beat.others, ids, job);
      var expires := TimestampAfter(beat.now, lease);
      if expires.Err? {
        return false;
      }
      ghost var f := production.durable;
      if undisturbed {
        RenewalSucceedsExactly(f, ids, beat.now, current, expires.value);
      }
      var renewed := Transact(Act(ids.job, Renew(ids.token, beat.now, expires.value)), beat.outcome);
      RenewedLease(f, ids.job, ids.token, beat.now, expires.value);
      ok := renewed.Ok?;
    }

    /** The heartbeats of one execution; the first that fails ends it. */
    method Heartbeats(ids: Ids, job: Job, lease: nat, beats: seq<Beat>, ghost started: I64)
      returns (ok: bool, ghost made: nat)
      requires Valid() && Prepared(ids.job, job)
      modifies this
      ensures Valid() && Prepared(ids.job, job)
      ensures made <= |beats| && (ok ==> made == |beats|)
      ensures path == AfterBeats(old(path), ids.token, beats[..made])
      ensures ok && beats != [] ==>
        LeasedUntil(production.durable, ids.job, ids.token, beats[|beats| - 1].now + lease)
      ensures AreUndisturbed(started, beats, ids, lease) && HoldsLease(old(production), ids, started + lease) ==>
        && (ok <==> OnSchedule(started, beats, lease))
        && HoldsLease(production, ids, KeptUntil(started, beats, lease))
    {
      hide Mutate, Run, LeasedUntil, HoldsLease, IsUndisturbed, AfterOthers, AfterBeats, IsOnTime, LastClock, KeptUntil;
      ok, made := true, 0;
      ghost var smooth := AreUndisturbed(started, beats, ids, lease) && HoldsLease(production, ids, started + lease);
      NoBeats(path, ids.token, beats);
      FirstClock(started, beats);
      for i := 0 to |beats|
        invariant made == i && Valid() && Prepared(ids.job, job)
        invariant path == AfterBeats(old(path), ids.token, beats[..i])
        invariant i > 0 ==> LeasedUntil(production.durable, ids.job, ids.token, beats[i - 1].now + lease)
        invariant smooth ==> HoldsLease(production, ids, LastClock(started, beats, i) + lease)
        invariant smooth ==> forall k :: 0 <= k < i ==> IsOnTime(started, beats, k, lease)
      {
        OneMoreBeat(old(path), ids.token, beats, i);
        OneMoreClock(started, beats, i, lease);
        ok := Heartbeat(ids, job, lease, beats[i], LastClock(started, beats, i) + lease);
        made := i + 1;
        if !ok {
          if smooth {
            LateIsFirst(started, beats, i, lease);
          }
          return;
        }
      }
      KeptToTheLast(started, beats, lease);
    }

    /**
     * The execution from the executor's look at the free output path to the worker's view. The ghosts are the
     * path at the claim and, among others that leave the claim alone, the expiry when the heartbeats are over.
     */
    method ExecuteChecked(ids: Ids, job: Job, lease: nat, s: Script, ghost claimed: Path, ghost expires: int)
      returns (r: Result<View>)
      requires Valid() && Prepared(ids.job, job) && s.execution.Runs?
      requires path == PathAtCheck(claimed, ids.token, s) && path.InPhase(ids.token, Executing) && path.file.None?
      requires expires == KeptUntil(ProbedAt(s), s.execution.beats, lease)
      modifies this
      ensures Valid()
      ensures r == Ok(ViewSucceeded) ==>
        && Recorded(production.durable, ids, job, s)
        && (!PathAtPublication(claimed, ids.token, s).HasLateWorker(ids.token) ==> path.file == Some(ids.token))
      ensures r == Ok(ViewFailed) ==>
        && s.execution.ending.Some? && s.execution.ending.value.Reported?
        && FailureIsReported(production.durable, ids, Some(s.execution.ending.value.diagnostic))
        && path.file != Some(ids.token)
      ensures r.Err? && path.file == Some(ids.token) ==>
        || ExecutorActivity(ids.activity, job, ids.output, s.started, s.finished).Err?
        || (Recorded(production.durable, ids, job, s) && !s.reloads)
      ensures HoldsLease(old(production), ids, ProbedAt(s) + lease)
              && AreUndisturbed(ProbedAt(s), s.execution.beats, ids, lease) && r == Ok(ViewSucceeded) ==>
        OnSchedule(ProbedAt(s), s.execution.beats, lease)
      ensures var onSchedule := OnSchedule(ProbedAt(s), s.execution.beats, lease);
        var ending := if onSchedule then s.execution.ending else Some(Broke(EXECUTOR_ERROR));
        HoldsLease(old(production), ids, ProbedAt(s) + lease) && BeatsAlone(s, ids, lease, expires) ==>
          && (ending.Some? && s.endCommit == Commits ==>
                && JobEndsAs(production.durable, ids, job, ending.value, s.finished, expires)
                && ViewOf(r, ending.value, s, expires))
          && (ending.None? && s.endCommit == Commits && Harmless(s.beforePreparing.ops, ids, expires) && !s.prepares ==>
                JobEndsAs(production.durable, ids, job, Broke(CANNOT_PREPARE), s.finished, expires))
          && (s.execution.ending.None? && Finishes(s, ids, expires)
              && !PathAtPublication(claimed, ids.token, s).HasLateWorker(ids.token) ==>
                (r == Ok(ViewSucceeded) <==>
                   && onSchedule && s.finished < expires
                   && ExecutorActivity(ids.activity, job, ids.output, s.started, s.finished).Ok?))
    {
      hide Run, ExecutorActivity, Mutate, After, AfterOthers, AfterBeats, Harmless, Bounded, HoldsLease;
      hide Finishes, Recorded, AreUndisturbed, OnSchedule, KeptUntil, JobEndsAs, LeasedUntil, PathAtCheck;
      ghost var leased := HoldsLease(production, ids, ProbedAt(s) + lease) && BeatsAlone(s, ids, lease, expires);
      KeptToTheLast(ProbedAt(s), s.execution.beats, lease);
      PassedCheck(path, ids.token);
      path := After(path, CheckPath(ids.token));
      ghost var checked := path;
      var alive; ghost var made;
      alive, made := Heartbeats(ids, job, lease, s.execution.beats, ProbedAt(s));
      BeatsKeepOwn(checked, ids.token, s.execution.beats[..made]);
      assert s.execution.beats[..|s.execution.beats|] == s.execution.beats;
      if leased {
        HarmlessKeepsLease(production, s.beforeEnd.ops, ids, expires);
      }
      OthersKeepSafe(path, ids.token, s.beforeEnd.files);
      Others(s.beforeEnd, ids, job);
      LeftAlone(path, ids.token);
      if !alive {
        r := EndWithoutOutput(ids, job, Broke(EXECUTOR_ERROR), s, expires);
        return;
      }
      if s.execution.ending.Some? {
        r := EndWithoutOutput(ids, job, s.execution.ending.value, s, expires);
        return;
      }
      Renamed(path, ids.token);
      path := After(path, Publish(ids.token));
      ghost var committed;
      r, committed := CompleteExecutorJob(ids, job, s, expires);
    }

    /** The execution of a claimed job, from the claim's commit to the worker's view. */
    method Execute(ids: Ids, job: Job, lease: nat, s: Script) returns (r: Result<View>)
      requires Valid() && Prepared(ids.job, job)
      requires path.InPhase(ids.token, Executing) && path.file != Some(ids.token)
      modifies this
      ensures Valid()
      ensures r == Ok(ViewSucceeded) ==>
        && Recorded(production.durable, ids, job, s) && s.execution.Runs?
        && (!PathAtPublication(old(path), ids.token, s).HasLateWorker(ids.token) ==> path.file == Some(ids.token))
      ensures r == Ok(ViewFailed) ==>
        && FailureIsReported(production.durable, ids, Report(s, PathAtCheck(old(path), ids.token, s)))
        && path.file != Some(ids.token)
      ensures r.Err? && path.file == Some(ids.token) ==>
        || ExecutorActivity(ids.activity, job, ids.output, s.started, s.finished).Err?
        || (Recorded(production.durable, ids, job, s) && !s.reloads)
      ensures RunsThrough(s, ids, lease, old(path)) && HoldsLease(old(production), ids, s.started + lease)
              && (ExecutorActivity(ids.activity, job, ids.output, s.started, s.finished).Ok?
                  <==> s.started <= s.finished) ==>
        (r == Ok(ViewSucceeded) <==> KeepsLease(s, lease))
      // What becomes of the job when the execution or the preparation ends without an output.
      ensures var atCheck := PathAtCheck(old(path), ids.token, s);
        var expires := LeaseAtEnd(s, lease, atCheck);
        HoldsLease(old(production), ids, s.started + lease) ==>
          && (EndsUndisturbed(s, ids, lease, atCheck) && EndOf(s, lease, atCheck).Some? ==>
                && JobEndsAs(production.durable, ids, job, EndOf(s, lease, atCheck).value, s.finished, expires)
                && ViewOf(r, EndOf(s, lease, atCheck).value, s, expires))
          && (Publishes(s, ids, lease, atCheck) && !s.prepares ==>
                JobEndsAs(production.durable, ids, job, Broke(CANNOT_PREPARE), s.finished, expires))
    {
      hide Run, ExecutorActivity, Mutate, After, AfterOthers, AfterBeats, Harmless, Bounded, HoldsLease;
      hide Finishes, Recorded, AreUndisturbed, OnSchedule, KeptUntil, JobEndsAs, LeasedUntil;
      ghost var atCheck := PathAtCheck(path, ids.token, s);
      ghost var leased := HoldsLease(production, ids, s.started + lease);
      ghost var undisturbed := EndsUndisturbed(s, ids, lease, atCheck) && leased;
      KeptToTheLast(s.started, s.probe, lease);
      if s.execution.Runs? {
        KeptToTheLast(ProbedAt(s), s.execution.beats, lease);
      }
      ghost var smooth := RunsThrough(s, ids, lease, path) && leased;
      ghost var claimed := path;
      ghost var made;
      var alive;
      alive, made := Heartbeats(ids, job, lease, s.probe, s.started);
      BeatsKeepOwn(claimed, ids.token, s.probe[..made]);
      assert s.probe[..|s.probe|] == s.probe;
      ghost var probed := KeptUntil(s.started, s.probe, lease);
      if undisturbed || (smooth && alive) {
        HarmlessKeepsLease(production, s.beforeCheck.ops, ids, probed);
      }
      OthersKeepSafe(path, ids.token, s.beforeCheck.files);
      Others(s.beforeCheck, ids, job);
      LeftAlone(path, ids.token);
      if !alive {
        r := EndWithoutOutput(ids, job, Broke(EXECUTOR_ERROR), s, probed);
        return;
      }
      if s.execution.StopsEarly? {
        r := EndWithoutOutput(ids, job, s.execution.early, s, probed);
        return;
      }
      if path.file.Some? {
        r := EndWithoutOutput(ids, job, Reported(OUTPUT_EXISTS), s, probed);
        return;
      }
      r := ExecuteChecked(ids, job, lease, s, claimed, KeptUntil(ProbedAt(s), s.execution.beats, lease));
    }

    /**
     * `run_executor_job`: a reported success is recorded, and its output is in place if no other worker
     * was past its check when the output was published; a reported failure is recorded; and after an error
     * the worker's output is left only by a refused activity or a failed reload. Among harmless others and
     * with nothing else failing, the worker succeeds exactly when its clocks keep its lease.
     */
    method RunExecutorJob(ids: Ids, job: Job, tool: string, lease: nat, s: Script) returns (r: Result<View>)
      requires Valid() && Prepared(ids.job, job)
      requires ids.token !in path.phases && path.file != Some(ids.token)
      modifies this
      ensures Valid()
      ensures var claimed := PathAtClaim(old(path), ids.token, s);
        && (r == Ok(ViewSucceeded) ==>
              && Recorded(production.durable, ids, job, s) && s.execution.Runs?
              && (!PathAtPublication(claimed, ids.token, s).HasLateWorker(ids.token) ==> path.file == Some(ids.token)))
        && (r == Ok(ViewFailed) ==>
              && FailureIsReported(production.durable, ids, Report(s, PathAtCheck(claimed, ids.token, s)))
              && path.file != Some(ids.token))
      ensures r.Err? && path.file == Some(ids.token) ==>
        || ExecutorActivity(ids.activity, job, ids.output, s.started, s.finished).Err?
        || (Recorded(production.durable, ids, job, s) && !s.reloads)
      ensures Smooth(s, ids, lease, old(production), old(path)) && |job.inputs| <= MAX_JOB_INPUTS
              && Distinct(job.inputs) ==>
        && (r == Ok(ViewSucceeded) <==> KeepsLease(s, lease))
        && (r == Ok(ViewSucceeded) ==> path.file == Some(ids.token))
      // Without the claim the worker does nothing; with it, the job ends as the execution does.
      ensures var before := Run(old(production), s.beforeClaim.ops);
        before.staged.Some? || !Claimable(before.durable, ids.job, s.started) ==> r.Err? && production == before
      ensures var atCheck := PathAtCheck(PathAtClaim(old(path), ids.token, s), ids.token, s);
        var expires := LeaseAtEnd(s, lease, atCheck);
        Begins(s, ids, old(production)) && 0 < lease <= I64_MAX && s.started + lease <= I64_MAX ==>
          && (EndsUndisturbed(s, ids, lease, atCheck) && EndOf(s, lease, atCheck).Some? ==>
                && JobEndsAs(production.durable, ids, job, EndOf(s, lease, atCheck).value, s.finished, expires)
                && ViewOf(r, EndOf(s, lease, atCheck).value, s, expires))
          && (Publishes(s, ids, lease, atCheck) && !s.prepares ==>
                JobEndsAs(production.durable, ids, job, Broke(CANNOT_PREPARE), s.finished, expires))
    {
      hide Run, ExecutorActivity, Mutate, Distinct, After, AfterOthers, RunsThrough, Recorded, Report, KeepsLease;
      hide EndsUndisturbed, EndOf, LeaseAtEnd, Publishes, JobEndsAs, ViewOf, PathAtCheck, PathAtPublication, Claimable;
      ghost var smooth := && Smooth(s, ids, lease, production, path)
                          && |job.inputs| <= MAX_JOB_INPUTS && Distinct(job.inputs);
      OthersKeepSafe(path, ids.token, s.beforeClaim.files);
      Others(s.beforeClaim, ids, job);
      var expires :- TimestampAfter(s.started, lease);
      if smooth {
        NewOutputIsNoInput(history, ids.job, job, ids.output);
        OnlyTimingIsRefused(ids.activity, job, ids.output, s.started, s.finished);
        ThroughMeans(s, ids, lease, PathAtClaim(old(path), ids.token, s));
      }
      if Begins(s, ids, old(production)) {
        ClaimTakesLease(production.durable, ids, tool, s.started, expires);
      }
      ClaimNeedsClaimable(production.durable, ids, tool, s.started, expires);
      var claimed := Transact(Act(ids.job, Claim(ids.token, tool, s.started, expires)), s.claimCommit);
      if claimed.Err? {
        return Err(claimed.error);
      }
      Started(path, ids.token);
      path := After(path, Start(ids.token));
      if !s.requestIsValid {
        return Err(InvalidArgument);
      }
      r := Execute(ids, job, lease, s);
    }
  }

  lemma ThroughMeans(s: Script, ids: Ids, lease: nat, claimed: Path)
    requires RunsThrough(s, ids, lease, claimed)
    ensures s.execution.Runs?
    ensures !PathAtPublication(claimed, ids.token, s).HasLateWorker(ids.token)
  {}
}
