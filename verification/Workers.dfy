/**
 * All reference workers of one job on the stored claims and the output path: their runs are runs of the
 * output protocol (crates/postproject-cli/src/main.rs, crates/postproject-media/src/executor.rs).
 */
module Workers {
  import opened Wrappers
  import opened Identity
  import opened Jobs
  import opened OutputPath
  import OutputFile

  /** The stored facts, the job's output path, and, as history, the token that completed the job. */
  datatype World = World(facts: Facts, path: Path, completer: Option<Uuid>)

  /** A transaction around one operation of any process, or a worker's step on the output path. */
  datatype WorldStep = Transaction(op: Op) | OnPath(e: PathEvent)

  predicate IsMutation(op: Op) {
    !op.Begin? && !op.Commit? && !op.Rollback?
  }

  predicate Succeeds(f: Facts, op: Op) {
    IsMutation(op) && (op.Act? ==> ExpiryIsFuture(op.action)) && Mutate(f, op).Ok?
  }

  predicate Claims(op: Op, id: Uuid) {
    op.Act? && op.id == id && op.action.Claim?
  }

  predicate Completes(op: Op, id: Uuid) {
    op.CompleteJob? && op.id == id
  }

  function Next(w: World, step: WorldStep, id: Uuid): World {
    match step
    case OnPath(e) => w.(path := After(w.path, e))
    case Transaction(op) =>
      if !Succeeds(w.facts, op) then
        w
      else
        var after := w.(facts := Mutate(w.facts, op).value);
        if Claims(op, id) then after.(path := After(w.path, Start(op.action.token)))
        else if Completes(op, id) then World(after.facts, After(w.path, Leave(op.token)), Some(op.token))
        else after
  }

  function Run(w: World, steps: seq<WorldStep>, id: Uuid): World {
    if steps == [] then w else Next(Run(w, steps[..|steps| - 1], id), steps[|steps| - 1], id)
  }

  /**
   * What workers do: tokens are fresh, a worker is on the path from its claim on, and the job is completed
   * by workers that have published.
   */
  predicate Obeys(w: World, step: WorldStep, id: Uuid) {
    match step
    case OnPath(e) => !e.Start?
    case Transaction(op) =>
      && (Claims(op, id) ==> op.action.token !in w.path.phases)
      && (Completes(op, id) ==> w.path.InPhase(op.token, Published))
  }

  ghost predicate AllObey(w: World, steps: seq<WorldStep>, id: Uuid) {
    forall i :: 0 <= i < |steps| ==> Obeys(Run(w, steps[..i], id), steps[i], id)
  }

  // ---- The output protocol of a world ----

  function Holder(f: Facts, id: Uuid): Option<Uuid> {
    if id in f.jobs && f.jobs[id].state.Claimed? then Some(f.jobs[id].state.claim.token) else None
  }

  predicate HasSucceeded(f: Facts, id: Uuid) {
    id in f.jobs && f.jobs[id].state.Succeeded?
  }

  /** The holder is the stored claim's token, and the job is completed when it is stored as succeeded. */
  function Abstract(w: World, id: Uuid): OutputFile.State {
    OutputFile.State(Holder(w.facts, id), w.completer, w.path)
  }

  predicate IsConsistent(w: World, id: Uuid) {
    w.completer.Some? <==> HasSucceeded(w.facts, id)
  }

  /** The event of the output protocol that a step is, if it is one. */
  function EventsOf(w: World, step: WorldStep, id: Uuid): seq<OutputFile.Event> {
    match step
    case OnPath(e) => [OutputFile.Work(e)]
    case Transaction(op) =>
      if !Succeeds(w.facts, op) then
        []
      else
        match op
        case Act(job, Claim(t, _, _, _)) => if job == id then [OutputFile.ClaimJob(t)] else []
        case Act(_, Renew(_, _, _)) => []
        case Act(job, _) => if job == id then [OutputFile.LoseClaim] else []
        case CompleteJob(job, t, _, _, _, _) => if job == id then [OutputFile.Complete(t)] else []
        case _ => []
  }

  function AllEvents(w: World, steps: seq<WorldStep>, id: Uuid): seq<OutputFile.Event> {
    if steps == [] then
      []
    else
      AllEvents(w, steps[..|steps| - 1], id)
      + EventsOf(Run(w, steps[..|steps| - 1], id), steps[|steps| - 1], id)
  }

  lemma RunEvents(s: OutputFile.State, before: seq<OutputFile.Event>, events: seq<OutputFile.Event>)
    requires |events| <= 1
    ensures OutputFile.Run(s, before + events)
         == if events == [] then OutputFile.Run(s, before) else OutputFile.Next(OutputFile.Run(s, before), events[0])
  {
    if events == [] {
      assert before + events == before;
    } else {
      assert (before + events)[..|before|] == before;
    }
  }

  lemma OtherOperations(f: Facts, op: Op, id: Uuid)
    requires Succeeds(f, op) && !op.Act? && !Completes(op, id)
    ensures Holder(Mutate(f, op).value, id) == Holder(f, id)
    ensures HasSucceeded(Mutate(f, op).value, id) <==> HasSucceeded(f, id)
  {
    hide CompletionMatches, EdgesExist, ClosesCycle;
  }

  lemma ActionIsAnEvent(w: World, op: Op, id: Uuid)
    requires op.Act? && Succeeds(w.facts, op) && Obeys(w, Transaction(op), id) && IsConsistent(w, id)
    ensures var next, events := Next(w, Transaction(op), id), EventsOf(w, Transaction(op), id);
      && IsConsistent(next, id) && |events| <= 1
      && Abstract(next, id) == if events == [] then Abstract(w, id) else OutputFile.Next(Abstract(w, id), events[0])
  {
    hide After;
  }

  lemma CompletionIsAnEvent(w: World, op: Op, id: Uuid)
    requires Completes(op, id) && Succeeds(w.facts, op) && Obeys(w, Transaction(op), id) && IsConsistent(w, id)
    ensures var next, events := Next(w, Transaction(op), id), EventsOf(w, Transaction(op), id);
      && IsConsistent(next, id) && |events| == 1
      && Abstract(next, id) == OutputFile.Next(Abstract(w, id), events[0])
  {
    hide After, CompletionMatches, EdgesExist, ClosesCycle;
  }

  /** One step of the world is at most one event of the output protocol. */
  lemma StepIsAnEvent(w: World, step: WorldStep, id: Uuid)
    requires Obeys(w, step, id) && IsConsistent(w, id)
    ensures var next, events := Next(w, step, id), EventsOf(w, step, id);
      && IsConsistent(next, id) && |events| <= 1
      && Abstract(next, id) == if events == [] then Abstract(w, id) else OutputFile.Next(Abstract(w, id), events[0])
  {
    hide After, Mutate, IsConsistent, Holder, HasSucceeded;
    if step.Transaction? && Succeeds(w.facts, step.op) {
      if step.op.Act? {
        ActionIsAnEvent(w, step.op, id);
      } else if Completes(step.op, id) {
        CompletionIsAnEvent(w, step.op, id);
      } else {
        OtherOperations(w.facts, step.op, id);
        assert IsConsistent(Next(w, step, id), id) by { SameConsistency(w, Next(w, step, id), id); }
      }
    } else {
      SameConsistency(w, Next(w, step, id), id);
    }
  }

  lemma SameConsistency(w: World, v: World, id: Uuid)
    requires IsConsistent(w, id) && v.completer == w.completer
    requires HasSucceeded(v.facts, id) <==> HasSucceeded(w.facts, id)
    ensures IsConsistent(v, id)
  {}

  lemma ObeyingPrefix(w: World, steps: seq<WorldStep>, id: Uuid)
    requires steps != [] && AllObey(w, steps, id)
    ensures AllObey(w, steps[..|steps| - 1], id)
    ensures Obeys(Run(w, steps[..|steps| - 1], id), steps[|steps| - 1], id)
  {
    hide Run, Obeys;
    var front := steps[..|steps| - 1];
    forall i | 0 <= i < |front|
      ensures Obeys(Run(w, front[..i], id), front[i], id)
    {
      assert front[..i] == steps[..i];
      assert Obeys(Run(w, steps[..i], id), steps[i], id);
    }
  }

  /** Every run of workers on the stored claims and the path is a run of the output protocol. */
  lemma {:induction false} RunsAreOutputRuns(w: World, steps: seq<WorldStep>, id: Uuid)
    requires AllObey(w, steps, id) && IsConsistent(w, id)
    ensures IsConsistent(Run(w, steps, id), id)
    ensures Abstract(Run(w, steps, id), id) == OutputFile.Run(Abstract(w, id), AllEvents(w, steps, id))
  {
    hide Next, Obeys, IsConsistent, Abstract, EventsOf, AllObey;
    if steps != [] {
      var front, last := steps[..|steps| - 1], steps[|steps| - 1];
      ObeyingPrefix(w, steps, id);
      RunsAreOutputRuns(w, front, id);
      StepIsAnEvent(Run(w, front, id), last, id);
      RunEvents(Abstract(w, id), AllEvents(w, front, id), EventsOf(Run(w, front, id), last, id));
    }
  }

  // ---- What follows for the stored job ----

  /** A worker touches the path only while the stored claim is its own. */
  predicate IsTimely(w: World, step: WorldStep, id: Uuid) {
    match step
    case OnPath(Publish(t)) => HeldIn(w.facts, id, t)
    case OnPath(CleanUp(t)) => HeldIn(w.facts, id, t)
    case _ => true
  }

  ghost predicate AllTimely(w: World, steps: seq<WorldStep>, id: Uuid) {
    forall i :: 0 <= i < |steps| ==> IsTimely(Run(w, steps[..i], id), steps[i], id)
  }

  lemma TimelyPrefix(w: World, steps: seq<WorldStep>, id: Uuid)
    requires steps != [] && AllTimely(w, steps, id)
    ensures AllTimely(w, steps[..|steps| - 1], id)
    ensures IsTimely(Run(w, steps[..|steps| - 1], id), steps[|steps| - 1], id)
  {
    hide Run, IsTimely;
    var front := steps[..|steps| - 1];
    forall i | 0 <= i < |front|
      ensures IsTimely(Run(w, front[..i], id), front[i], id)
    {
      assert front[..i] == steps[..i];
      assert IsTimely(Run(w, steps[..i], id), steps[i], id);
    }
  }

  lemma TimelyStepIsTimelyEvent(w: World, step: WorldStep, id: Uuid)
    requires IsTimely(w, step, id) && EventsOf(w, step, id) != []
    ensures OutputFile.Timely(Abstract(w, id), EventsOf(w, step, id)[0])
  {
    hide Mutate;
  }

  /**
   * When workers publish and clean up only while the stored claim is their own, a job that is stored as
   * succeeded has the output of the worker that completed it in place, in every run.
   */
  lemma {:induction false} TimelyWorkersKeepTheStoredOutput(w: World, steps: seq<WorldStep>, id: Uuid)
    requires AllObey(w, steps, id) && AllTimely(w, steps, id)
    requires IsConsistent(w, id) && OutputFile.HolderOwnsFile(Abstract(w, id))
    ensures var end := Run(w, steps, id);
      && OutputFile.HolderOwnsFile(Abstract(end, id)) && IsConsistent(end, id)
      && (HasSucceeded(end.facts, id) ==> end.completer.Some? && end.path.file == end.completer)
  {
    hide Next, Obeys, IsTimely, EventsOf, AllObey, AllTimely, OutputFile.Next;
    if steps != [] {
      var front, last := steps[..|steps| - 1], steps[|steps| - 1];
      ObeyingPrefix(w, steps, id);
      TimelyPrefix(w, steps, id);
      TimelyWorkersKeepTheStoredOutput(w, front, id);
      var before := Run(w, front, id);
      StepIsAnEvent(before, last, id);
      if EventsOf(before, last, id) != [] {
        TimelyStepIsTimelyEvent(before, last, id);
        OutputFile.TimelyStepKeepsOwnership(Abstract(before, id), EventsOf(before, last, id)[0]);
      }
    }
  }

  /**
   * Without timeliness: a worker that publishes while its claim is stored and while no other worker is past
   * its check has its output in place whenever the job is stored as succeeded by it, in every continuation.
   */
  lemma SuccessHasTheStoredOutput(w: World, steps: seq<WorldStep>, id: Uuid, token: Uuid)
    requires AllObey(w, steps, id) && IsConsistent(w, id)
    requires HeldIn(w.facts, id, token) && w.path.InPhase(token, Published) && w.path.file == Some(token)
    requires !w.path.HasLateWorker(token)
    ensures var end := Run(w, steps, id);
      && (HasSucceeded(end.facts, id) <==> end.completer.Some?)
      && (end.completer == Some(token) ==> end.path.file == Some(token))
  {
    hide Run, OutputFile.Run, AllObey;
    RunsAreOutputRuns(w, steps, id);
    OutputFile.SuccessHasOutputExactly(Abstract(w, id), token);
  }

  // ---- Worlds run the lease protocol ----

  function OpsOf(w: World, step: WorldStep): seq<Op> {
    match step
    case OnPath(_) => []
    case Transaction(op) =>
      if !IsMutation(op) then []
      else [Begin, op, if Succeeds(w.facts, op) then Commit(Commits) else Rollback]
  }

  lemma {:induction false} RunThree(s: System, a: Op, b: Op, c: Op)
    ensures Jobs.Run(s, [a, b, c]) == Step(Step(Step(s, a).0, b).0, c).0
  {
    hide Step;
    var ops := [a, b, c];
    assert ops[..2] == [a, b] && [a, b][..1] == [a] && [a][..0] == [];
    assert Jobs.Run(s, []) == s;
    assert Jobs.Run(s, [a]) == Step(s, a).0;
    assert Jobs.Run(s, [a, b]) == Step(Step(s, a).0, b).0;
  }

  /** The facts of a world are those of a run of the protocol, so all its results hold for them. */
  lemma WorldStepIsATransaction(w: World, step: WorldStep, id: Uuid)
    ensures Jobs.Run(System(w.facts, None), OpsOf(w, step)) == System(Next(w, step, id).facts, None)
  {
    hide Mutate;
    if step.Transaction? && IsMutation(step.op) {
      var end := OpsOf(w, step)[2];
      RunThree(System(w.facts, None), Begin, step.op, end);
    }
  }
}
