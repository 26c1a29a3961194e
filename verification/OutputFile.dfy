/**
 * The output path together with the job's claim: when a succeeded job's output is in place
 * (crates/postproject-media/src/executor.rs, crates/postproject-cli/src/main.rs).
 */
module OutputFile {
  import opened Wrappers
  import opened Identity
  import opened OutputPath

  /** A worker is named by its claim token, since every claim receives a fresh one. */
  datatype State = State(holder: Option<Uuid>, completed: Option<Uuid>, path: Path)

  const INITIAL := State(None, None, EMPTY_PATH)

  datatype Event =
    | ClaimJob(token: Uuid)  // a claim of a requested or expired job
    | LoseClaim              // the holder releases or fails the job, or it is cancelled, or its lease expires
    | Complete(token: Uuid)  // the completion commits
    | Work(e: PathEvent)

  predicate Enabled(s: State, e: Event) {
    match e
    case ClaimJob(t) => s.completed.None? && t !in s.path.phases
    case LoseClaim => s.completed.None?
    case Complete(t) => s.path.InPhase(t, Published) && s.holder == Some(t)
    case Work(w) => !w.Start?
  }

  /** Events that are not enabled do not happen. */
  function Next(s: State, e: Event): State {
    if !Enabled(s, e) then
      s
    else
      match e
      case ClaimJob(t) => s.(holder := Some(t), path := After(s.path, Start(t)))
      case LoseClaim => s.(holder := None)
      case Complete(t) => State(None, Some(t), After(s.path, Leave(t)))
      case Work(w) => s.(path := After(s.path, w))
  }

  function Run(s: State, events: seq<Event>): State {
    if events == [] then s else Next(Run(s, events[..|events| - 1]), events[|events| - 1])
  }

  /** The completing worker's own output is in place. */
  predicate OutputIntact(s: State) {
    s.completed.Some? ==> s.path.file == s.completed
  }

  /** An event of a worker that still holds the claim when it touches the path. */
  predicate Timely(s: State, e: Event) {
    match e
    case Work(Publish(t)) => s.holder == Some(t)
    case Work(CleanUp(t)) => s.holder == Some(t)
    case _ => true
  }

  ghost predicate AllTimely(s: State, events: seq<Event>) {
    forall i :: 0 <= i < |events| ==> Timely(Run(s, events[..i]), events[i])
  }

  /** What timely runs keep: a holder that has published finds its own file. */
  ghost predicate HolderOwnsFile(s: State) {
    && (s.holder.Some? ==> s.completed.None? && s.holder.value in s.path.phases)
    && (s.holder.Some? && s.path.InPhase(s.holder.value, Published) ==> s.path.file == s.holder)
    && OutputIntact(s)
  }

  lemma TimelyStepKeepsOwnership(s: State, e: Event)
    requires HolderOwnsFile(s) && Timely(s, e)
    ensures HolderOwnsFile(Next(s, e))
  {}

  /**
   * When every worker publishes and cleans up only while it still holds the claim, a succeeded job's
   * output is in place in every run, however many workers and expired leases there were.
   */
  lemma {:induction false} TimelyWorkersKeepTheOutput(events: seq<Event>)
    requires AllTimely(INITIAL, events)
    ensures HolderOwnsFile(Run(INITIAL, events))
    ensures OutputIntact(Run(INITIAL, events))
  {
    hide Next;
    if events != [] {
      var front := events[..|events| - 1];
      assert forall i :: 0 <= i < |front| ==> front[..i] == events[..i];
      TimelyWorkersKeepTheOutput(front);
      TimelyStepKeepsOwnership(Run(INITIAL, front), events[|events| - 1]);
    }
  }

  lemma RunNothing(s: State, events: seq<Event>)
    ensures Run(s, events[..0]) == s
  {}

  lemma RunPrefix(s: State, events: seq<Event>, i: nat)
    requires i < |events|
    ensures Run(s, events[..i + 1]) == Next(Run(s, events[..i]), events[i])
  {
    assert events[..i + 1][..i] == events[..i];
  }

  /** The workers do not check this themselves: a late worker removes the output of a succeeded job. */
  lemma LateWorkerRemovesOutput(slow: Uuid, fast: Uuid)
    requires slow != fast
    ensures var s := Run(INITIAL, [ClaimJob(slow), Work(CheckPath(slow)), ClaimJob(fast), Work(CheckPath(fast)),
                                   Work(Publish(fast)), Complete(fast), Work(Publish(slow)), Work(CleanUp(slow))]);
      s.completed == Some(fast) && s.path.file.None? && !OutputIntact(s)
  {
    hide Run;
    var e := [ClaimJob(slow), Work(CheckPath(slow)), ClaimJob(fast), Work(CheckPath(fast)),
              Work(Publish(fast)), Complete(fast), Work(Publish(slow)), Work(CleanUp(slow))];
    BothPassTheirChecks(slow, fast, e);
    RunPrefix(INITIAL, e, 4);
    RunPrefix(INITIAL, e, 5);
    assert Run(INITIAL, e[..6])
        == State(None, Some(fast), Path(Some(fast), map[slow := Checked, fast := Finished]));
    RunPrefix(INITIAL, e, 6);
    RunPrefix(INITIAL, e, 7);
    assert e[..8] == e;
  }

  /** It can also remove the output before the completion commits, and the job succeeds without it. */
  lemma LateWorkerRemovesOutputFirst(slow: Uuid, fast: Uuid)
    requires slow != fast
    ensures var s := Run(INITIAL, [ClaimJob(slow), Work(CheckPath(slow)), ClaimJob(fast), Work(CheckPath(fast)),
                                   Work(Publish(fast)), Work(Publish(slow)), Work(CleanUp(slow)), Complete(fast)]);
      s.completed == Some(fast) && s.path.file.None? && !OutputIntact(s)
  {
    hide Run;
    var e := [ClaimJob(slow), Work(CheckPath(slow)), ClaimJob(fast), Work(CheckPath(fast)),
              Work(Publish(fast)), Work(Publish(slow)), Work(CleanUp(slow)), Complete(fast)];
    BothPassTheirChecks(slow, fast, e);
    RunPrefix(INITIAL, e, 4);
    RunPrefix(INITIAL, e, 5);
    assert Run(INITIAL, e[..6])
        == State(Some(fast), None, Path(Some(slow), map[slow := Published, fast := Published]));
    RunPrefix(INITIAL, e, 6);
    RunPrefix(INITIAL, e, 7);
    assert e[..8] == e;
  }

  lemma BothPassTheirChecks(slow: Uuid, fast: Uuid, e: seq<Event>)
    requires slow != fast && |e| >= 4
    requires e[0] == ClaimJob(slow) && e[1] == Work(CheckPath(slow))
    requires e[2] == ClaimJob(fast) && e[3] == Work(CheckPath(fast))
    ensures Run(INITIAL, e[..4]) == State(Some(fast), None, Path(None, map[slow := Checked, fast := Checked]))
  {
    hide Run;
    RunNothing(INITIAL, e);
    RunPrefix(INITIAL, e, 0);
    RunPrefix(INITIAL, e, 1);
    RunPrefix(INITIAL, e, 2);
    RunPrefix(INITIAL, e, 3);
  }

  // ---- The exact condition ----

  /** A worker that holds the claim has just published. */
  predicate JustPublished(s: State, token: Uuid) {
    && s.holder == Some(token) && s.completed.None?
    && s.path.InPhase(token, Published) && s.path.file == Some(token)
  }

  /** Whenever this worker's completion commits, then or later, its output is in place. */
  ghost predicate SucceedsWithOutput(s: State, token: Uuid) {
    forall events :: Run(s, events).completed == Some(token) ==> Run(s, events).path.file == Some(token)
  }

  /** Safe, unless the worker has itself given up its output and can no longer complete. */
  ghost predicate SafeOrGivenUp(s: State, token: Uuid) {
    && (s.completed.Some? ==> s.holder.None?)
    && (s.path.InPhase(token, Published) || s.path.InPhase(token, Finished))
    && (s.completed == Some(token) ==> s.path.InPhase(token, Finished))
    && (s.completed == Some(token) || s.path.InPhase(token, Published) ==> IsSafe(s.path, token))
  }

  lemma StepKeepsSafe(s: State, token: Uuid, e: Event)
    requires SafeOrGivenUp(s, token)
    ensures SafeOrGivenUp(Next(s, e), token)
  {
    hide IsSafe;
    if IsSafe(s.path, token) {
      OwnEventsKeepSafe(s.path, token);
    }
    match e
    case ClaimJob(t) => if t != token { OthersKeepOwnPhase(s.path, token, Start(t)); }
    case LoseClaim =>
    case Complete(t) => if t != token { OthersKeepOwnPhase(s.path, token, Leave(t)); }
    case Work(w) => if w.token != token { OthersKeepOwnPhase(s.path, token, w); }
  }

  lemma {:induction false} RunKeepsSafe(s: State, token: Uuid, events: seq<Event>)
    requires SafeOrGivenUp(s, token)
    ensures SafeOrGivenUp(Run(s, events), token)
  {
    hide Next, SafeOrGivenUp;
    if events != [] {
      RunKeepsSafe(s, token, events[..|events| - 1]);
      StepKeepsSafe(Run(s, events[..|events| - 1]), token, events[|events| - 1]);
    }
  }

  /**
   * The exact condition, from the publication on: a worker that succeeds always has its output in place,
   * in every continuation, exactly when no other worker had already passed its check of the path.
   */
  lemma SuccessHasOutputExactly(s: State, token: Uuid)
    requires JustPublished(s, token)
    ensures SucceedsWithOutput(s, token) <==> !s.path.HasLateWorker(token)
  {
    if s.path.HasLateWorker(token) {
      LateWorkerBreaksSuccess(s, token);
    } else {
      hide Run, Next;
      forall events | Run(s, events).completed == Some(token)
        ensures Run(s, events).path.file == Some(token)
      {
        RunKeepsSafe(s, token, events);
      }
    }
  }

  lemma LateWorkerBreaksSuccess(s: State, token: Uuid)
    requires JustPublished(s, token) && s.path.HasLateWorker(token)
    ensures !SucceedsWithOutput(s, token)
  {
    hide Run;
    var t :| t != token && (s.path.InPhase(t, Checked) || s.path.InPhase(t, Published));
    var e := [Work(if s.path.InPhase(t, Checked) then Publish(t) else CleanUp(t)), Complete(token)];
    RunNothing(s, e);
    RunPrefix(s, e, 0);
    RunPrefix(s, e, 1);
    assert e[..2] == e;
    assert Run(s, e).completed == Some(token) && Run(s, e).path.file != Some(token);
  }

  /** A job has succeeded, so nobody holds it, and its worker is done with its output in place. */
  predicate Succeeded(s: State) {
    && s.holder.None? && s.completed.Some? && s.path.InPhase(s.completed.value, Finished)
    && s.path.file == s.completed
  }

  /** No continuation takes the output away. */
  ghost predicate StaysIntact(s: State) {
    forall events :: OutputIntact(Run(s, events))
  }

  /** After the completion the condition is the same: no other worker is past its check. */
  lemma OutputIsSafeExactly(s: State)
    requires Succeeded(s)
    ensures StaysIntact(s) <==> !s.path.HasLateWorker(s.completed.value)
  {
    var token := s.completed.value;
    if s.path.HasLateWorker(token) {
      var t :| t != token && (s.path.InPhase(t, Checked) || s.path.InPhase(t, Published));
      var e := Work(if s.path.InPhase(t, Checked) then Publish(t) else CleanUp(t));
      RunNothing(s, [e]);
      RunPrefix(s, [e], 0);
      assert [e][..1] == [e];
      assert !OutputIntact(Run(s, [e]));
    } else {
      hide Run, Next;
      forall events ensures OutputIntact(Run(s, events)) {
        RunKeepsSafe(s, token, events);
        CompletionIsFinal(s, events);
      }
    }
  }

  lemma {:induction false} CompletionIsFinal(s: State, events: seq<Event>)
    requires s.holder.None? && s.completed.Some?
    ensures Run(s, events).holder.None? && Run(s, events).completed == s.completed
  {
    hide After;
    if events != [] {
      CompletionIsFinal(s, events[..|events| - 1]);
    }
  }
}
