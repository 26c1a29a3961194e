/**
 * The final path of a job's output and the reference workers on it. The path is named by the job and the
 * profile's extension, never by the claim (crates/postproject-media/src/executor.rs).
 */
module OutputPath {
  import opened Wrappers
  import opened Identity

  /** How far the worker with a claim token has come. */
  datatype Phase = Executing | Checked | Published | Finished

  /** The file at the final path, by the worker that published it, and the workers of the job. */
  datatype Path = Path(file: Option<Uuid>, phases: map<Uuid, Phase>) {
    predicate InPhase(token: Uuid, phase: Phase) {
      token in phases && phases[token] == phase
    }

    /** Some other worker has passed its check of the path and has not finished. */
    ghost predicate HasLateWorker(token: Uuid) {
      exists t :: t != token && (InPhase(t, Checked) || InPhase(t, Published))
    }
  }

  const EMPTY_PATH := Path(None, map[])

  datatype PathEvent =
    | Start(token: Uuid)      // the claim has committed
    | CheckPath(token: Uuid)  // the executor finds no file at the final path
    | Publish(token: Uuid)    // the temporary output is renamed over the final path
    | CleanUp(token: Uuid)    // the output cannot be prepared or completed, and the path is removed
    | Leave(token: Uuid)      // the worker ends and leaves the path as it is

  predicate IsPossible(p: Path, e: PathEvent) {
    match e
    case Start(t) => t !in p.phases
    case CheckPath(t) => p.InPhase(t, Executing) && p.file.None?
    case Publish(t) => p.InPhase(t, Checked)
    case CleanUp(t) => p.InPhase(t, Published)
    case Leave(t) => t in p.phases
  }

  /** Events that are not possible do not happen. */
  function After(p: Path, e: PathEvent): Path {
    if !IsPossible(p, e) then
      p
    else
      match e
      case Start(t) => p.(phases := p.phases[t := Executing])
      case CheckPath(t) => p.(phases := p.phases[t := Checked])
      case Publish(t) => Path(Some(t), p.phases[t := Published])
      case CleanUp(t) => Path(None, p.phases[t := Finished])
      case Leave(t) => p.(phases := p.phases[t := Finished])
  }

  /** What the other workers do on the path; a worker's own events are not theirs. */
  function AfterOthers(p: Path, token: Uuid, events: seq<PathEvent>): Path {
    if events == [] then
      p
    else
      var before, last := AfterOthers(p, token, events[..|events| - 1]), events[|events| - 1];
      if last.token == token then before else After(before, last)
  }

  /** The worker's output is in place and nobody else can reach the path any more. */
  ghost predicate IsSafe(p: Path, token: Uuid) {
    p.file == Some(token) && !p.HasLateWorker(token)
  }

  lemma OthersKeepOwnPhase(p: Path, token: Uuid, e: PathEvent)
    requires e.token != token
    ensures token in After(p, e).phases <==> token in p.phases
    ensures token in p.phases ==> After(p, e).phases[token] == p.phases[token]
    ensures After(p, e).file == Some(token) ==> p.file == Some(token)
    ensures IsSafe(p, token) ==> IsSafe(After(p, e), token)
  {
    if IsSafe(p, token) {
      forall t | t != token
        ensures !After(p, e).InPhase(t, Checked) && !After(p, e).InPhase(t, Published)
      {
        assert !p.InPhase(t, Checked) && !p.InPhase(t, Published);
      }
    }
  }

  /** Whatever others do, a worker's phase is its own, and a safe output stays in place. */
  lemma {:induction false} OthersKeepSafe(p: Path, token: Uuid, events: seq<PathEvent>)
    ensures token in AfterOthers(p, token, events).phases <==> token in p.phases
    ensures token in p.phases ==> AfterOthers(p, token, events).phases[token] == p.phases[token]
    ensures AfterOthers(p, token, events).file == Some(token) ==> p.file == Some(token)
    ensures IsSafe(p, token) ==> IsSafe(AfterOthers(p, token, events), token)
  {
    hide After, IsSafe;
    if events != [] {
      OthersKeepSafe(p, token, events[..|events| - 1]);
      if events[|events| - 1].token != token {
        OthersKeepOwnPhase(AfterOthers(p, token, events[..|events| - 1]), token, events[|events| - 1]);
      }
    }
  }

  /** An own event of the worker does not turn others into late workers. */
  lemma OwnEventsKeepSafe(p: Path, token: Uuid)
    requires IsSafe(p, token)
    ensures IsSafe(After(p, Leave(token)), token)
  {
    forall t | t != token
      ensures !After(p, Leave(token)).InPhase(t, Checked) && !After(p, Leave(token)).InPhase(t, Published)
    {
      assert !p.InPhase(t, Checked) && !p.InPhase(t, Published);
    }
  }

  /** The output stays in place whatever the other workers do. */
  ghost predicate StaysInPlace(p: Path, token: Uuid) {
    forall events :: AfterOthers(p, token, events).file == Some(token)
  }

  lemma OneOther(p: Path, token: Uuid, e: PathEvent)
    requires e.token != token
    ensures AfterOthers(p, token, [e]) == After(p, e)
  {
    assert AfterOthers(p, token, [e][..0]) == p;
  }

  /**
   * The exact condition at the path: once published, the output outlasts everything that others may do
   * exactly when no other worker has passed its check and is still at work. A worker that has not passed
   * its check will find the file.
   */
  lemma PublishedStaysExactly(p: Path, token: Uuid)
    requires p.file == Some(token)
    ensures StaysInPlace(p, token) <==> !p.HasLateWorker(token)
  {
    if p.HasLateWorker(token) {
      var t :| t != token && (p.InPhase(t, Checked) || p.InPhase(t, Published));
      var e := if p.InPhase(t, Checked) then Publish(t) else CleanUp(t);
      OneOther(p, token, e);
      assert AfterOthers(p, token, [e]).file != Some(token);
    } else {
      hide After;
      forall events ensures AfterOthers(p, token, events).file == Some(token) {
        OthersKeepSafe(p, token, events);
      }
    }
  }
}
