/**
 * What every run keeps about the stored facts besides the lease protocol: references resolve and the
 * derivation graph is acyclic (crates/postproject-storage-sqlite/src/transaction.rs).
 */
module Records {
  import opened Wrappers
  import opened Identity
  import opened Jobs
  import Provenance
  import Lineage

  ghost predicate JobReferencesExist(f: Facts, job: Job) {
    job.asset in f.assets && forall input :: input in job.inputs ==> input in f.representations
  }

  ghost predicate ReferencesExist(f: Facts) {
    && (forall id :: id in f.jobs ==> JobReferencesExist(f, f.jobs[id]))
    && forall a :: a in f.activities ==>
         EdgesExist(f, f.activities[a].activity.inputs) && EdgesExist(f, f.activities[a].activity.outputs)
  }

  ghost predicate Sound(f: Facts) {
    ReferencesExist(f) && Lineage.Acyclic(LineageOf(f))
  }

  ghost predicate SystemSound(s: System) {
    Sound(s.durable) && (s.staged.Some? ==> Sound(s.staged.value))
  }

  lemma NothingIsSound()
    ensures Sound(NO_FACTS)
  {
    hide Lineage.Acyclic;
    Lineage.NothingIsAcyclic();
    assert LineageOf(NO_FACTS) == map[];
  }

  lemma ActivityKeepsSound(f: Facts, activity: Provenance.Activity, origin: Option<Uuid>, persists: bool)
    requires Sound(f) && CreateActivityIn(f, activity, origin, persists).Ok?
    ensures Sound(CreateActivityIn(f, activity, origin, persists).value)
  {
    hide Lineage.Acyclic, Lineage.CreatesCycle, ReferencesExist, EdgesExist;
    var g := CreateActivityIn(f, activity, origin, persists).value;
    ActivityKeepsReferences(f, activity, origin, persists);
    Lineage.CycleIsDetectedExactly(LineageOf(f), activity.id, activity);
    assert LineageOf(g) == LineageOf(f)[activity.id := activity];
  }

  lemma ActivityKeepsReferences(f: Facts, activity: Provenance.Activity, origin: Option<Uuid>, persists: bool)
    requires ReferencesExist(f) && CreateActivityIn(f, activity, origin, persists).Ok?
    ensures ReferencesExist(CreateActivityIn(f, activity, origin, persists).value)
  {
    hide ClosesCycle;
    var g := CreateActivityIn(f, activity, origin, persists).value;
    forall id | id in g.jobs
      ensures JobReferencesExist(g, g.jobs[id])
    {
      assert JobReferencesExist(f, f.jobs[id]);
    }
  }

  /** Facts that add no activity keep the lineage as it is. */
  lemma OtherFactsKeepSound(f: Facts, g: Facts)
    requires Sound(f) && g.activities == f.activities && f.assets <= g.assets
    requires forall r :: r in f.representations ==> r in g.representations
    requires forall id :: id in g.jobs ==>
      JobReferencesExist(g, g.jobs[id]) || (id in f.jobs && g.jobs[id].(state := f.jobs[id].state) == f.jobs[id])
    ensures Sound(g)
  {
    hide Lineage.Acyclic;
    assert LineageOf(g) == LineageOf(f);
    forall id | id in g.jobs
      ensures JobReferencesExist(g, g.jobs[id])
    {
      assert id in f.jobs ==> JobReferencesExist(f, f.jobs[id]);
    }
  }

  lemma MutationKeepsSound(f: Facts, op: Op)
    requires !op.Begin? && !op.Commit? && !op.Rollback?
    requires Sound(f) && Mutate(f, op).Ok?
    ensures Sound(Mutate(f, op).value)
  {
    hide Sound, ReferencesExist, CompletionMatches, EdgesExist, ClosesCycle, Transition, EventOf;
    if op.CreateActivity? {
      ActivityKeepsSound(f, op.activity, None, op.persists);
    } else if op.CompleteJob? {
      var withOutput := AddRepresentationTo(f, op.output, Some(op.id), op.persists).value;
      OtherFactsKeepSound(f, withOutput);
      ActivityKeepsSound(withOutput, op.activity, Some(op.id), op.persists);
      var withActivity := CreateActivityIn(withOutput, op.activity, Some(op.id), op.persists).value;
      OtherFactsKeepSound(withActivity, Mutate(f, op).value);
    } else {
      OtherFactsKeepSound(f, Mutate(f, op).value);
    }
  }

  /**
   * In every run the assets and representations that jobs and activities name are there, and no
   * representation is derived from itself, however many workers record activities.
   */
  lemma {:induction false} RecordsStaySound(ops: seq<Op>)
    ensures SystemSound(Run(NEW_SYSTEM, ops))
  {
    hide Mutate, Sound;
    if ops == [] {
      NothingIsSound();
    } else {
      var op := ops[|ops| - 1];
      RecordsStaySound(ops[..|ops| - 1]);
      var before := Run(NEW_SYSTEM, ops[..|ops| - 1]);
      if before.staged.Some? && !op.Begin? && !op.Commit? && !op.Rollback? && Mutate(before.staged.value, op).Ok? {
        MutationKeepsSound(before.staged.value, op);
      }
    }
  }

  /** An activity that consumes existing representations and has a new output never closes a cycle. */
  lemma NewOutputClosesNoCycle(f: Facts, activity: Provenance.Activity, output: Uuid)
    requires ReferencesExist(f) && output !in f.representations && activity.id !in f.activities
    requires EdgeIds(activity.outputs) == [output] && output !in EdgeIds(activity.inputs)
    ensures !ClosesCycle(f, activity)
  {
    var g := LineageOf(f)[activity.id := activity];
    EdgesAreTheirIds(activity.outputs);
    forall a | a in g
      ensures output !in Lineage.Representations(g[a].inputs)
    {
      assert a in f.activities ==> EdgesExist(f, f.activities[a].activity.inputs);
      EdgesAreTheirIds(g[a].inputs);
    }
    Lineage.UnusedOutputsMakeNoCycle(g, activity.id);
  }

  lemma EdgesAreTheirIds(edges: seq<Provenance.Edge>)
    ensures Lineage.Representations(edges) == set id | id in EdgeIds(edges)
  {
    forall i | 0 <= i < |edges|
      ensures edges[i].representation in EdgeIds(edges)
    {
      assert EdgeIds(edges)[i] == edges[i].representation;
    }
  }
}
