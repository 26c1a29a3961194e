/**
 * The stored job rows and the SQL updates on them
 * (crates/postproject-storage-sqlite/src/transaction.rs, migrations/009_jobs.sql).
 */
module JobStore {
  import opened Wrappers
  import opened Machine
  import opened Identity
  import opened Orders
  import opened Keys
  import opened Jobs
  import Provenance
  import Revisions
  import Lineage

  const STATE_REQUESTED := 1
  const STATE_CLAIMED := 2
  const STATE_SUCCEEDED := 3
  const STATE_FAILED := 4
  const STATE_CANCELLED := 5

  /** One row of the jobs table with its inputs; claim and outcome details are nullable columns. */
  datatype JobRow = JobRow(
    kind: string, inputs: seq<Uuid>, asset: Uuid, outputKind: RepresentationKind,
    targetRoot: Option<string>, state: int,
    claimId: Option<Uuid>, claimTool: Option<string>, claimExpires: Option<I64>,
    completionActivity: Option<Uuid>, completionRepresentation: Option<Uuid>, failure: Option<string>)
  {
    predicate HasNoClaim() {
      claimId.None? && claimTool.None? && claimExpires.None?
    }

    predicate HasNoCompletion() {
      completionActivity.None? && completionRepresentation.None?
    }

    /** The table's CHECK constraint: each state has exactly its own columns. */
    predicate Check() {
      || (state in {STATE_REQUESTED, STATE_CANCELLED} && HasNoClaim() && HasNoCompletion() && failure.None?)
      || (state == STATE_CLAIMED && claimId.Some? && claimTool.Some? && claimExpires.Some?
          && HasNoCompletion() && failure.None?)
      || (state == STATE_SUCCEEDED && HasNoClaim() && completionActivity.Some? && completionRepresentation.Some?
          && failure.None?)
      || (state == STATE_FAILED && HasNoClaim() && HasNoCompletion() && failure.Some?)
    }

    function State(): JobState
      requires Check()
    {
      if state == STATE_REQUESTED then Requested
      else if state == STATE_CLAIMED then Claimed(JobClaim(claimId.value, claimTool.value, claimExpires.value))
      else if state == STATE_SUCCEEDED then
        Succeeded(JobCompletion(completionActivity.value, completionRepresentation.value))
      else if state == STATE_FAILED then Failed(failure.value)
      else Cancelled
    }

    function ToJob(): Jobs.Job
      requires Check()
    {
      Jobs.Job.Job(kind, inputs, asset, outputKind, targetRoot, State())
    }

    /** Clearing the claim columns, as every update that leaves the claimed state does. */
    function WithoutClaim(): JobRow {
      this.(claimId := None, claimTool := None, claimExpires := None)
    }
  }

  datatype Tables = Tables(
    assets: set<Uuid>,
    representations: map<Uuid, RepresentationFact>,
    activities: map<Uuid, ActivityFact>,
    jobs: map<Uuid, JobRow>,
    log: seq<JobEvent>,
    roots: map<Uuid, string>)
  {
    ghost predicate Check() {
      forall id :: id in jobs ==> jobs[id].Check()
    }

    ghost function ToFacts(): Facts
      requires Check()
    {
      Facts(assets, representations, activities, map id | id in jobs :: jobs[id].ToJob(), log, roots)
    }
  }

  lemma UpdatedRow(t: Tables, id: Uuid, row: JobRow)
    requires t.Check() && row.Check()
    ensures var u := t.(jobs := t.jobs[id := row]); u.Check() && u.ToFacts().jobs == t.ToFacts().jobs[id := row.ToJob()]
  {}

  function Names(roots: seq<MediaRoot>): set<string> {
    set i | 0 <= i < |roots| :: roots[i].name
  }

  function RootIds(roots: seq<MediaRoot>): set<Uuid> {
    set i | 0 <= i < |roots| :: roots[i].id
  }

  function Without(roots: seq<MediaRoot>, id: Uuid): (rest: seq<MediaRoot>)
    ensures forall r :: r in rest <==> r in roots && r.id != id
  {
    if roots == [] then
      []
    else
      var rest, last := Without(roots[..|roots| - 1], id), roots[|roots| - 1];
      assert forall r :: r in roots <==> r in roots[..|roots| - 1] || r == last;
      if last.id == id then rest else rest + [last]
  }

  /** The list holds exactly the stored roots. */
  ghost predicate Lists(roots: seq<MediaRoot>, stored: map<Uuid, string>) {
    forall r: MediaRoot :: r in roots <==> r.id in stored && stored[r.id] == r.name
  }

  /** A handle that lists the stored roots looks at the stored names and identities. */
  lemma ListedNames(roots: seq<MediaRoot>, stored: map<Uuid, string>)
    requires Lists(roots, stored)
    ensures Names(roots) == stored.Values && RootIds(roots) == stored.Keys
  {
    hide Lists;
    StoredAreListed(roots, stored);
    ListedAreStored(roots, stored);
  }

  lemma StoredAreListed(roots: seq<MediaRoot>, stored: map<Uuid, string>)
    requires Lists(roots, stored)
    ensures stored.Values <= Names(roots) && stored.Keys <= RootIds(roots)
  {
    hide Lists, Names, RootIds;
    forall id | id in stored
      ensures stored[id] in Names(roots) && id in RootIds(roots)
    {
      StoredIsListed(roots, stored, id);
    }
  }

  lemma ListedAreStored(roots: seq<MediaRoot>, stored: map<Uuid, string>)
    requires Lists(roots, stored)
    ensures Names(roots) <= stored.Values && RootIds(roots) <= stored.Keys
  {
    hide Lists;
    forall i | 0 <= i < |roots|
      ensures roots[i].id in stored.Keys && roots[i].name in stored.Values
    {
      ListedIsStored(roots, stored, i);
    }
  }

  lemma StoredIsListed(roots: seq<MediaRoot>, stored: map<Uuid, string>, id: Uuid)
    requires Lists(roots, stored) && id in stored
    ensures stored[id] in Names(roots) && id in RootIds(roots)
  {
    assert MediaRoot(id, stored[id]) in roots;
  }

  lemma ListedIsStored(roots: seq<MediaRoot>, stored: map<Uuid, string>, i: nat)
    requires Lists(roots, stored) && i < |roots|
    ensures roots[i].id in stored && stored[roots[i].id] == roots[i].name
  {
    assert roots[i] in roots;
  }

  /**
   * One handle on a production file: the durable tables, which other handles change too, this handle's
   * open transaction, and its own lists of media roots, committed and pending.
   */
  class SqliteStore {
    var durable: Tables
    var staged: Option<Tables>
    var roots: seq<MediaRoot>
    var pendingRoots: seq<MediaRoot>

    ghost predicate Valid()
      reads this
    {
      durable.Check() && (staged.Some? ==> staged.value.Check())
    }

    ghost function Abstract(): System
      reads this
      requires Valid()
    {
      System(durable.ToFacts(), if staged.Some? then Some(staged.value.ToFacts()) else None)
    }

    constructor ()
      ensures Valid() && Abstract() == NEW_SYSTEM
    {
      durable := Tables({}, map[], map[], map[], [], map[]);
      staged := None;
      roots, pendingRoots := [], [];
    }

    method BeginTransaction() returns (r: Result<()>)
      requires Valid()
      modifies this
      ensures Valid() && (Abstract(), r) == Step(old(Abstract()), Begin)
      ensures roots == old(roots) && (r.Ok? ==> pendingRoots == roots)
    {
      if staged.Some? {
        return Err(Storage);
      }
      staged := Some(durable);
      pendingRoots := roots;
      r := Ok(());
    }

    method CommitTransaction(outcome: CommitOutcome) returns (r: Result<()>)
      requires Valid()
      modifies this
      ensures Valid() && (Abstract(), r) == Step(old(Abstract()), Commit(outcome))
      ensures outcome != Commits ==> r.Err? && durable == old(durable)
      ensures roots == if r.Ok? then old(pendingRoots) else old(roots)
    {
      if staged.None? {
        return Err(Conflict);
      }
      if outcome == RevisionFails {
        return Err(Storage);
      }
      var made := staged.value;
      staged := None;
      if outcome == CommitFails {
        return Err(Storage);
      }
      durable := made;
      roots, pendingRoots := pendingRoots, [];
      r := Ok(());
    }

    method RollbackTransaction() returns (r: Result<()>)
      requires Valid()
      modifies this
      ensures Valid() && (Abstract(), r) == Step(old(Abstract()), Rollback)
      ensures roots == old(roots)
    {
      if staged.None? {
        return Err(Conflict);
      }
      staged := None;
      pendingRoots := [];
      r := Ok(());
    }

    /** `job_transition_error`: an update that changed no row. */
    method TransitionError(id: Uuid) returns (error: ErrorKind)
      requires staged.Some?
      ensures error == if id in staged.value.jobs then Conflict else NotFound
    {
      error := if id in staged.value.jobs then Conflict else NotFound;
    }

    method RequestJob(id: Uuid, job: Job, persists: bool) returns (r: Result<()>)
      requires Valid()
      modifies this
      ensures Valid()
      ensures (Abstract(), r) == Step(old(Abstract()), Op.RequestJob(id, job, Names(old(pendingRoots)), persists))
    {
      if staged.None? {
        return Err(Conflict);
      }
      if !job.state.Requested? {
        return Err(InvalidArgument);
      }
      var t := staged.value;
      if job.targetRoot.Some? && job.targetRoot.value !in Names(pendingRoots) {
        return Err(NotFound);
      }
      if job.asset !in t.assets {
        return Err(NotFound);
      }
      for i := 0 to |job.inputs|
        invariant forall k :: 0 <= k < i ==> job.inputs[k] in t.representations
      {
        if job.inputs[i] !in t.representations {
          return Err(NotFound);
        }
      }
      if id in t.jobs {
        return Err(AlreadyExists);
      }
      if !persists {
        return Err(Storage);
      }
      var row := JobRow(job.kind, job.inputs, job.asset, job.outputKind, job.targetRoot, STATE_REQUESTED,
                        None, None, None, None, None, None);
      UpdatedRow(t, id, row);
      staged := Some(t.(jobs := t.jobs[id := row], log := t.log + [JobEvent(id, Revisions.JobRequested)]));
      r := Ok(());
    }

    /** `add_media_root`: the table decides, and the handle lists the new root until the commit. */
    method AddMediaRoot(root: MediaRoot, persists: bool) returns (r: Result<()>)
      requires Valid()
      modifies this
      ensures Valid() && (Abstract(), r) == Step(old(Abstract()), Op.AddMediaRoot(root, persists))
      ensures roots == old(roots) && pendingRoots == if r.Ok? then old(pendingRoots) + [root] else old(pendingRoots)
      ensures r.Ok? && Lists(old(pendingRoots), old(staged.value.roots)) ==> Lists(pendingRoots, staged.value.roots)
    {
      if staged.None? {
        return Err(Conflict);
      }
      var t := staged.value;
      if root.id in t.roots || root.name in t.roots.Values {
        return Err(AlreadyExists);
      }
      if !persists {
        return Err(Storage);
      }
      staged := Some(t.(roots := t.roots[root.id := root.name]));
      pendingRoots := pendingRoots + [root];
      r := Ok(());
    }

    /** `remove_media_root`: the handle's list decides, and the row is deleted if it is still there. */
    method RemoveMediaRoot(id: Uuid) returns (r: Result<()>)
      requires Valid()
      modifies this
      ensures Valid() && (Abstract(), r) == Step(old(Abstract()), Op.RemoveMediaRoot(id, RootIds(old(pendingRoots))))
      ensures roots == old(roots) && pendingRoots == if r.Ok? then Without(old(pendingRoots), id) else old(pendingRoots)
      ensures r.Ok? && Lists(old(pendingRoots), old(staged.value.roots)) ==> Lists(pendingRoots, staged.value.roots)
    {
      if staged.None? {
        return Err(Conflict);
      }
      if id !in RootIds(pendingRoots) {
        return Err(NotFound);
      }
      var t := staged.value;
      staged := Some(t.(roots := t.roots - {id}));
      pendingRoots := Without(pendingRoots, id);
      r := Ok(());
    }

    /** Another handle's transaction has committed: the tables change, this handle's list does not. */
    method OthersCommit(after: Tables)
      requires Valid() && staged.None? && after.Check()
      modifies this`durable
      ensures Valid() && Abstract() == System(after.ToFacts(), None)
    {
      durable := after;
    }

    method ClaimJob(id: Uuid, token: Uuid, tool: string, now: I64, expires: I64) returns (r: Result<JobClaim>)
      requires Valid()
      modifies this
      ensures Valid() && Abstract() == Step(old(Abstract()), Act(id, Claim(token, tool, now, expires))).0
      ensures match Step(old(Abstract()), Act(id, Claim(token, tool, now, expires))).1
              case Ok(_) => r == Ok(JobClaim(token, tool, expires))
              case Err(error) => r == Err(error)
    {
      if expires <= now {
        return Err(InvalidArgument);
      }
      if staged.None? {
        return Err(Conflict);
      }
      var t := staged.value;
      var changed := 0;
      if id in t.jobs {
        var row := t.jobs[id];
        if row.state == STATE_REQUESTED || (row.state == STATE_CLAIMED && row.claimExpires.value <= now) {
          row := row.(state := STATE_CLAIMED, claimId := Some(token), claimTool := Some(tool),
                      claimExpires := Some(expires));
          UpdatedRow(t, id, row);
          t := t.(jobs := t.jobs[id := row]);
          changed := 1;
        }
      }
      if changed == 0 {
        var error := TransitionError(id);
        return Err(error);
      }
      staged := Some(t.(log := t.log + [JobEvent(id, Revisions.JobClaimed)]));
      r := Ok(JobClaim(token, tool, expires));
    }

    method RenewJobClaim(id: Uuid, token: Uuid, now: I64, expires: I64) returns (r: Result<()>)
      requires Valid()
      modifies this
      ensures Valid() && (Abstract(), r) == Step(old(Abstract()), Act(id, Renew(token, now, expires)))
    {
      if expires <= now {
        return Err(InvalidArgument);
      }
      if staged.None? {
        return Err(Conflict);
      }
      var t := staged.value;
      var changed := 0;
      if id in t.jobs {
        var row := t.jobs[id];
        if row.state == STATE_CLAIMED && row.claimId == Some(token)
           && row.claimExpires.value > now && row.claimExpires.value < expires {
          row := row.(claimExpires := Some(expires));
          UpdatedRow(t, id, row);
          t := t.(jobs := t.jobs[id := row]);
          changed := 1;
        }
      }
      if changed == 0 {
        var error := TransitionError(id);
        return Err(error);
      }
      staged := Some(t.(log := t.log + [JobEvent(id, Revisions.JobClaimRenewed)]));
      r := Ok(());
    }

    method ReleaseJobClaim(id: Uuid, token: Uuid) returns (r: Result<()>)
      requires Valid()
      modifies this
      ensures Valid() && (Abstract(), r) == Step(old(Abstract()), Act(id, Release(token)))
    {
      if staged.None? {
        return Err(Conflict);
      }
      var t := staged.value;
      var changed := 0;
      if id in t.jobs {
        var row := t.jobs[id];
        if row.state == STATE_CLAIMED && row.claimId == Some(token) {
          row := row.WithoutClaim().(state := STATE_REQUESTED);
          UpdatedRow(t, id, row);
          t := t.(jobs := t.jobs[id := row]);
          changed := 1;
        }
      }
      if changed == 0 {
        var error := TransitionError(id);
        return Err(error);
      }
      staged := Some(t.(log := t.log + [JobEvent(id, Revisions.JobClaimReleased)]));
      r := Ok(());
    }

    method FailJob(id: Uuid, token: Uuid, now: I64, diagnostic: string) returns (r: Result<()>)
      requires Valid()
      modifies this
      ensures Valid() && (Abstract(), r) == Step(old(Abstract()), Act(id, Fail(token, now, diagnostic)))
    {
      if staged.None? {
        return Err(Conflict);
      }
      var t := staged.value;
      var changed := 0;
      if id in t.jobs {
        var row := t.jobs[id];
        if row.state == STATE_CLAIMED && row.claimId == Some(token) && row.claimExpires.value > now {
          row := row.WithoutClaim().(state := STATE_FAILED, failure := Some(diagnostic));
          UpdatedRow(t, id, row);
          t := t.(jobs := t.jobs[id := row]);
          changed := 1;
        }
      }
      if changed == 0 {
        var error := TransitionError(id);
        return Err(error);
      }
      staged := Some(t.(log := t.log + [JobEvent(id, Revisions.JobFailed)]));
      r := Ok(());
    }

    method CancelJob(id: Uuid) returns (r: Result<()>)
      requires Valid()
      modifies this
      ensures Valid() && (Abstract(), r) == Step(old(Abstract()), Act(id, Cancel))
    {
      if staged.None? {
        return Err(Conflict);
      }
      var t := staged.value;
      var changed := 0;
      if id in t.jobs {
        var row := t.jobs[id];
        if row.state in {STATE_REQUESTED, STATE_CLAIMED} {
          row := row.WithoutClaim().(state := STATE_CANCELLED);
          UpdatedRow(t, id, row);
          t := t.(jobs := t.jobs[id := row]);
          changed := 1;
        }
      }
      if changed == 0 {
        var error := TransitionError(id);
        return Err(error);
      }
      staged := Some(t.(log := t.log + [JobEvent(id, Revisions.JobCancelled)]));
      r := Ok(());
    }

    /** `add_representation`, staged under the job whose completion asks for it, if any. */
    method StageRepresentation(added: Import, origin: Option<Uuid>, persists: bool) returns (r: Result<()>)
      requires Valid() && staged.Some?
      modifies this
      ensures Valid() && durable == old(durable) && staged.Some?
      ensures match AddRepresentationTo(old(staged.value.ToFacts()), added, origin, persists)
              case Ok(f) => r == Ok(()) && staged.value.ToFacts() == f && staged.value.jobs == old(staged.value.jobs)
              case Err(error) => r == Err(error) && staged == old(staged)
    {
      var t := staged.value;
      if added.asset !in t.assets {
        return Err(NotFound);
      }
      if added.id in t.representations {
        return Err(AlreadyExists);
      }
      if !persists {
        return Err(Storage);
      }
      var fact := RepresentationFact(added.asset, added.kind, origin);
      staged := Some(t.(representations := t.representations[added.id := fact]));
      r := Ok(());
    }

    /** `create_activity`, likewise. */
    method StageActivity(activity: Provenance.Activity, origin: Option<Uuid>, persists: bool) returns (r: Result<()>)
      requires Valid() && staged.Some?
      modifies this
      ensures Valid() && durable == old(durable) && staged.Some?
      ensures match CreateActivityIn(old(staged.value.ToFacts()), activity, origin, persists)
              case Ok(f) => r == Ok(()) && staged.value.ToFacts() == f && staged.value.jobs == old(staged.value.jobs)
              case Err(error) => r == Err(error) && staged == old(staged)
    {
      var t := staged.value;
      if activity.id in t.activities {
        return Err(AlreadyExists);
      }
      if (exists i :: 0 <= i < |activity.inputs| && activity.inputs[i].representation !in t.representations)
         || (exists i :: 0 <= i < |activity.outputs| && activity.outputs[i].representation !in t.representations) {
        MissingEdges(t.representations.Keys, activity.inputs);
        MissingEdges(t.representations.Keys, activity.outputs);
        return Err(NotFound);
      }
      MissingEdges(t.representations.Keys, activity.inputs);
      MissingEdges(t.representations.Keys, activity.outputs);
      var graph := map a | a in t.activities :: t.activities[a].activity;
      assert graph == LineageOf(t.ToFacts());
      if Lineage.CreatesCycle(graph[activity.id := activity], activity.id) {
        return Err(Conflict);
      }
      if !persists {
        return Err(Storage);
      }
      staged := Some(t.(activities := t.activities[activity.id := ActivityFact(activity, origin)]));
      r := Ok(());
    }

    /**
     * `complete_job`: the output, the activity and the state change are staged one after another under a
     * savepoint, and any failure takes all of them back.
     */
    method CompleteJob(id: Uuid, token: Uuid, now: I64, output: Import, activity: Provenance.Activity, persists: bool)
      returns (r: Result<()>)
      requires Valid()
      modifies this
      ensures Valid()
      ensures (Abstract(), r) == Step(old(Abstract()), Op.CompleteJob(id, token, now, output, activity, persists))
    {
      if staged.None? {
        return Err(Conflict);
      }
      var savepoint := staged;
      r := CompleteJobInner(id, token, now, output, activity, persists);
      if r.Err? {
        staged := savepoint;
      }
    }

    method CompleteJobInner(id: Uuid, token: Uuid, now: I64, output: Import, activity: Provenance.Activity,
                            persists: bool)
      returns (r: Result<()>)
      requires Valid() && staged.Some?
      modifies this
      ensures Valid() && durable == old(durable) && staged.Some?
      ensures match CompleteIn(old(staged.value.ToFacts()), id, token, now, output, activity, persists)
              case Ok(f) => r == Ok(()) && staged.value.ToFacts() == f
              case Err(error) => r == Err(error)
    {
      hide CompletionMatches, ClosesCycle, EdgesExist;
      if id !in staged.value.jobs {
        return Err(NotFound);
      }
      var row := staged.value.jobs[id];
      if row.state != STATE_CLAIMED {
        return Err(Conflict);
      }
      if row.claimId != Some(token) || row.claimExpires.value <= now {
        return Err(Conflict);
      }
      var matches := MatchesRequest(row, output, activity);
      MatchIsSameEdges(row.ToJob(), output, activity);
      if !matches {
        return Err(InvalidArgument);
      }
      var staging := StageRepresentation(output, Some(id), persists);
      if staging.Err? {
        return Err(staging.error);
      }
      staging := StageActivity(activity, Some(id), persists);
      if staging.Err? {
        return Err(staging.error);
      }
      var t := staged.value;
      row := row.WithoutClaim().(state := STATE_SUCCEEDED, completionActivity := Some(activity.id),
                                 completionRepresentation := Some(output.id));
      UpdatedRow(t, id, row);
      staged := Some(t.(jobs := t.jobs[id := row], log := t.log + [JobEvent(id, Revisions.JobSucceeded)]));
      r := Ok(());
    }

    /** Whether the completion answers the request: its inputs in any order, and its output alone. */
    method MatchesRequest(row: JobRow, output: Import, activity: Provenance.Activity) returns (matches: bool)
      ensures matches <==>
        && output.asset == row.asset && output.kind == row.outputKind
        && multiset(EdgeIds(activity.inputs)) == multiset(row.inputs) && EdgeIds(activity.outputs) == [output.id]
    {
      UuidOrderIsTotal();
      SortIsCanonical(UuidLeq(), EdgeIds(activity.inputs), row.inputs);
      if output.asset != row.asset || output.kind != row.outputKind {
        return false;
      }
      if Sort(UuidLeq(), EdgeIds(activity.inputs)) != Sort(UuidLeq(), row.inputs) {
        return false;
      }
      if |activity.outputs| != 1 {
        return false;
      }
      matches := activity.outputs[0].representation == output.id;
      assert |EdgeIds(activity.outputs)| == 1 && EdgeIds(activity.outputs)[0] == activity.outputs[0].representation;
    }
  }

  lemma MissingEdges(known: set<Uuid>, edges: seq<Provenance.Edge>)
    ensures (exists i :: 0 <= i < |edges| && edges[i].representation !in known)
       <==> exists id :: id in EdgeIds(edges) && id !in known
  {
    if i :| 0 <= i < |edges| && edges[i].representation !in known {
      assert EdgeIds(edges)[i] == edges[i].representation;
    }
  }
}
