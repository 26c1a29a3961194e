# PostProject verification model

A Dafny model of the value algebra of `postproject-core`, of the job lease protocol with its SQLite
mutations and its reference worker, and of the C++ change-feed observer. `dafny verify dfyconfig.toml`
checks everything.

## What is modelled

- **Change feed** (`Revisions`, `Observer`). The journal grows by commits of other processes. The observer
  is a class with a cursor that runs against a shared `World`; a schedule decides what is committed between
  any two of its atomic interactions, how waits end, and which queries and callbacks throw. A schedule may
  end anywhere, so every postcondition speaks about every cut of every run. The filtered query is modelled
  as storage computes it, as a limited union of one limited key range for each event kind.
- **Job lease protocol** (`Jobs`, `JobStore`, `Origins`, `Records`, `Lineage`). Any number of processes use one
  production with at most one open write transaction; clocks are arguments and may run backwards. `Jobs`
  gives the guards and the runs over durable and staged facts, `JobStore` the table rows, the constraint on
  them and the SQL updates, proved to be steps of `Jobs`. A claim is live while its expiry is after the
  caller's clock, and claimable otherwise; both are one predicate, `Jobs.Live`. `Origins` says when each
  operation is accepted and what it stores, and traces every stored fact of a run back to the operation that
  gave it. `Lineage` is the recursive query that keeps the derivation graph acyclic.
- **Reference worker** (`Worker`, `OutputPath`, `OutputFile`, `Workers`, `Diagnostic`). One worker as a client
  of the protocol, with other processes' operations on the production and other workers' steps on the output
  path between any two of its own steps; and all workers of one job on the path that they share, first on
  their own and then on the stored claims.
- **Job feed** (`JobFeed`). The job protocol's commits as the revisions that the observer is passed.
- **Exact values** (`Machine`, `Euclid`, `Time`, `Scalars`). Machine ranges, the gcd loops, 128-bit checked
  products, truncating division, lowest terms and trailing zeros.
- **Texts and trees** (`IntegerText`, `TimeText`, `Hex`, `Identity`, `Utf8`, `Metadata`, `MetadataView`,
  `MetadataInput`). Printers and parsers, and the recursive metadata tree with cached depth and size through
  the forms that the CLI writes and reads.
- **Canonical aggregates** (`Orders`, `Keys`, `Content`, `Resolution`, `Provenance`). Sorting, deduplication
  and binary search with the derived orders, frame lists, availability aggregation and activity edges.

## Where the code and its description differ

The model follows the code in each of these.

- `RationalValue::new` documents the sign-preserving lowest-terms form. A zero over a denominator of at
  least 2^63 becomes -1/1 instead, because the gcd does not fit the signed type
  (`Scalars.LostZeroBecomesMinusOne`); the value is kept exactly for all other inputs
  (`Scalars.ConstructRational`).
- The CLI writes a reference value as `target.kind` and `target.id` and reads `target.target_kind` and
  `target.target_id`, so a value survives being written and read back exactly when no reference occurs in
  it (`MetadataView.ViewRoundTrip`).
- `renew_job_claim` is described as refusing an expiry that is not after `now`. The update also refuses an
  expiry that is not after the current one (`Worker.RenewalSucceedsExactly`), so a worker whose clock steps
  back fails to renew a live lease (`Worker.SteppedBackClockIsRefused`), and heartbeats succeed exactly on a
  schedule of ascending clocks (`Worker.ReferenceWorker.Heartbeats`).
- `request_job` is described as refusing absent references. A target root is looked up in the list that the
  handle loaded when it opened the production, so a root that another handle has added is refused and one
  that another handle has removed is accepted (`Jobs.ListedRootsDecide`).
- The executor's output path is named by the job and the profile's extension, not by the claim. A worker
  that lost its lease after it had looked at the path can still publish over it and remove it, after another
  worker has completed the job or before (`OutputFile.LateWorkerRemovesOutput`,
  `OutputFile.LateWorkerRemovesOutputFirst`); `OutputFile.SuccessHasOutputExactly` gives the exact condition.
- A worker removes its output when preparing it or completing the job fails, but not when the activity is
  refused. For a stored job that happens exactly when the clock at the end is before the clock at the start
  (`Worker.OnlyTimingIsRefused`, `Worker.ReferenceWorker.CompleteExecutorJob`). A completed job that cannot
  be reloaded is reported as an error with its output in place.
- Failed work is to be recorded with its bounded diagnostic. The diagnostic may quote a NUL from the
  executor's error output, and a failure that holds one is refused, so the job stays claimed until its
  lease expires (`Diagnostic.NulIsRefused`, `Worker.ReferenceWorker.FailExecutorJob`).

## Model

| member | source | states |
|---|---|---|
| `Observer.RevisionObserver.constructor` | include/postproject/postproject.hpp:3947-3953 | The observer starts with its cursor at the given sequence and with nothing delivered, whatever the journal holds. |
| `Observer.RevisionObserver.Run` | include/postproject/postproject.hpp:3982-4016 | Under every interleaving, failure and cut: what was delivered is exactly the matching revisions after the start up to the cursor, then at most the failing revision (no filter) or part of one page (filter). The cursor never goes back. The run takes the turns of the schedule in order, beginning with a wait, and passes one revision for each call; it is stopped exactly when its last interaction is a wait that closed or was cancelled, has failed exactly when its last interaction threw, and no earlier interaction did either. When it is left to run long enough after the last commit, everything after the start has been delivered. |
| `Observer.OutcomeIsExact` | include/postproject/postproject.hpp:3987-4014 | A closed or cancelled wait stops the observation, and an exception of a wait, a page query, a load of events or a callback fails it; nothing else does. |
| `Observer.RevisionObserver.Round` | include/postproject/postproject.hpp:3986-4010 | One wait and what it found: no page is read and no revision passed on unless the wait found something, and the round ends exactly as its last interaction says. |
| `Observer.RevisionObserver.DeliverPage` | include/postproject/postproject.hpp:3992-3997 | Without a filter the cursor follows every revision: a delivered page strictly advances it to the page's last sequence, and an exception leaves at most the failing revision beyond it. |
| `Observer.RevisionObserver.DrainPage` | include/postproject/postproject.hpp:3999-4006 | A filtered page moves the cursor past everything it covers, strictly when anything newer exists; after an exception the cursor is where it was. |
| `Observer.RevisionObserver.DrainFiltered` | include/postproject/postproject.hpp:3998-4010 | The inner loop ends; against a frozen journal it reads exactly one page more than the full pages of revisions to come, and nothing is left after it. |
| `Observer.DeliveryIsExact` | include/postproject/postproject.h:901-910 | Nothing lost, nothing repeated, in order: the deliveries are an ascending prefix of all the revisions after the start that hold an event of a requested kind, of all revisions when no kind is requested, and hold every one of them up to the cursor. |
| `Observer.RestartLosesNothing` | include/postproject/postproject.hpp:3970-3971 | Observing again from the reported cursor continues the delivery exactly; only the pending revisions of the first observation can be delivered twice. |
| `Observer.CommitsKeepProgress` | crates/postproject-core/src/storage.rs:398-405 | Commits by other processes at any moment leave the delivery state exact. |
| `Observer.WaitPage` | include/postproject/postproject.h:919-929 | A wait's page holds the first 100 revisions to come, or all of them when they are fewer, and is empty only when no newer revision exists. |
| `Revisions.FilteredPageIsExact` | crates/postproject-storage-sqlite/src/lib.rs:2186-2261 | The limited union of limited key ranges is the plain filter: the first `limit` matching revisions, each once, which are all the matches up to the through sequence; the through sequence passes the requested one whenever anything newer exists, and the page passes the constructor's checks. |
| `Revisions.UnionRowsAreMatches` | crates/postproject-storage-sqlite/src/lib.rs:2186-2261 | Up to the limit, the union of one range for each kind and the filtered journal hold the same revisions. |
| `Revisions.BetweenConcatenates` | crates/postproject-core/src/storage.rs:407-421 | The matches of adjacent sequence ranges concatenate, so consecutive pages neither lose nor repeat. |
| `Revisions.ExtensionKeepsPast` | crates/postproject-core/src/storage.rs:398-405 | Appending revisions leaves every range up to the newest sequence as it is and only extends what is to come. |
| `Revisions.CommitsExtend` | crates/postproject-storage-sqlite/src/transaction.rs:1567-1582 | Any commits keep the journal strictly ascending and extend it. |
| `Revisions.CommitsAreStored` | crates/postproject-storage-sqlite/src/transaction.rs:1480-1510 | Each commit stores one revision under the next sequence with exactly its events, whatever was stored before. |
| `JobFeed.FeedIsTheLog` | crates/postproject-storage-sqlite/src/transaction.rs:1480-1497 | In every run, the job events of the stored revisions, put together, are the log of the job transitions, sequences are gapless, and every revision that holds job events matches the job kinds. |
| `JobFeed.CommitsAreFed` | crates/postproject-storage-sqlite/src/transaction.rs:1480-1510 | In every run, a commit with events appends one revision under the next sequence, with the job events of its transaction and then the others; a commit without events, and anything else, appends none. |
| `JobFeed.DeliveredEventsReplay` | include/postproject/postproject.hpp:3982-4016 | An observer of the job kinds from the beginning, at any moment of any run of the job protocol: replaying what it was passed up to its cursor gives every job's state category as of the commit at the cursor. |
| `JobFeed.CaughtUpObserverKnowsEveryJob` | crates/postproject-core/src/revision.rs:236-270 | Replaying what a caught-up observer was passed gives the state category of every job, and of no other. |
| `Jobs.TerminalStatesAbsorb` | crates/postproject-core/src/storage.rs:666-724 | Once a job is durably succeeded, failed or cancelled, it is the same in every continuation of every run. |
| `Jobs.SupersededTokenIsDead` | crates/postproject-core/src/storage.rs:644-706 | With fresh tokens, a token that was current and is no longer never becomes current again; every later renewal, release, failure or completion with it is refused and changes nothing, whatever the clocks say. |
| `Jobs.LeaseIsHonoured` | crates/postproject-storage-sqlite/src/transaction.rs:239-334 | While its holder keeps it, nobody cancels, and rivals claim with clocks before the expiry, a claim stays current and its expiry never gets earlier. |
| `Jobs.EventsReplayToStates` | crates/postproject-core/src/revision.rs:236-270 | In every run, replaying a job's revision events is legal and gives its state category. |
| `Jobs.KindsTellStates` | crates/postproject-core/src/job.rs:221-235 | Each category belongs to one state, and succeeded, failed and cancelled are the final ones. |
| `Jobs.CompletionsAreCounted` | crates/postproject-core/src/storage.rs:700-718 | In every run, the outputs and the activities recorded by completions each number exactly the succeeded jobs. |
| `Jobs.CompletionsAnswerRequests` | crates/postproject-storage-sqlite/src/transaction.rs:504-544 | In every run, a succeeded job's output has the requested asset and kind, and its activity has exactly the requested inputs and that one output. |
| `Jobs.RunKeepsInvariant` | crates/postproject-core/src/storage.rs:633-724 | Every run keeps durable and staged facts consistent and never changes a recorded fact. |
| `Origins.RequestIsStoredExactly` | crates/postproject-storage-sqlite/src/transaction.rs:143-216 | A request is accepted exactly when it is new, its target root is listed, and its asset and inputs are stored; the stored job is the requested one, with all its inputs. |
| `Origins.JobsComeFromRequests` | crates/postproject-core/src/storage.rs:633-645 | In every run, each stored job is, apart from its state, the job that some request of the run asked for under that identity. |
| `Origins.StatesComeFromOperations` | crates/postproject-core/src/storage.rs:644-724 | In every run, the token, tool and expiry of a claim, the diagnostic of a failure, the results of a success and a cancellation are what some operation of the run on that job gave. |
| `Origins.SucceededJobsAnswerTheirRequests` | crates/postproject-storage-sqlite/src/transaction.rs:423-576 | In every run, a succeeded job has a request and a completion among the operations: the stored output and activity are those of the completion, unchanged, and they have the asset, kind, inputs and single output that the request asked for. |
| `Origins.ClaimSucceedsExactly` | crates/postproject-storage-sqlite/src/transaction.rs:239-291 | A claim takes a requested job, or one whose claim expires no later than the clock, and is a conflict otherwise; only the claim changes. |
| `Origins.HolderActsExactly` | crates/postproject-storage-sqlite/src/transaction.rs:301-412 | With the current token a live claim is renewed to a later expiry and failed, and any claim is released; everything else is a conflict, and only the state changes. |
| `Origins.CancelSucceedsExactly` | crates/postproject-storage-sqlite/src/transaction.rs:585-609 | Requested and claimed jobs become cancelled, others are a conflict. |
| `Origins.CompletionIsStoredExactly` | crates/postproject-storage-sqlite/src/transaction.rs:423-576 | A completion is accepted exactly for a live claim held by the token and results that answer the request, are new, name what is stored and close no cycle; it stores the output, the activity and the success and changes nothing else. |
| `Origins.AdditionsAreStoredExactly` | crates/postproject-storage-sqlite/src/transaction.rs:89-134 | Imports, representations and activities are accepted exactly when they are new and name what is stored, and are stored as they were given. |
| `Origins.RootsAreStoredExactly` | crates/postproject-storage-sqlite/src/transaction.rs:755-848 | A root is accepted exactly under a new identity and a new name, and removed exactly when it is listed; other roots stay. |
| `Origins.RequestErrorsAreExact` | crates/postproject-storage-sqlite/src/transaction.rs:143-216 | A request is an invalid argument, a missing reference, a known identity or a storage failure exactly in the order of the checks. |
| `Origins.AdditionErrorsAreExact` | crates/postproject-storage-sqlite/src/transaction.rs:89-134 | Which error refuses an import, a representation or an activity. |
| `Origins.CompletionErrorsAreExact` | crates/postproject-storage-sqlite/src/transaction.rs:461-576 | A completion of an unknown job finds nothing, without a live claim of the token it is a conflict, and one that does not answer the request is an invalid argument; a cycle is the only conflict of a live claim. |
| `Origins.OtherErrorsAreExact` | crates/postproject-storage-sqlite/src/transaction.rs:2079-2096 | Actions on unknown jobs find nothing, a known root already exists, and an unlisted root is not found. |
| `Origins.OperationsAreStaged` | crates/postproject-storage-sqlite/src/transaction.rs:39-58 | An operation needs an open transaction, changes only what it has staged, and nothing when it fails; a claim or renewal needs an expiry after its clock. |
| `Origins.TransactionsAreAtomic` | crates/postproject-storage-sqlite/src/transaction.rs:1480-1528 | A transaction starts from the durable facts and becomes durable as a whole or not at all, with the outcome of each failing commit and of a rollback. |
| `Jobs.JobInputsAreCanonical` | crates/postproject-core/src/job.rs:353-383 | A request is accepted exactly for at most 100000 distinct inputs, keeps its other parts, stores the inputs strictly ascending by their bytes, and does not depend on the order given. |
| `JobStore.SqliteStore.constructor` | crates/postproject-storage-sqlite/src/migrations/009_jobs.sql:1-80 | An empty store is the initial system of the protocol. |
| `JobStore.SqliteStore.BeginTransaction` | crates/postproject-storage-sqlite/src/transaction.rs:39-58 | A write transaction starts from the durable facts and the handle's own list of roots, and only when none is open. |
| `JobStore.SqliteStore.CommitTransaction` | crates/postproject-storage-sqlite/src/transaction.rs:1480-1510 | Committing makes exactly the staged facts durable and the pending list of roots the handle's. When the revision cannot be persisted the transaction stays open, when the commit fails it ends, and in both cases the durable facts and the list stay as they were. |
| `JobStore.SqliteStore.RollbackTransaction` | crates/postproject-storage-sqlite/src/transaction.rs:1518-1528 | Rolling back leaves the durable facts as they were. |
| `JobStore.SqliteStore.AddMediaRoot` | crates/postproject-storage-sqlite/src/transaction.rs:755-779 | Adding a root is refused for a stored identity or name; otherwise this handle lists it too, and a list that held exactly the stored roots still does. |
| `JobStore.SqliteStore.RemoveMediaRoot` | crates/postproject-storage-sqlite/src/transaction.rs:830-848 | Removing a root is refused when this handle does not list it; otherwise it leaves the table and the list, and a list that held exactly the stored roots still does. |
| `JobStore.ListedNames` | crates/postproject-storage-sqlite/src/transaction.rs:151-163 | A handle that lists the stored roots looks at exactly the stored names and identities. |
| `JobStore.SqliteStore.OthersCommit` | crates/postproject-storage-sqlite/src/lib.rs:3472-3480 | A commit of another handle changes the tables and not this handle's list of roots. |
| `JobStore.SqliteStore.RequestJob` | crates/postproject-storage-sqlite/src/transaction.rs:143-216 | The checks of state, target root in the list of this handle, asset and inputs and the insert of the row with all its inputs are the protocol's request (`Origins.RequestIsStoredExactly`), with the same error in every refused case. |
| `Jobs.ListedRootsDecide` | crates/postproject-storage-sqlite/src/transaction.rs:151-163 | The handle's list decides about a target root, whatever is stored: a stored root that it does not list is refused, and a listed root that is gone is accepted. |
| `JobStore.SqliteStore.ClaimJob` | crates/postproject-storage-sqlite/src/transaction.rs:239-291 | The update is the protocol's claim, on requested jobs and on expired claims, and returns the new claim. |
| `JobStore.SqliteStore.RenewJobClaim` | crates/postproject-storage-sqlite/src/transaction.rs:301-334 | The update is the protocol's renewal: current token, live lease, strictly later expiry. |
| `JobStore.SqliteStore.ReleaseJobClaim` | crates/postproject-storage-sqlite/src/transaction.rs:343-367 | The update is the protocol's release, which needs the current token only. |
| `JobStore.SqliteStore.FailJob` | crates/postproject-storage-sqlite/src/transaction.rs:376-412 | The update is the protocol's failure, which needs the current token and a live lease. |
| `JobStore.SqliteStore.CancelJob` | crates/postproject-storage-sqlite/src/transaction.rs:585-609 | The update is the protocol's cancellation of requested and claimed jobs. |
| `JobStore.SqliteStore.CompleteJob` | crates/postproject-storage-sqlite/src/transaction.rs:423-459 | Output, activity and success are staged together or, after any error, not at all; the whole is the protocol's completion. |
| `JobStore.SqliteStore.CompleteJobInner` | crates/postproject-storage-sqlite/src/transaction.rs:461-576 | The checks come in the protocol's order and end in its facts or its error. |
| `JobStore.SqliteStore.MatchesRequest` | crates/postproject-storage-sqlite/src/transaction.rs:504-544 | A completion answers a request exactly when asset and kind agree, the activity's inputs are the request's inputs with the same multiplicities in any order, and its only output is the new representation. |
| `Jobs.MatchIsSameEdges` | crates/postproject-storage-sqlite/src/transaction.rs:504-544 | The comparison of the two sorted input lists and of the single output, as the protocol makes it, has that meaning. |
| `JobStore.SqliteStore.StageRepresentation` | crates/postproject-storage-sqlite/src/transaction.rs:121-131 | Staging an output needs its asset and a new identity, and touches no job. |
| `JobStore.SqliteStore.StageActivity` | crates/postproject-storage-sqlite/src/transaction.rs:1300-1427 | Staging an activity needs a new identity, existing edges and an acyclic result, and touches no job. |
| `Lineage.CycleIsDetectedExactly` | crates/postproject-storage-sqlite/src/transaction.rs:2605-2628 | On an acyclic derivation graph, storing an activity keeps it acyclic exactly when the recursive query finds no input among the descendants of the activity's outputs. |
| `Lineage.DescendantsAreReached` | crates/postproject-storage-sqlite/src/transaction.rs:2608-2618 | The recursive query ends and finds exactly the representations that a path of activities reaches. |
| `Records.RecordsStaySound` | crates/postproject-storage-sqlite/src/transaction.rs:1388-1394 | In every run no representation is derived from itself, and the assets and representations that jobs and activities name are stored. |
| `Records.NewOutputClosesNoCycle` | crates/postproject-storage-sqlite/src/transaction.rs:2605-2628 | An activity over existing inputs with one new output is never refused for a cycle. |
| `Worker.ReferenceWorker.RunExecutorJob` | crates/postproject-cli/src/main.rs:3723-3823 | With other processes active on the production and on the output path between all its steps: a reported success is durably recorded with this output and with an activity of the job's kind, its start and finish, its inputs and this one output, and its file is in place if no other worker was past its check when it was published; a reported failure is recorded with the bounded text; after an error the worker's file is left only by a refused activity or a failed reload. When others respect the lease, do not use its token or new identities and end their transactions, no late worker is on the path and no step fails, the worker succeeds exactly when its heartbeats are on schedule and it finishes within the last lease and not before its start. Among such others, an unavailable executor leaves the job exactly as it was requested, any other ending without an output and a failed preparation leave it failed with the bounded text while the lease is live and claimed otherwise; without the claim nothing is done. |
| `Worker.ReferenceWorker.Execute` | crates/postproject-media/src/executor.rs:319-427 | The same from the claim's commit on, with the heartbeats of the capability probe and of the run: the first late heartbeat, an executor that stops early, a file found at the path or the executor's own ending decide what becomes of the job and of the view, and only an execution without any of them publishes. |
| `Worker.ReferenceWorker.ExecuteChecked` | crates/postproject-media/src/executor.rs:336-421 | The same from the look at the free path on: heartbeats, ending, publication and completion. |
| `Worker.ReferenceWorker.CompleteExecutorJob` | crates/postproject-cli/src/main.rs:3825-3902 | Success is reported exactly when the completion commits and the job reloads. Without a late worker the file is in place at the end exactly when the completion committed or the activity was refused; with one it is in place in no other case. Among harmless others and with nothing else failing, a holder's completion succeeds exactly when its clock is within the lease and not before the start. When the output cannot be prepared or is gone, the job fails with that message while the lease is live. |
| `Worker.ReferenceWorker.FailPreparation` | crates/postproject-cli/src/main.rs:3838-3843 | A failed preparation removes what is at the path, fails the job while the lease is live and reports an error. |
| `Worker.ReferenceWorker.RecordCompletion` | crates/postproject-cli/src/main.rs:3874-3892 | The completion commits exactly when the identities are new, the claim is held and live, and storage persists and commits it; it then records the output and the activity with the request's kind, inputs and the two times, and otherwise changes nothing. |
| `Worker.ReferenceWorker.EndWithoutOutput` | crates/postproject-cli/src/main.rs:3780-3809 | An unavailable executor gives the job back as it was requested; a reported or broken one fails it with the bounded diagnostic exactly when the lease is live and the diagnostic is recordable; the path is left as it is, and a failure is reported as such only then. |
| `Worker.ReferenceWorker.FailExecutorJob` | crates/postproject-cli/src/main.rs:3904-3921 | The failure is recorded, with the bounded text, exactly when that text is not empty and has no NUL, the claim is held and live and the transaction commits; otherwise nothing changes. |
| `Worker.ReferenceWorker.Heartbeat` | crates/postproject-cli/src/main.rs:3764-3777 | A successful heartbeat leaves the claim held until one lease after its clock. Among harmless others and with a commit that succeeds, a holder's heartbeat succeeds exactly when its clock is before the current expiry and its new expiry after it, and leaves the lease as it was otherwise. |
| `Worker.ReferenceWorker.Heartbeats` | crates/postproject-cli/src/main.rs:3763-3779 | Among harmless others, the heartbeats all succeed exactly when every clock lies strictly between the one before it and that clock plus the lease; the claim then expires one lease after the last, and one lease after the last clock before the first late one otherwise. |
| `Worker.RenewalSucceedsExactly` | crates/postproject-storage-sqlite/src/transaction.rs:301-334 | A holder's renewal succeeds exactly when its clock is before the current expiry and the requested expiry after it, and is a conflict otherwise. |
| `Worker.SteppedBackClockIsRefused` | crates/postproject-storage-sqlite/src/transaction.rs:310-333 | With a clock at or before the last renewal's, a holder's renewal by the same lease is refused although the lease is live. |
| `Worker.ReferenceWorker.Transact` | crates/postproject-cli/src/main.rs:3737-3755 | A transaction around one operation commits exactly its mutation of the durable facts or leaves no trace. |
| `Worker.HarmlessKeepsLease` | crates/postproject-core/src/storage.rs:644-706 | Operations of others that respect the lease and leave the worker's token and identities alone keep its claim exactly as it was. |
| `Worker.CompletionAcceptedExactly` | crates/postproject-storage-sqlite/src/transaction.rs:461-576 | In every run, the completion a worker builds from its prepared job is accepted exactly while it holds a live claim. |
| `Worker.OnlyTimingIsRefused` | crates/postproject-cli/src/main.rs:3848-3864 | For a stored request and a new output, the activity is accepted exactly when the clock did not go back. |
| `Worker.ExecutorActivityAnswers` | crates/postproject-cli/src/main.rs:3848-3864 | The reported activity has the job's kind, the two clock readings as start and finish, exactly the request's inputs and the one output, in whatever order edges are stored. |
| `OutputPath.PublishedStaysExactly` | crates/postproject-media/src/executor.rs:336-421 | A published output outlasts everything that other workers may do exactly when none of them had passed its check of the path and was still at work. |
| `OutputFile.SuccessHasOutputExactly` | crates/postproject-media/src/executor.rs:138-147 | From the publication on, a worker that succeeds has its output in place in every continuation exactly when no other worker had already passed its check of the path. |
| `OutputFile.OutputIsSafeExactly` | crates/postproject-media/src/executor.rs:138-147 | After a success with the output in place, it stays in place in every continuation under exactly the same condition. |
| `OutputFile.LateWorkerRemovesOutput` | crates/postproject-cli/src/main.rs:3893-3896 | A run in which a worker that lost its lease removes the output of a succeeded job. |
| `OutputFile.LateWorkerRemovesOutputFirst` | crates/postproject-cli/src/main.rs:3893-3896 | A run in which it does so before the other worker's completion commits, and the job succeeds without its output. |
| `OutputFile.TimelyWorkersKeepTheOutput` | crates/postproject-media/src/executor.rs:336-421 | In every run in which workers publish and clean up only while holding the claim, a succeeded job's output is in place. |
| `Workers.RunsAreOutputRuns` | crates/postproject-media/src/executor.rs:319-427 | Every run of any number of workers on the stored claims and the path is a run of the output protocol, with the stored claim's token as its holder and the stored success as its completion. |
| `Workers.TimelyWorkersKeepTheStoredOutput` | crates/postproject-cli/src/main.rs:3825-3902 | When workers publish and clean up only while the stored claim is their own, a job that is stored as succeeded has its completing worker's output in place, in every run. |
| `Workers.SuccessHasTheStoredOutput` | crates/postproject-media/src/executor.rs:413-421 | A holder that publishes while no other worker is past its check has its output in place whenever the job is stored as succeeded by it, in every continuation. |
| `Workers.WorldStepIsATransaction` | crates/postproject-cli/src/main.rs:3737-3755 | A step of these runs is a transaction of the lease protocol, so that all its results hold for them. |
| `Diagnostic.BoundedJobDiagnostic` | crates/postproject-cli/src/main.rs:3947-3956 | The longest prefix of whole characters within 4096 bytes, at most three bytes short of the limit, and the whole text when it fits. |
| `Diagnostic.FailureAcceptedExactly` | crates/postproject-core/src/job.rs:198-211 | A bounded diagnostic is never too long, so it is refused exactly when it is empty or has a NUL among the kept characters. |
| `Diagnostic.FailureIsExact` | crates/postproject-core/src/job.rs:198-211 | A diagnostic is accepted exactly with 1 to 4096 bytes and no NUL, and is kept as it is. |
| `Diagnostic.NulIsRefused` | crates/postproject-core/src/job.rs:198-211 | A diagnostic that quotes a NUL cannot be recorded. |
| `Utf8.BoundariesAreCharacterEnds` | crates/postproject-cli/src/main.rs:3951-3955 | In encoded text, an index is a character boundary exactly when some prefix of whole characters has that length (section 3 of RFC 3629). |
| `Utf8.BoundaryWithinThree` | crates/postproject-cli/src/main.rs:3951-3955 | A boundary is never more than three bytes before an index inside the text. |
| `Utf8.DecodeUndoesEncode` | crates/postproject-cli/src/main.rs:3947-3956 | Decoding the bytes of any text, by the leading bits and six bits of each further byte, returns its characters, so the byte counts are those of the encoding (section 3 of RFC 3629). |
| `Utf8.EncodedLengthIsExact` | crates/postproject-cli/src/main.rs:3947-3956 | One to four bytes for each character, with the ranges of the first byte, by code point. |
| `Euclid.GreatestCommonDivisor` | crates/postproject-core/src/time.rs:275-282 | The loop computes the greatest common divisor: it divides both numbers, and every common divisor divides it. |
| `Euclid.GcdIsGreatest` | crates/postproject-core/src/metadata.rs:753-760 | The recursion the loops follow has the greatest-common-divisor property for all inputs, zero included. |
| `Euclid.EuclidsLemma` | crates/postproject-core/src/time.rs:20-32 | A divisor of a product that is coprime to one factor divides the other, from Bezout's identity. |
| `Euclid.LowestTermsAreUnique` | crates/postproject-core/src/time.rs:20-32 | Two fractions in lowest terms with equal cross products are the same fraction. |
| `Time.ConstructRate` | crates/postproject-core/src/time.rs:20-32 | A rate is accepted exactly when neither part is zero, and keeps the requested ratio. |
| `Time.RateIsTheUniqueLowestTerms` | crates/postproject-core/src/time.rs:20-32 | The constructed rate is the only lowest-terms rate with the requested ratio. |
| `Time.EqualRatesAreEqualRatios` | crates/postproject-core/src/time.rs:195-210 | The rate equality tested for ranges is equality of the requested ratios. |
| `Time.ComparisonIsExact` | crates/postproject-core/src/time.rs:113-126 | Comparison never overflows and is the order of the exact times; `equivalent` is their equality. |
| `Time.ComparisonIsATotalPreorder` | crates/postproject-core/src/time.rs:113-126 | Across any mix of rates the comparison is total, transitive, and antisymmetric up to `equivalent`. |
| `Time.ProductFits` | crates/postproject-core/src/time.rs:261-266 | A 64-bit value times two 32-bit factors stays inside 128 bits. |
| `Time.RescalingIsExact` | crates/postproject-core/src/time.rs:134-150 | Rescaling returns a value exactly when that value denotes the same time at the target rate. |
| `Time.RescalingSucceedsExactly` | crates/postproject-core/src/time.rs:134-150 | Rescaling succeeds exactly when some 64-bit value at the target rate denotes the same time, and the result is equivalent to the source. |
| `Time.RescalingRoundTrip` | crates/postproject-core/src/time.rs:134-150 | Rescaling back to the original rate returns the original time. |
| `Time.EndIsStartPlusDuration` | crates/postproject-core/src/time.rs:229-236 | An exclusive end exists exactly when the exact sum of start and duration is a 64-bit value at the rate, is that sum, and is not before the start. |
| `Time.RangeAcceptsExactly` | crates/postproject-core/src/time.rs:195-209 | A range is accepted exactly for a duration that is not negative at a rate of the same ratio, and keeps both times. |
| `Time.RateIsPerSecond` | crates/postproject-core/src/time.rs:82-96 | As many units as the numerator last as many seconds as the denominator. |
| `TimeText.RateTextRoundTrip` | crates/postproject-core/src/time.rs:47-79 | Parsing a printed rate returns it. |
| `TimeText.TimeTextRoundTrip` | crates/postproject-core/src/time.rs:153-179 | Parsing a printed time returns it, the smallest 64-bit value included. |
| `TimeText.PrintedTimeHasNoPlus` | crates/postproject-core/src/time.rs:239-259 | A printed start holds no plus sign, so the first one separates. |
| `TimeText.RangeTextRoundTrip` | crates/postproject-core/src/time.rs:239-259 | Parsing a printed range returns it. |
| `TimeText.RateTextIsExact` | crates/postproject-core/src/time.rs:54-79 | A rate is read from exactly the texts of two positive 32-bit numbers around a slash that have its ratio, in lowest terms or not. |
| `TimeText.TimeTextIsExact` | crates/postproject-core/src/time.rs:160-179 | A time is read from exactly the texts of its value, an at sign and a text of its rate. |
| `TimeText.RangeTextIsExact` | crates/postproject-core/src/time.rs:246-259 | A range is read from exactly the texts of its start and duration around the first plus sign, so a start with a plus of its own is refused. |
| `TimeText.PrintedTimeExample` | crates/postproject-core/src/time.rs:350-351 | The printed form of one time, as the repository's tests expect it. |
| `IntegerText.PaddedTextParses` | crates/postproject-core/src/content.rs:143-146 | Sign-aware zero-padded text of any width parses back to the number. |
| `IntegerText.ParseIsExact` | crates/postproject-core/src/time.rs:65-77 | A number is read from exactly its sign, any zeros and its canonical digits, within the bounds of its type. |
| `IntegerText.PaddedShape` | crates/postproject-core/src/content.rs:143-146 | A padded number is its sign, zeros and its digits, exactly as wide as the padding unless the number itself is wider. |
| `Scalars.ConstructDecimal` | crates/postproject-core/src/metadata.rs:135-147 | The loop's result denotes the same number. |
| `Scalars.DecimalsAreCanonical` | crates/postproject-core/src/metadata.rs:135-147 | Accepted decimals are structurally equal exactly when they denote the same number. |
| `Scalars.DecimalFailsExactly` | crates/postproject-core/src/metadata.rs:135-147 | Construction fails exactly when no scale up to 1024 can denote the number. |
| `Scalars.DecimalIsFixed` | crates/postproject-core/src/metadata.rs:135-147 | A stored decimal is its own normal form. |
| `Scalars.ConstructRational` | crates/postproject-core/src/metadata.rs:175-191 | A rational is accepted exactly for a non-zero denominator, in lowest terms, and keeps its number exactly unless it is a zero over a denominator of at least 2^63. |
| `Scalars.RationalIsTheUniqueLowestTerms` | crates/postproject-core/src/metadata.rs:175-191 | Away from the lost zeros, the result is the only lowest-terms form of the request. |
| `Scalars.LostZeroBecomesMinusOne` | crates/postproject-core/src/metadata.rs:180-187 | Every zero over a denominator of at least 2^63 becomes -1/1. |
| `Identity.BindingTextIsExact` | crates/postproject-core/src/id.rs:173-221 | A text is accepted as a binding exactly when it is that binding's print, though other identifier spellings exist. |
| `Identity.CanonicalIdIsExact` | crates/postproject-core/src/id.rs:223-235 | Only the canonical lowercase hyphenated text of an identifier is accepted (section 4 of RFC 9562). |
| `Identity.UuidRoundTrip` | crates/postproject-core/src/id.rs:47-64 | Parsing a printed identifier returns it. |
| `Identity.UuidReadsExactly` | crates/postproject-core/src/id.rs:47-64 | An identifier is read from exactly its simple, hyphenated, braced and URN spellings in any letter case. |
| `Identity.PrintedUuidShape` | crates/postproject-core/src/id.rs:47-53 | The printed identifier is its 32 digits with hyphens at the four canonical places. |
| `Identity.PrintedBindingShape` | crates/postproject-core/src/id.rs:173-188 | A printed binding is the link with production, kind name and object, each kind under its own name. |
| `Identity.BindingAcceptsExactly` | crates/postproject-core/src/id.rs:145-158 | A binding is accepted unless its target is another production, and keeps both parts. |
| `Hex.HexRoundTrip` | crates/postproject-cli/src/main.rs:5068-5118 | Decoding written bytes returns them. |
| `Hex.HexReadsAnyCase` | crates/postproject-cli/src/main.rs:5089-5092 | Bytes are read from exactly the texts that are their printed text in any letter case. |
| `Hex.PrintedHexIsLowercase` | crates/postproject-cli/src/main.rs:5241-5247 | Printed text holds the digits 0 to 9 and a to f only, each byte as its high and low half. |
| `Metadata.SumPayloads` | crates/postproject-core/src/metadata.rs:730-744 | The loop that leaves early decides and returns by the full sum, without wrapping. |
| `Metadata.ConstructedCachesAreExact` | crates/postproject-core/src/metadata.rs:273-430 | In every tree the constructors build, depth and size cached at every node equal their recomputation and stay within 32 and 15 MiB. |
| `Metadata.ListFailsExactly` | crates/postproject-core/src/metadata.rs:382-402 | A list of valid values is refused exactly when its length, depth or size is over its limit. |
| `Metadata.StructureFailsExactly` | crates/postproject-core/src/metadata.rs:404-422 | A structure of valid fields is refused exactly when its length, depth or size, names included, is over its limit. |
| `MetadataView.ViewRoundTrip` | crates/postproject-cli/src/main.rs:5188-5289 | A constructible value, written and read back, is itself when it holds no reference, and is refused otherwise, because the member names of a reference differ. |
| `MetadataView.AcceptedInputIsConstructible` | crates/postproject-cli/src/main.rs:5067-5128 | Whatever the input form is accepted as is a tree the constructors build, with all limits checked again. |
| `MetadataInput.InputIsUnderstood` | crates/postproject-cli/src/main.rs:5040-5128 | An input is accepted exactly when it obeys, at every node, the limits of its kind, written out; the value then holds at every node what the input says: the same text, flag or integer, an equal decimal or rational (a lost zero apart), the bytes of the hex text, and for a reference the named kind with the identifier that was read. |
| `MetadataInput.InputRoundTrip` | crates/postproject-cli/src/main.rs:5040-5289 | Every accepted input without a reference is written as JSON that shows the same input up to equal numbers and letter case of bytes, and that reads back as the same value; with a reference the JSON is not read. |
| `MetadataInput.ReferencesAreWritten` | crates/postproject-cli/src/main.rs:5144-5170 | A reference is written with the kind and identifier that were read, under the members `kind` and `id`. |
| `MetadataInput.LanguageTagIsExact` | crates/postproject-core/src/metadata.rs:695-716 | A language tag is 1 to 64 letters, digits and hyphens, with no hyphen at an end and no two in a row. |
| `Content.FrameRangeAcceptsExactly` | crates/postproject-core/src/content.rs:33-49 | A range is accepted exactly when its end lies a whole number of positive steps after its start, and contains both. |
| `Content.FrameCountIsCardinality` | crates/postproject-core/src/content.rs:70-83 | The frame count is the number of frames the range contains. |
| `Content.FilenameDeterminesFrame` | crates/postproject-core/src/content.rs:143-146 | The frame can be recovered from its file name, so distinct frames have distinct names. |
| `Content.FilenameShape` | crates/postproject-core/src/content.rs:143-146 | The name is the prefix, the sign and digits of the frame and the suffix; sign and digits fill at least the padding, and exactly the padding when the number is shorter. |
| `Content.FilenameExamples` | crates/postproject-core/src/content.rs:470-479 | The two names that the repository's tests expect. |
| `Content.PatternAcceptsExactly` | crates/postproject-core/src/content.rs:101-122 | A pattern is accepted exactly with some affix, at most 1024 bytes of affixes without separators or NUL, and a padding of at most 32. |
| `Content.FrameIsProgressionMember` | crates/postproject-core/src/content.rs:76-83 | The contained frames are the members of the arithmetic progression, as many as the frame count. |
| `Content.DescriptorKeepsTheCallersFrames` | crates/postproject-core/src/content.rs:166-233 | The stored exceptions are ascending frames of the range, no more than it has, and the binary search answers for the caller's list. |
| `Content.DescriptorIgnoresOrder` | crates/postproject-core/src/content.rs:166-197 | Descriptors differ exactly when the sets of exceptions do. |
| `Content.DescriptorAcceptsExactly` | crates/postproject-core/src/content.rs:166-197 | A descriptor is accepted exactly with at most 100000 exceptions that are all frames of its range, and keeps its other parts. |
| `Content.MembersAcceptedExactly` | crates/postproject-core/src/content.rs:356-450 | Ordered parts and packages are accepted exactly for 1 to 100000 distinct resources of which all, or one, are required, and answer for each member as it was given. |
| `Content.SomeResourceIsRequired` | crates/postproject-core/src/content.rs:356-395 | Every structure names distinct resources, at least one of which is required. |
| `Content.RequiredExactly` | crates/postproject-core/src/resolution.rs:521-528 | The lookup of the first member answers for each resource as the structure says: a lone resource and an ordered part always, a package member by its flag. |
| `Orders.SortIsCanonical` | crates/postproject-core/src/provenance.rs:305-350 | Sorting by a total order is equal exactly for lists with the same elements. |
| `Orders.BinarySearchIsMembership` | crates/postproject-core/src/content.rs:231-233 | Binary search of an ascending list is membership. |
| `Resolution.OrderResourceResolutions` | crates/postproject-core/src/resolution.rs:421-442 | The two loops return the results in structural order or refuse, exactly as the order-free description says. |
| `Resolution.IndexById` | crates/postproject-core/src/resolution.rs:421-431 | The index is built exactly when no identity repeats, and maps each identity to its result. |
| `Resolution.TakeInOrder` | crates/postproject-core/src/resolution.rs:432-442 | Entries leave the index in structural order exactly when none is missing. |
| `Resolution.InspectResource` | crates/postproject-core/src/resolution.rs:483-519 | One result changes only the counter of its state, for required members only, and adds its diagnostic. |
| `Resolution.InspectAvailability` | crates/postproject-core/src/resolution.rs:451-481 | The counters decide the availability that the required states and missing frames describe, and all diagnostics are listed in order. |
| `Resolution.Aggregate` | crates/postproject-core/src/resolution.rs:356-369 | Aggregation is the order-free description of availability and diagnostics. |
| `Resolution.AggregationSucceedsExactly` | crates/postproject-core/src/resolution.rs:356-369 | Aggregation succeeds exactly when the results are a permutation of the structure's resources, and keeps them in structural order. |
| `Resolution.AggregationIgnoresOrder` | crates/postproject-core/src/resolution.rs:356-369 | Every permutation of the results gives the same answer. |
| `Resolution.OptionalStatesAreIrrelevant` | crates/postproject-core/src/resolution.rs:483-519 | The results of optional members cannot change the availability. |
| `Resolution.OnlineExactlyWithoutRequiredIssues` | crates/postproject-core/src/resolution.rs:406-481 | The representation is online exactly when no diagnostic is about required content. |
| `Resolution.OfflineExactlyWhenAllRequiredOffline` | crates/postproject-core/src/resolution.rs:406-418 | Without a required error or ambiguity, it is offline exactly when every required resource is. |
| `Resolution.AvailabilityIsExact` | crates/postproject-core/src/resolution.rs:406-481 | The whole table of availability, about the caller's results: a needed error, then a needed ambiguity, then nothing found, then a needed offline result or an absent frame, known or observed; online in no other case. |
| `Resolution.IssuesAreExact` | crates/postproject-core/src/resolution.rs:451-519 | The diagnostics report exactly the results that are not online, each once, in structural order, with the kind for its state and whether it is needed; a sequence with an absent frame has one more, which lists exactly the known and observed missing frames in ascending order. |
| `Provenance.ActivityAcceptsExactly` | crates/postproject-core/src/provenance.rs:305-350 | An activity is accepted exactly for at most 100000 duplicate-free edges on each side, with at least one output and no representation on both sides; it keeps its identity and kind and stores exactly the given edges, strictly ascending. |
| `Provenance.ActivityIgnoresOrder` | crates/postproject-core/src/provenance.rs:305-350 | Accepted activities are equal exactly when their sets of edges are. |
| `Provenance.SnapshotAcceptsExactly` | crates/postproject-core/src/provenance.rs:244-266 | A snapshot is accepted exactly for a positive revision and fingerprints of which no two have the same algorithm and version; it stores exactly the given fingerprints, ordered by these. |
| `Provenance.SnapshotIgnoresOrder` | crates/postproject-core/src/provenance.rs:244-266 | Accepted snapshots of one revision are equal exactly when they hold the same fingerprints. |
| `Provenance.EdgeOrderIsTotal` | crates/postproject-core/src/provenance.rs:135-182 | The derived order of edges, snapshots included, is a total order that separates unequal edges. |
| `Provenance.EdgesAreOrderedByFields` | crates/postproject-core/src/provenance.rs:134-242 | Edges are ordered by the bytes of the representation, then the role, then the snapshot's revision, absent values first. |
| `Provenance.FingerprintsDecideLast` | crates/postproject-core/src/provenance.rs:229-242 | Edges that agree so far are ordered by their lists of fingerprints at the first difference. |
| `Provenance.FingerprintsAreOrderedByFields` | crates/postproject-core/src/provenance.rs:229-266 | Fingerprints are ordered by algorithm, version, bytes and time of observation. |
| `Provenance.TimingIsStoredExactly` | crates/postproject-core/src/provenance.rs:358-375 | Times are accepted exactly when they do not run backwards, and stored as the start and the finish that they were given as. |
| `Keys.IdentitiesAreBytewise` | crates/postproject-core/src/id.rs:9-46 | The order of identities is the order of their bytes. |
| `Jobs.HolderAndRivalExclude` | crates/postproject-storage-sqlite/src/transaction.rs:252-279 | Boundary case of the guards: at any clock value, exactly one of the holder's finishing actions and a rival's claim is allowed. |
| `Scalars.SmallestOverItsSize` | crates/postproject-core/src/metadata.rs:180-187 | Boundary case of lowest terms: the smallest 64-bit numerator over 2^63 is -1/1. |

## Left out

- Observer.RevisionObserver.Run: commits between a callback's return and the following cursor store are merged into the next turn, since the store reads nothing of the journal; threads, mutexes and `stop` from other threads appear only as the wait outcome.
- Observer.RevisionObserver.DrainPage: the body of the inner loop is a method of its own, so that the loop's termination and its page are argued separately.
- Jobs.SupersededTokenIsDead: random tokens are assumed fresh within a run; the source relies on version-4 identifiers and a unique column.
- Jobs.CompletionsAreCounted: which completion staged a fact is history kept by the model, not a stored column.
- JobStore.SqliteStore.RequestJob: one flag stands for every storage failure; a request whose input rows fail half-way is not modelled, and neither is the check of the target root's length.
- JobStore.SqliteStore.AddMediaRoot: labels, legacy locations, priorities and enabled flags of media roots are left out, since requests look at names only.
- Jobs.AddRepresentationTo: a failing import or representation stages nothing here; in the source there is no savepoint, so rows it has already inserted, such as an imported asset and its event, stay staged until the transaction ends.
- JobFeed.FeedIsTheLog: a transaction's other events are given with its commit and not derived from its operations.
- Workers.RunsAreOutputRuns: every transaction of these runs holds one operation, as the workers' do.
- JobStore.SqliteStore.StageRepresentation: structures, locators and fingerprints of the imported representation are folded into the `persists` flag.
- JobStore.SqliteStore.StageActivity: fingerprint and dependency snapshots of the edges are not stored, and a refused activity is never inserted instead of being deleted again.
- Worker.ReferenceWorker.RunExecutorJob: candidate selection, ffmpeg, timeouts, temporary files and parameter rows are folded into the script's execution and outcome flags; failures of reading the clock, a final file that cannot be removed, and what another worker's bytes would do to the preparation are left out.
- Worker.ReferenceWorker.Transact: other processes' steps on the output path during a transaction are merged into the turn before it, since the transaction does not look at the path.
- OutputFile.SuccessHasOutputExactly: a worker process that dies keeps its phase, so it still counts as one that may act.
- Content.DescriptorKeepsTheCallersFrames: vectors that the source sorts and deduplicates with library calls are values here; the standard library's sorting algorithm is replaced by its result.
- MetadataView.ViewRoundTrip: the JSON text itself is left out; views and inputs are trees whose member names are matched kind by kind.
- Identity.CanonicalIdIsExact: the UUID library is not part of this model; its accepted spellings (simple, hyphenated, braced, URN, either case) are written out.
- Metadata.ConstructedCachesAreExact: `Url::parse` and the Unicode whitespace and control classes are opaque predicates.
- The agent columns of claims, tool versions and URIs, revision identities, origins, messages and commit times.
- SQLite itself: pragmas, migrations, page cursors, busy retries, row decoding errors, and counters beyond the signed range.
- Artifact freshness, dependency sets, provenance traversal for queries and regeneration planning.
- Resolution candidates, confidences and evidence; merging of observed missing frames into one resource result.
- Media roots, locators, external identifiers, identifier registries, metadata assertions and queries.
- File scanning, fingerprinting, ffprobe, command-line arguments and printed views other than metadata values.
- The C ABI handles and the C++ and Python wrappers apart from the observer loop.
- Accessors, namespaced-identifier and bounded-text validators, page-limit constructors and transaction lifecycle states: each is settled by reading one branch.
