# A verified model of the infrastructure twin

The system keeps a bitemporal inventory of configuration items (CIs) and the edges between
them, fed by discovery runs and deltas, and a property graph derived from it that the
queries walk. This project models the store and everything that writes to it, the graph
projection, the four bounded graph searches, the change feed, the findings rule and the SQL
script splitter of the migration runner, and proves what they guarantee, over whole runs
where runs are the point.

Verify it with `dafny verify dfyconfig.toml`.

## How it is laid out

| files | contents |
|---|---|
| `Model`, `Confidence`, `Observations`, `Lifecycle` | shared shapes; the confidence arithmetic; evidence and observation counts; the life of one inferred edge |
| `Versions`, `History`, `Retention`, `ChangeFeed`, `Events` | one bitemporal table: its invariant and its writers; whole runs of it; the retention sweep; the feed read off its intervals; the events of both tables |
| `Store` | the database of one tenant as a value; what one repository call and one projection do to it |
| `Reconcile`, `Delta`, `Merge`, `Aging` | the four transactions as functions of the database, and what they guarantee |
| `Endpoints`, `Identities`, `Decisions` | what those transactions leave, in terms of their input and the state alone: edges; CIs, aliases, merges and counters; acceptance and reversal |
| `Rerun`, `Rediscovery`, `RoundTrip`, `Misattributed`, `Widths`, `Runs` | reconciling twice, and when it is idempotent; accepting and reversing a merge, and a case that does not come back; when the feed is exact; every run of the whole system |
| `Repositories`, `Engine`, `Operations`, `Candidates` | the same transactions as they run: loops and statements over a connection, each proved to be its function; the generation of candidates |
| `Reals`, `Reach`, `Traversal`, `Queries`, `WhatIf`, `RootCause`, `LiveQueries` | products of reals; reference distances and paths; the search loops; the queries; what they say about the tables |
| `Steps`, `Estimates` | what the searches and the estimates find, in terms of the relationships of the graph alone |
| `Findings` | the findings repository and the internet-reachable-database rule |
| `Splitter`, `Scripts` | the SQL splitter against a reference automaton; how scripts split, in terms of their characters |

Two modelling decisions matter everywhere. A transaction has one time, `now()`, strictly
later than everything stored when it begins; a second version of one id in one transaction
therefore violates the primary key, and the whole transaction aborts. Where a query has no
ORDER BY, the order of its rows is a parameter, so every statement holds for every order.

## Where the code falls short of its own description

- An edge removed by a delta is closed only under the empty edge key, while the graph loses
  the first open edge of that type between the two CIs. `Deltas.DeltaAgrees` says exactly when
  graph and tables still agree, `Deltas.DeltaAgreesInAnyOrder` when they do whatever the scan
  order, `Deltas.DeltaDisagrees` gives a case where they do not.
- Registering alias keys overwrites their source, so a cross-source merge is forgotten at once,
  although the docstring calls a re-discovery a no-op: it is one if and only if the first run
  merged nothing (`Rediscovery.IdempotentUnlessMerged`; `Rediscovery.NodeComesBack` is a case).
- What-if looks provenance up along the direction of the walk; hops that go against their edge
  usually count as certain. `WhatIf.ReportedIsTheProduct` says when that does not matter,
  `WhatIf.WeakDependencyIsCertain` gives a call where it does.
- Versions written and removed by one delta have no width and confuse the feed
  (`ChangeFeed.ReplayExact`, `Widths.WideDelta`; `Widths.RemovalIsMissed` is a case).
- The observation curve stops rising at its cap (`Confidence.StrictlyIncreasingUpTo49`), and
  decay lifts a confidence that is below the floor (`Confidence.DecayRaisesBelowFloor`).
- A reversal gives the declared edges back only if their evidence tells the two CIs apart
  (`RoundTrip.AcceptThenUnmerge`; `Misattributed.LinkIsTakenAlong` is a case).

## Model

| member | source | states |
|---|---|---|
| Runs.EveryRun | services/reconciliation/src/infra_twin/reconciliation/reconcile.py:169-370 | After any interleaving of discovery runs, deltas, aging sweeps, candidate decisions, reversals and retention sweeps from an empty database, both tables are coherent histories (contiguous chains per id, one open row per identity, no overlap) and the graph is the projection of the current state, unless some delta closed, between CIs that stay open, an edge whose parallel the scan reads first. |
| Runs.EveryRunUnkeyed | services/reconciliation/src/infra_twin/reconciliation/reconcile.py:587-604 | In particular, in whatever order rows are read, after every run in which no delta closes an edge, between CIs that stay open, that has an open parallel with an edge key. |
| Runs.PastIsKept | packages/db/src/infra_twin/db/repositories.py:193-205 | Time travel: what is recorded as valid at an instant that has passed is the same after any later transactions, as long as no retention horizon reaches past the instant; resolved candidates stay as they are. |
| Runs.EveryStep | services/reconciliation/src/infra_twin/reconciliation/projection.py:27-66 | For one transaction of any kind, from any coherent state, committed or aborted: the tables stay coherent, the past as it was, resolved candidates untouched; from a state in agreement it ends in agreement exactly unless it is such a delta. |
| Widths.FeedIsExact | services/query/src/infra_twin/query/change_feed.py:32-80 | After any run in which no delta removes what it wrote, replaying the feed of any window over the CIs or edges open just before it gives exactly those open just before its end. |
| Widths.RunsStayWide | packages/db/src/infra_twin/db/repositories.py:107-224 | Reconcile, aging, accept, unmerge and retention never close a version at the instant it opened; only a delta can. |
| Widths.WideDelta | services/reconciliation/src/infra_twin/reconciliation/reconcile.py:386-618 | A delta does so if and only if it removes a CI or an edge of which it has just written a version. |
| Widths.RemovalIsMissed | services/query/src/infra_twin/query/change_feed.py:32-56 | A concrete database and delta, renaming a CI and removing it, after which the feed reports no removal and replaying it keeps the CI. |
| LiveQueries.LinksAreOpenEdges | services/reconciliation/src/infra_twin/reconciliation/projection.py:27-66 | When graph and tables agree, the relationships the searches walk are exactly the open edges between open CIs, with their confidence. |
| LiveQueries.NothingStale | services/query/src/infra_twin/query/blast_radius.py:117-131 | Then the filter that drops nodes which are not current CIs drops nothing. |
| LiveQueries.NothingStaleAfterRuns | services/query/src/infra_twin/query/blast_radius.py:117-131 | So it drops nothing after any run in which no delta closes an edge whose parallel is read first. |
| Versions.InsertCoherent | packages/db/src/infra_twin/db/repositories.py:119-134 | Inserting a first version keeps the table coherent. |
| Versions.SupersedeCoherent | packages/db/src/infra_twin/db/repositories.py:144-163 | Closing the open row and inserting its successor keeps every chain contiguous and every identity at one open row. |
| Versions.TouchCoherent | packages/db/src/infra_twin/db/repositories.py:136-142 | Touching last_seen in place keeps the table coherent. |
| Versions.CloseManyCoherent | packages/db/src/infra_twin/db/repositories.py:216-224 | Closing open rows keeps the table coherent. |
| Versions.AsOfUnique | packages/db/src/infra_twin/db/repositories.py:193-205 | as_of returns at most one row per identity key and per id at every instant. |
| Versions.NowIsCurrent | packages/db/src/infra_twin/db/repositories.py:193-205 | as_of the present instant gives the open rows. |
| Versions.ReadBetween | packages/db/src/infra_twin/db/repositories.py:193-205 | A closed version is read from the instant that opened it up to, not including, the one that closed it. |
| Versions.SupersedePuts | packages/db/src/infra_twin/db/repositories.py:144-163 | A new version replaces the open row of its key and changes nothing else of the current state nor of the past. |
| History.EveryRun | services/reconciliation/src/infra_twin/reconciliation/retention.py:77-226 | For one table under any run of inserts, versions, touches, closings and sweeps: coherent rows, aggregates that tile each entity's past up to its first surviving row, and versions ever written equal to those stored plus those the aggregates count. |
| History.SweepCount | services/reconciliation/src/infra_twin/reconciliation/retention.py:188-218 | A sweep conserves versions: what it deletes is what its aggregates count. |
| Repositories.ConflictIsSameInstant | migrations/0001_init.sql:37-41 | After the open row of an id is closed, inserting its next version violates the primary key (id, valid_from) or the one-open-row index exactly when the closed row was written in the same transaction. |
| Repositories.CiRepository.Upsert | packages/db/src/infra_twin/db/repositories.py:107-163 | Insert, touch or version; the new database and the returned row are those of the database function, an error exactly when that function aborts. |
| Repositories.CiRepository.Close | packages/db/src/infra_twin/db/repositories.py:216-224 | Closes the open row of a key, if any, and reports whether there was one. |
| Repositories.CiRepository.ValidAt | packages/db/src/infra_twin/db/repositories.py:193-205 | as_of: the rows valid at the instant, one at most per key and per id. |
| Repositories.EdgeRepository.Upsert | packages/db/src/infra_twin/db/repositories.py:237-426 | Insert with a count marker, aggregate an inferred re-observation, version a change, or leave an equal edge alone; empty evidence is an error. The method equals the database function, whose effect Store.UpsertEdgeIs and Aging.ReobservedRow spell out. |
| Repositories.EdgeRepository.Close | packages/db/src/infra_twin/db/repositories.py:450-458 | Closes the open row of an edge identity, if any. |
| Repositories.EdgeRepository.GetCurrent | packages/db/src/infra_twin/db/repositories.py:428-439 | Every open edge once, in no particular order. |
| Repositories.EdgeRepository.WriteDecayedVersion | packages/db/src/infra_twin/db/repositories.py:460-517 | Refuses a declared edge and a confidence that is not lower; otherwise writes the version with the appended note. |
| Store.UpsertCiEffect | packages/db/src/infra_twin/db/repositories.py:107-163 | A CI upsert keeps the id and first_seen of the open row of its key or takes a fresh id, refreshes last_seen, records name and attributes, and leaves every other open CI and every past instant as it was. |
| Store.UpsertCiIs | packages/db/src/infra_twin/db/repositories.py:107-163 | A first sight takes a new id; another one keeps id and first_seen, and writes a version of this instant unless name and attributes are equal and the confidence is within 0.000001 of 1, when the row is only touched. |
| Store.UpsertEdgeEffect | packages/db/src/infra_twin/db/repositories.py:237-426 | An edge upsert replaces just the open row of its identity; a declared edge is stored with its source, evidence and (up to the tolerance) confidence. |
| Store.UpsertEdgeIs | packages/db/src/infra_twin/db/repositories.py:264-426 | A first sight takes a new id; another one keeps it; two inferred provenances always write a version; otherwise nothing is written exactly if source and evidence are equal and the confidences differ by at most 0.000001, and else the data is stored as it comes. |
| Store.ProjectKeeps | services/reconciliation/src/infra_twin/reconciliation/projection.py:27-66 | Projecting the touched rows and the closed ones turns the projection of the old current state into the projection of the new one, edges with a closed endpoint left out. |
| Store.NameNeverCleared | services/reconciliation/src/infra_twin/reconciliation/projection.py:42-43 | A vertex that has a name keeps one through every projection it survives. |
| Engine.ProjectInto | services/reconciliation/src/infra_twin/reconciliation/projection.py:27-66 | The four loops produce exactly the projected graph. |
| Engine.FindCanonical | services/reconciliation/src/infra_twin/reconciliation/reconcile.py:107-166 | The alias lookup, spelled out: the open CI of the event's type to which every alias leads that another source registered for that type, if there is one; the method equals the function. |
| Engine.BindIdentity | services/reconciliation/src/infra_twin/reconciliation/reconcile.py:44-78 | Binds the source key and overwrites every alias row. |
| Engine.DiscoverEach | services/reconciliation/src/infra_twin/reconciliation/reconcile.py:189-278 | The loop over discovered CIs. |
| Engine.CloseUnseenCis | services/reconciliation/src/infra_twin/reconciliation/reconcile.py:280-300 | Closes exactly the open CIs in scope that were not observed and are bound to the source. |
| Engine.WriteEach | services/reconciliation/src/infra_twin/reconciliation/reconcile.py:325-347 | The loop over discovered edges, skipping unresolved ones or, for a delta, failing on them, equals the database function; which edges that writes is stated in Endpoints. |
| Engine.CloseUnseenEdges | services/reconciliation/src/infra_twin/reconciliation/reconcile.py:349-360 | Closes exactly the open edges of the given types that were not observed. |
| Engine.Reconcile | services/reconciliation/src/infra_twin/reconciliation/reconcile.py:169-370 | A whole call equals the database function, counters included; an error leaves the database as it was. What that function leaves is spelled out in Endpoints and Identities. |
| Engine.CloseNamedEdges | services/reconciliation/src/infra_twin/reconciliation/reconcile.py:587-604 | Closes the named edges under the empty edge key and records the first match of each. |
| Engine.ApplyDelta | services/reconciliation/src/infra_twin/reconciliation/reconcile.py:386-618 | A whole delta equals the database function, counters included; an error leaves the database as it was. What that function leaves is spelled out in Endpoints and Identities. |
| Reconciling.ReconcileKeeps | services/reconciliation/src/infra_twin/reconciliation/reconcile.py:169-370 | A discovery run keeps the tables coherent and, if they agreed, graph and tables in agreement. |
| Reconciling.ReconcileExact | services/reconciliation/src/infra_twin/reconciliation/reconcile.py:189-360 | After a run the open CIs are the seen keys plus the previously open ones not both in scope and owned by the source; the open edges are the resolved observed ones plus those of out-of-scope types; ids persist; the counters account for every change of the open counts. Endpoints.OpenAfterRun and Identities.CisAfterRun say the same of the events alone. |
| Reconciling.CanonicalIs | services/reconciliation/src/infra_twin/reconciliation/reconcile.py:107-166 | When an event is merged: exactly if its aliases, as other sources registered them for its type, lead to one open CI of that type and to no other. |
| Identities.EventIs | services/reconciliation/src/infra_twin/reconciliation/reconcile.py:189-278 | Which CI one event is bound to: the open one of its key; else the one its aliases lead to, with one merge recorded that names it; else a new one under its key. |
| Identities.CisAfterRun | services/reconciliation/src/infra_twin/reconciliation/reconcile.py:280-300 | Exactly which CIs that were open a run leaves open: those some event is bound to, those of types out of scope, those no native id of the source leads to; whatever else is open is named by an event and bound to it. |
| Identities.RunCounts | services/reconciliation/src/infra_twin/reconciliation/reconcile.py:189-360 | The counters of a run: created is the CIs open only after it, closed those open only before it, updated those that stay open under a new version, unchanged the other events; closed edges are those open only before it. |
| Identities.MergesAfterRun | services/reconciliation/src/infra_twin/reconciliation/reconcile.py:81-104 | A run adds one merge record for each event bound to a CI of another key, with that CI, the source and the native id, and no others; source keys and aliases that no event gives stay as they were. |
| Identities.AliasesAfterRun | services/reconciliation/src/infra_twin/reconciliation/reconcile.py:56-78 | After a run an alias leads to the CI of the last event that gave it, under its type and source. |
| Identities.NameIsShown | services/reconciliation/src/infra_twin/reconciliation/projection.py:27-43 | After a run the graph shows an event's name at its CI, unless the name is missing or a later event is about that CI. |
| Endpoints.OpenAfterRun | services/reconciliation/src/infra_twin/reconciliation/reconcile.py:302-360 | Exactly which edges a run leaves open: those that were open and of types out of scope, and those its events stand for: of the event's type and edge key, from the CI of its `from` to the CI of its `to`, each the open CI of the key, or the one a merged event or a source key leads to. |
| Endpoints.ObservedIsOpen | services/reconciliation/src/infra_twin/reconciliation/reconcile.py:333-347 | An observed edge whose endpoint keys are open after the run is open, from the one to the other, for every batch. |
| Endpoints.UnknownIsSkipped | services/reconciliation/src/infra_twin/reconciliation/reconcile.py:328-332 | An edge with an endpoint that is neither open nor named by an event nor bound writes nothing: the run is the one without it. |
| Endpoints.AllAreWritten | services/reconciliation/src/infra_twin/reconciliation/reconcile.py:325-347 | A run without such an edge counts every edge of the batch as written. |
| Endpoints.ObservedIsRecorded | services/reconciliation/src/infra_twin/reconciliation/reconcile.py:189-278 | After a run the native id of every event leads to an open CI, with the name, attributes and time of the event unless a later event is about the same CI. |
| Endpoints.DeclaredIsRecorded | services/reconciliation/src/infra_twin/reconciliation/reconcile.py:333-344 | A declared edge is stored with the source, evidence and (up to the tolerance) confidence of the last event that stands for it. |
| Reconciling.ReconcileStable | services/reconciliation/src/infra_twin/reconciliation/reconcile.py:169-370 | A run leaves what is recorded about every earlier instant as it was. |
| Rerun.ReconcileAgain | services/reconciliation/src/infra_twin/reconciliation/reconcile.py:169-370 | If the first run merged no event into a CI of another source: for one content per key, declared edges and one provenance per resolved edge, a second run in any later transaction succeeds, writes no version, closes nothing, counts every CI unchanged, and changes nothing but last_seen. Alias keys are allowed. |
| Rediscovery.MergesAreForgotten | services/reconciliation/src/infra_twin/reconciliation/reconcile.py:56-78 | Registering alias keys makes the merging source their owner, so a second run in any later transaction creates one CI for each event the first run merged. |
| Rediscovery.IdempotentUnlessMerged | services/reconciliation/src/infra_twin/reconciliation/reconcile.py:169-370 | The exact condition: for distinct keys and such edges a second run creates no CI, and changes nothing but last_seen, if and only if the first run merged no event. |
| Rediscovery.NodeComesBack | services/reconciliation/src/infra_twin/reconciliation/reconcile.py:107-166 | A concrete database and batch: the first run merges the node into the instance, the second inserts it as a CI of its own. |
| Deltas.DeltaKeeps | services/reconciliation/src/infra_twin/reconciliation/reconcile.py:386-618 | A delta keeps the tables coherent and the past as it was. |
| Deltas.DeltaAgrees | services/reconciliation/src/infra_twin/reconciliation/reconcile.py:587-604 | A delta keeps graph and tables in agreement if and only if no edge it closes, between CIs that its upserts leave open and it does not remove, has a parallel edge that the scan reads first. |
| Deltas.DeltaAgreesInAnyOrder | services/reconciliation/src/infra_twin/reconciliation/reconcile.py:587-604 | It does so for every order of the scan if and only if no such edge has an open parallel with an edge key. |
| Deltas.DeltaDisagrees | services/reconciliation/src/infra_twin/reconciliation/reconcile.py:595-603 | A concrete database and delta after which the closed edge is still in the graph and the open one is not. |
| Deltas.DeltaExact | services/reconciliation/src/infra_twin/reconciliation/reconcile.py:453-604 | Which CIs and which edges are open after a delta: those before it and the upserted ones, without the removed ones; and the counters against the open counts. |
| Identities.CisAfterDelta | services/reconciliation/src/infra_twin/reconciliation/reconcile.py:453-585 | Exactly which CIs that were open a delta leaves open: those it does not remove, under their ids; whatever else is open is named by one of its events. |
| Endpoints.OpenAfterUpserts | services/reconciliation/src/infra_twin/reconciliation/reconcile.py:547-576 | The edges open once a delta has written: those that were open and those its edges stand for; and every one of its edges stands for one. |
| Endpoints.UpsertedIsOpen | services/reconciliation/src/infra_twin/reconciliation/reconcile.py:547-604 | An edge a delta names is open after it between endpoints that are, unless it may be among the removed ones. |
| Endpoints.RemovedIsClosed | services/reconciliation/src/infra_twin/reconciliation/reconcile.py:587-604 | An edge a delta removes is not open under the empty edge key, from its `from` to its `to`, after it. |
| Endpoints.OpenAfterDelta | services/reconciliation/src/infra_twin/reconciliation/reconcile.py:547-604 | Exactly which edges a delta leaves open: those open after its upserts but for the ones its removals name. |
| Endpoints.DeltaCounts | services/reconciliation/src/infra_twin/reconciliation/reconcile.py:453-576 | A delta counts every CI event and every edge once. |
| Deltas.StrictWrites | services/reconciliation/src/infra_twin/reconciliation/reconcile.py:547-576 | When no endpoint is unresolved, a delta writes edges as a discovery run does. |
| Operations.AcceptCandidate | services/reconciliation/src/infra_twin/reconciliation/candidates.py:394-643 | A whole acceptance equals the database function; a refusal, by its kind, leaves the database as it was. |
| Operations.Unmerge | services/reconciliation/src/infra_twin/reconciliation/unmerge.py:69-308 | A whole reversal equals the database function; a refusal leaves the database as it was. |
| Operations.DismissCandidate | services/reconciliation/src/infra_twin/reconciliation/candidates.py:646-692 | Dismissing changes the status of a pending candidate and nothing else. |
| Operations.MoveEach | services/reconciliation/src/infra_twin/reconciliation/candidates.py:526-558 | The repointing loop: close each edge, upsert it at the new endpoints with the note. |
| Operations.FirstKey | services/reconciliation/src/infra_twin/reconciliation/candidates.py:469-487 | The smallest (source, native_id) bound to a CI. |
| Operations.CanonicalIsSymmetric | services/reconciliation/src/infra_twin/reconciliation/candidates.py:448-465 | Which CI survives does not depend on the order the candidate lists the two. |
| Decisions.TextOrder | services/reconciliation/src/infra_twin/reconciliation/candidates.py:450-456 | The comparison of external ids is the order of texts: at the first difference the smaller character, or the end, comes first. |
| Decisions.PlanIs | services/reconciliation/src/infra_twin/reconciliation/candidates.py:446-493 | Which CI survives and which identity the merge records: the smaller external id, then id; the smallest source key of the other CI in that order, or a made-up one if it has none. |
| Decisions.RefusalsAre | services/reconciliation/src/infra_twin/reconciliation/candidates.py:394-444 | An acceptance is refused as resolved exactly when the candidate is not pending, as not found exactly when it is unknown or one of its CIs is not open. |
| Decisions.AcceptIs | services/reconciliation/src/infra_twin/reconciliation/candidates.py:495-628 | What an acceptance leaves: every source key and alias of the merged CI leads to the survivor; the merged CI is closed and no other; its declared edges are repointed and no other; one merge is recorded and resolves the candidate. |
| Decisions.ReversalRefusalsAre | services/reconciliation/src/infra_twin/reconciliation/unmerge.py:96-135 | A reversal is refused as reversed exactly when the merge was, as not found exactly when it is unknown or its survivor is not open. |
| Decisions.UnmergeIs | services/reconciliation/src/infra_twin/reconciliation/unmerge.py:137-294 | What a reversal leaves: the restored CI open under the recorded external id; the recorded source key and the aliases of its source lead to it; the declared edges of the survivor whose evidence names the source, or holds the external id, are repointed and no other. |
| Decisions.MovesRepoint | services/reconciliation/src/infra_twin/reconciliation/candidates.py:526-558 | Repointing closes each of the edges where it was and opens it with the endpoint replaced, its data and one more note, and spares every other edge. |
| Merging.AcceptKeeps | services/reconciliation/src/infra_twin/reconciliation/candidates.py:394-643 | An acceptance keeps the tables coherent, graph and tables in agreement and the past as it was, closes just the merged CI, and cannot be repeated. |
| Merging.UnmergeKeeps | services/reconciliation/src/infra_twin/reconciliation/unmerge.py:69-308 | A reversal keeps the tables coherent, graph and tables in agreement and the past as it was, and cannot be repeated. |
| Candidates.GenerateCandidates | services/reconciliation/src/infra_twin/reconciliation/candidates.py:284-391 | Afterwards a pair is listed exactly if it was before or is a pair of open CIs of one type, each with a source the other lacks, without a shared alias and at least as alike as the threshold; what was listed keeps its status, what is new is pending, and nothing else is written. |
| Candidates.ProposedAre | services/reconciliation/src/infra_twin/reconciliation/candidates.py:333-365 | Which pairs are eligible, spelled out: two open CIs of one type, each known to a source that does not know the other, no alias key in common, a score of at least one half. |
| Merging.OfferKeeps | services/reconciliation/src/infra_twin/reconciliation/candidates.py:367-386 | The insert of one pair: each unordered pair is listed once, smaller id first, and a resolved one is never reopened. |
| Merging.DismissKeeps | services/reconciliation/src/infra_twin/reconciliation/candidates.py:646-692 | A dismissed candidate cannot be accepted; every table but the candidates is untouched. |
| RoundTrip.AcceptThenUnmerge | services/reconciliation/src/infra_twin/reconciliation/unmerge.py:137-252 | Accept then reverse, where the identities and edges of the pair are apart: both commit; source keys, aliases and open CIs are back with the restored id for the merged one; the open declared edges are back, each with its two notes, if and only if the evidence of the edges tells the two CIs apart. |
| RoundTrip.MovesKeepData | services/reconciliation/src/infra_twin/reconciliation/candidates.py:526-558 | Repointing declared edges whose new endpoints are free always succeeds and changes nothing but the endpoints and the note. |
| Misattributed.LinkIsTakenAlong | services/reconciliation/src/infra_twin/reconciliation/unmerge.py:201-252 | A concrete pair and edge: accepting and reversing moves an edge of the surviving CI to the restored one, because the restored source had reported it. |
| RoundTrip.TwoMovesExact | services/reconciliation/src/infra_twin/reconciliation/candidates.py:512-558 | The two repointings compose to a renaming of the declared edges exactly under that condition. |
| Operations.AgeInferredEdges | services/reconciliation/src/infra_twin/reconciliation/aging.py:62-198 | A whole sweep equals the database function, counters included; an error leaves the database as it was. |
| Operations.AgeOne | services/reconciliation/src/infra_twin/reconciliation/aging.py:107-183 | One iteration, in the order of the program's guards. |
| Aging.AgeKeeps | services/reconciliation/src/infra_twin/reconciliation/aging.py:94-198 | A sweep decides each open edge on its own, counts every inferred edge once, the decayed ones by rewritten edges and the closed ones by edges no longer open, and keeps the tables coherent, graph and tables in agreement and the past as it was. |
| Aging.AgedEdge | services/reconciliation/src/infra_twin/reconciliation/aging.py:107-183 | Declared edges and edges without a marker are untouched, no confidence rises, a lowered one stays at or above 0.2, the time of the last observation never moves, and a marked inferred edge is closed exactly when it was last seen more than thirty days ago. |
| Aging.WeakenedEdge | services/reconciliation/src/infra_twin/reconciliation/aging.py:140-175 | Exactly which open edges a sweep rewrites: marked inferred ones seen between seven and thirty days ago, above 0.2, without a note of this clock; by the decay curve, under their id, with one more note; every other one stays as it is. |
| Aging.ReobservedRow | packages/db/src/infra_twin/db/repositories.py:305-393 | An inferred sight of an open inferred edge, as the table records it: same id, a version of this instant, one more sight, and the rows Lifecycle.SeenKeeps describes. |
| Aging.SecondSweep | services/reconciliation/src/infra_twin/reconciliation/aging.py:140-160 | A second sweep on the same clock, in any later transaction, changes nothing. |
| Confidence.CurveRange | packages/core-model/src/infra_twin/core_model/confidence.py:36-57 | The observation curve rises with the count from 0.6 and stays below 1. |
| Confidence.CurveHalves | packages/core-model/src/infra_twin/core_model/confidence.py:36-57 | The first sight gives 0.6, each further one halves the distance to 1 up to the cap of 1 - 10^-15. |
| Confidence.StrictlyIncreasingUpTo49 | packages/core-model/src/infra_twin/core_model/confidence.py:56-57 | It rises strictly from one count to the next exactly up to 49 observations, where the cap takes over. |
| Confidence.DecayRange | packages/core-model/src/infra_twin/core_model/confidence.py:60-91 | Past the freshness window decay gives at least the floor, lowers every confidence above the floor, and raises one exactly when it is below the floor. |
| Confidence.DecayPerDay | packages/core-model/src/infra_twin/core_model/confidence.py:60-91 | Past the window a day takes 0.05, down to 0.2. |
| Confidence.DecayRaisesBelowFloor | packages/core-model/src/infra_twin/core_model/confidence.py:91-91 | A confidence below the floor is lifted to it. |
| Confidence.DecayMonotone | packages/core-model/src/infra_twin/core_model/confidence.py:60-91 | An older edge never decays to more than a younger one, exactly unless a value below the floor leaves the freshness window in between. |
| Observations.CountReadsBack | packages/db/src/infra_twin/db/repositories.py:310-325 | A count written into the marker is read back. |
| Lifecycle.FirstStep | packages/db/src/infra_twin/db/repositories.py:264-303 | A first inferred sight carries the count 1 and the baseline; its marker is the only one exactly when the incoming evidence brought none. |
| Lifecycle.SeenStep | packages/db/src/infra_twin/db/repositories.py:305-393 | A re-observation adds one to the count whatever the 20-row window dropped, never lowers the confidence, and raises it strictly up to 49 sights. |
| Lifecycle.SeenKeeps | packages/db/src/infra_twin/db/repositories.py:310-393 | Behind the new marker stand the rows of the sight, at most the last 20, after the newest earlier rows that fit; the marker shows the time of the last of them. |
| Lifecycle.DecayStep | services/reconciliation/src/infra_twin/reconciliation/aging.py:140-175 | A decay step happens only between window and limit, lowers the confidence to no less than the floor, and moves neither the last observation nor the count. |
| Lifecycle.AgeExact | services/reconciliation/src/infra_twin/reconciliation/aging.py:107-175 | An edge is closed exactly when it was last seen more than thirty days ago, and weakened exactly when that is between seven and thirty days, above 0.2, once per clock. |
| Lifecycle.ClosedWhenStale | services/reconciliation/src/infra_twin/reconciliation/aging.py:107-138 | After any life, a sweep closes the edge exactly when more than thirty days have passed since its last sight. |
| Lifecycle.AgeIdempotent | services/reconciliation/src/infra_twin/reconciliation/aging.py:140-160 | Deciding again at the same instant leaves the edge alone. |
| Lifecycle.LifeOfAnEdge | packages/db/src/infra_twin/db/repositories.py:237-517 | From a first inferred sight at the baseline, over every interleaving of re-observations and sweeps that leaves the edge open, the marker is first and counts every sight, the time of the last observation is that of the last row of the last sight, and the confidence stays between the floor and the curve of that count, below 1. |
| Retention.HistoryTable.SweepKind | services/reconciliation/src/infra_twin/reconciliation/retention.py:77-226 | Exactly the collapsible rows go, each entity that loses rows gets one aggregate over them, and the report counts what it says. |
| Retention.HistoryTable.SweepEntity | services/reconciliation/src/infra_twin/reconciliation/retention.py:123-218 | One entity of the loop. |
| Retention.SweptCounts | services/reconciliation/src/infra_twin/reconciliation/retention.py:117-164 | What the counters of the report count: the rows that went, the open rows, the entities with a closed version, the versions that ended before the horizon. |
| Retention.RemovedFirst | services/reconciliation/src/infra_twin/reconciliation/retention.py:136-161 | What a sweep deletes is older than everything that stays of the entity. |
| Retention.SweepKeeps | services/reconciliation/src/infra_twin/reconciliation/retention.py:136-161 | Only versions closed before the horizon are deleted, and each has a later version of its entity that stays. |
| Retention.SweptExactly | services/reconciliation/src/infra_twin/reconciliation/retention.py:136-161 | Exactly which versions stay: open ones, those that did not end before the horizon, and the last closed one of an entity. |
| Retention.SweptCoherent | services/reconciliation/src/infra_twin/reconciliation/retention.py:136-218 | The survivors are again contiguous chains. |
| Retention.SweepIdempotent | services/reconciliation/src/infra_twin/reconciliation/retention.py:136-161 | Sweeping again at the same horizon finds nothing. |
| Retention.SweepInvisible | packages/db/src/infra_twin/db/repositories.py:193-205 | as_of at or after the horizon, and the current rows, do not notice a sweep. |
| Retention.AggregateSpans | services/reconciliation/src/infra_twin/reconciliation/retention.py:163-204 | An aggregate starts at the first deleted version and ends where the first survivor begins. |
| Retention.AggregateCounts | services/reconciliation/src/infra_twin/reconciliation/retention.py:169-172 | It counts the versions of its entity that are gone. |
| Retention.SweepTiles | services/reconciliation/src/infra_twin/reconciliation/retention.py:188-204 | Successive aggregates of an entity abut and reach its first survivor. |
| ChangeFeed.ReplayExact | services/query/src/infra_twin/query/change_feed.py:32-56 | Replaying created and removed events over the ids open just before a window gives the ids open just before its end, if and only if no version in the window was opened and closed at one instant on top of an earlier one. |
| ChangeFeed.CountsBalance | services/query/src/infra_twin/query/change_feed.py:32-56 | The number of created events minus the number of removed ones is the change in the number of open ids, under exactly the same condition. |
| ChangeFeed.KindIsRight | services/query/src/infra_twin/query/change_feed.py:33-43 | A first version is reported created, and a last one removed, exactly when its width is positive; every other one is an update. |
| ChangeFeed.FeedTells | services/query/src/infra_twin/query/change_feed.py:32-56 | Exactly which events a window holds: the opening of a version in it, as created if it is a first one that lasts and else as updated, at its start; the end of a last version that lasted, as removed, at its end. |
| ChangeFeed.SweepKeepsFeed | services/query/src/infra_twin/query/change_feed.py:32-56 | A retention sweep changes no window that starts at or after its horizon. |
| Events.ChangeEvents | services/query/src/infra_twin/query/change_feed.py:59-80 | The feeds of both tables, each event once, newest first, all inside the window. |
| Events.NothingTwice | services/query/src/infra_twin/query/change_feed.py:32-56 | The UNION ALL repeats nothing: no two rows open and no two rows close with one event. |
| Reach.WithinIsPaths | services/query/src/infra_twin/query/blast_radius.py:95-115 | The levels of the reference search are exactly the ends of paths of bounded length. |
| Reach.DistanceIsShortest | services/query/src/infra_twin/query/blast_radius.py:95-115 | The reference distance is the length of a shortest path. |
| Traversal.Search | services/query/src/infra_twin/query/blast_radius.py:94-116 | The capped loop finds exactly the shortest distances in the graph cut to the fan-out, lists each found node once, and reports exactly the nodes that were cut. |
| Traversal.TracedSearch | services/query/src/infra_twin/query/reachability.py:94-118 | The same with a predecessor per found node, one level nearer and joined to it by an edge; the predecessors are exactly the search tree, a function of the graph, the source and the depth. |
| Traversal.FirstFinder | services/query/src/infra_twin/query/reachability.py:94-118 | In that tree the parent of a node is the first node of the previous level, in scan order, that meets it. |
| Traversal.WalkBack | services/query/src/infra_twin/query/reachability.py:145-163 | The predecessor walk ends, and returns the chain from the node to the target, as long as the distance. |
| Traversal.BacktrackIsChain | services/query/src/infra_twin/query/reachability.py:145-163 | That chain runs over followed edges, end to end. |
| Queries.BlastRadius | services/query/src/infra_twin/query/blast_radius.py:86-133 | The current CIs found, with their distances in the cut graph, and the exact supernodes; Steps.HopIsStep, Followed and FoundByRoutes say what a hop, the cut and a found CI are. |
| Queries.BuildNeighborhood | services/query/src/infra_twin/query/rca.py:150-200 | The upstream neighbourhood with its distances, the target at 0; Steps.NeighborhoodIs says the same in relationships alone. |
| Steps.HopIsStep | services/query/src/infra_twin/query/blast_radius.py:25-78 | Uncapped, a walk goes from x to y in one hop exactly along a relationship of at least the confidence: for impact one by which x contains y, or y depends on, runs on, routes to or exposes x; upstream the reverse; for access one by which y connects to, routes to, has access to or exposes x. |
| Steps.Followed | services/query/src/infra_twin/query/blast_radius.py:94-116 | From a node the search follows such hops only, all of them or as many as the cap; the degree is the number of distinct neighbours. |
| Steps.SupernodesAre | services/query/src/infra_twin/query/blast_radius.py:94-116 | The supernodes are the nodes expanded that have more neighbours than the cap, each with that number and its distance. |
| Steps.FoundByRoutes | services/query/src/infra_twin/query/blast_radius.py:86-133 | Without a supernode a search finds exactly the current CIs that a route of such hops within the depth leads to, at the length of a shortest one. |
| Steps.FoundIsReal | services/query/src/infra_twin/query/blast_radius.py:86-133 | With supernodes, whatever it reports is still joined by a route of that length. |
| Steps.NeighborhoodIs | services/query/src/infra_twin/query/rca.py:114-200 | The upstream neighbourhood, which has no cap: exactly the target and the current CIs from which breakage spreads to it within the depth, each as far as its shortest route. |
| Queries.Reachability | services/query/src/infra_twin/query/reachability.py:76-224 | Every current CI that reaches the target, with its distance and a path of real, confident edges of that length; whether an internet CI is among them. |
| Queries.NothingTruncated | services/query/src/infra_twin/query/blast_radius.py:95-115 | A search that reports no supernode searched the whole graph. |
| Queries.UpstreamIsConverse | services/query/src/infra_twin/query/rca.py:114-147 | The upstream walk follows the impact arrows backwards. |
| Queries.Duality | services/query/src/infra_twin/query/rca.py:114-200 | If the blast radius of y records no supernode, it reports x at distance d exactly when the upstream neighbourhood of x holds y at d. |
| Queries.BlastIsUpstream | services/query/src/infra_twin/query/rca.py:150-200 | Capped or not, whatever a blast radius reports has its source upstream, no farther. |
| RootCause.FindCauses | services/query/src/infra_twin/query/rca.py:249-342 | The causes are the change events of both tables over the lookback, each exactly once, in the order of the sort key: a CI event exactly if its CI is in the upstream neighbourhood, at the CI's distance; an edge event exactly if one of its ends is, at the nearer known end's distance. |
| RootCause.CausesArePlaced | services/query/src/infra_twin/query/rca.py:299-326 | That characterisation of the listed events and their distances. |
| RootCause.Scores | services/query/src/infra_twin/query/rca.py:203-218 | The score: removed, updated and created weigh 3 to 2 to 1, times nearness plus recency, with nearness 1/(1 + distance) and recency lookback/(lookback + age). |
| RootCause.RankingOrder | services/query/src/infra_twin/query/rca.py:328-333 | The sort key spelled out: higher score, then nearer, then later, then CIs before edges, then the smaller id. |
| RootCause.RankingIsUnique | services/query/src/infra_twin/query/rca.py:328-333 | The sort key ties no two causes, so the ranking does not depend on the order in which the database returns the events. |
| RootCause.SortedRanked | services/query/src/infra_twin/query/rca.py:328-333 | The ranking is ordered and loses or repeats no cause. |
| RootCause.ScoreMonotone | services/query/src/infra_twin/query/rca.py:203-218 | Closer and later both raise the score of one kind of change, strictly. |
| RootCause.RemovalsFirstUpToFive | services/query/src/infra_twin/query/rca.py:203-218 | Any removal outranks any creation in the window if and only if the depth is at most five. |
| RootCause.NoCauseMissed | services/query/src/infra_twin/query/rca.py:281-326 | Every change of a current CI whose blast radius reports the target is ranked, at no greater distance. |
| RootCause.EveryCauseImpacts | services/query/src/infra_twin/query/rca.py:281-326 | Conversely a ranked change of another CI is one whose blast radius reports the target at that distance, if that blast radius was not truncated. |
| RootCause.GoneCisAreMissed | services/query/src/infra_twin/query/rca.py:182-200 | Changes of a CI that is no longer current are never ranked. |
| WhatIf.WhatIfImpact | services/query/src/infra_twin/query/whatif.py:150-361 | For equal inputs the same ids, distances and supernodes as the blast radius even when capped; for each id the evidence along its path in the search tree, as long as its distance; confidence within [0, 1]; an unknown change kind is an error. Estimates.EstimateSays spells an entry out. |
| WhatIf.PathTo | services/query/src/infra_twin/query/whatif.py:259-278 | The rebuilt path is the predecessor chain from the source. |
| WhatIf.Assemble | services/query/src/infra_twin/query/whatif.py:319-346 | One evidence hop per path hop and the product of the looked-up confidences. |
| Estimates.EstimateSays | services/query/src/infra_twin/query/whatif.py:255-356 | An entry: its path leads from the changed CI to the impacted one along real relationships of the impact types, one per unit of distance; every hop cites the open edge that runs its way, or counts as declared and certain; the confidence is the product of the cited ones, halved for a modification. |
| WhatIf.ConfidenceBounded | services/query/src/infra_twin/query/whatif.py:319-346 | The path confidence lies in [0, 1]. |
| WhatIf.ConfidenceNeverGrows | services/query/src/infra_twin/query/whatif.py:319-346 | It never grows from a node's search parent to the node. |
| WhatIf.ModifyHalvesRemove | services/query/src/infra_twin/query/whatif.py:340-346 | Of two calls that differ in the kind of change, the modification reports the same CIs, distances, paths and supernodes as the removal, with exactly half the confidence. |
| WhatIf.InwardHop | services/query/src/infra_twin/query/whatif.py:106-142 | A hop of any type but CONTAINS goes against its edge. |
| WhatIf.OnlyContainmentCounts | services/query/src/infra_twin/query/whatif.py:324-330 | Where no open edge runs the other way too, inward hops count as certain and only containment hops contribute. |
| WhatIf.ReportedIsTheProduct | services/query/src/infra_twin/query/whatif.py:324-330 | There the reported confidence is the product of the confidences of the edges on the path if and only if it is 0 or every edge that is not a containment is certain. |
| WhatIf.WeakDependencyIsCertain | services/query/src/infra_twin/query/whatif.py:319-346 | A concrete call: a CI that depends on the changed one by an edge of confidence 0.25 is reported as impacted with confidence 1. |
| Findings.FindingRepository.GetOpen | packages/db/src/infra_twin/db/findings.py:56-71 | The open finding of each subject of a rule. |
| Findings.FindingRepository.OpenFinding | packages/db/src/infra_twin/db/findings.py:84-108 | Inserts, unless the subject already has an open finding of the rule. |
| Findings.FindingRepository.Resolve | packages/db/src/infra_twin/db/findings.py:110-121 | Resolves an open finding, once. |
| Findings.NearestInternetSource | services/reconciliation/src/infra_twin/reconciliation/findings.py:108-110 | The nearest internet source, the smaller id on a tie. |
| Findings.EvaluateInternetReachableDatabase | services/reconciliation/src/infra_twin/reconciliation/findings.py:118-187 | Afterwards the open findings of the rule are exactly the exposed databases; opened and resolved are the two differences; every new finding cites the nearest internet source with its distance and a real path; other rules are untouched; a second evaluation changes nothing. |
| Findings.ExposedByPath | services/reconciliation/src/infra_twin/reconciliation/findings.py:135-170 | A database is exposed exactly when a path of at most the depth leads to it from a current internet CI in the cut graph. |
| Findings.ExposedByRoutes | services/reconciliation/src/infra_twin/reconciliation/findings.py:92-187 | Without a supernode, a current rds CI is exposed exactly when a route of access hops within the depth leads from it back to a current internet CI. |
| Splitter.SplitStatements | packages/db/src/infra_twin/db/migrate.py:17-90 | The scanner with lookahead returns what a one-character automaton that never looks ahead returns; Scripts says what that is in terms of the characters. |
| Splitter.SplitOfJoin | packages/db/src/infra_twin/db/migrate.py:17-90 | Splitting the `;`-join of trimmed, closed statements without top-level separators or comments returns the statements. |
| Splitter.SplitIsScript | packages/db/src/infra_twin/db/migrate.py:17-90 | Every output statement is trimmed, non-empty and free of top-level separators and comments; all but the last are closed. Which characters are trimmed is stated by Scripts.StatementsAreTrimmed and Scripts.StripIs. |
| Splitter.SplitImage | packages/db/src/infra_twin/db/migrate.py:17-90 | The lists of that shape are exactly the lists the splitter can return. |
| Splitter.SplitIdempotent | packages/db/src/infra_twin/db/migrate.py:17-90 | Splitting the join of a split gives the same list, for every script. |
| Scripts.StatementsAreTrimmed | packages/db/src/infra_twin/db/migrate.py:77-90 | No statement is empty or begins or ends with a space, tab, line feed, vertical tab, form feed, carriage return or U+001C to U+001F. |
| Scripts.StripIs | packages/db/src/infra_twin/db/migrate.py:78-78 | Trimming takes away exactly those characters at both ends. |
| Scripts.SplitAtSemicolon | packages/db/src/infra_twin/db/migrate.py:77-83 | A `;` outside quotes and comments separates: what is before it and what is after it split on their own. |
| Scripts.BlanksAroundSemicolon | packages/db/src/infra_twin/db/migrate.py:77-90 | Runs of those characters around a separator add no statement and change none. |
| Scripts.TrailingBlanks | packages/db/src/infra_twin/db/migrate.py:87-90 | Nor do they behind a script. |
| Scripts.LeadingBlanks | packages/db/src/infra_twin/db/migrate.py:78-78 | Nor in front of one. |
| Scripts.QuotesProtect | packages/db/src/infra_twin/db/migrate.py:36-66 | A single or double quote protects everything up to the next one of its kind, separators and comments included. |
| Scripts.DollarsProtect | packages/db/src/infra_twin/db/migrate.py:27-35 | For every name of letters, digits and underscores that does not begin with a digit, or none, `$name$` protects everything up to the next `$name$`. |
| Scripts.OtherDollarsDoNot | packages/db/src/infra_twin/db/migrate.py:67-76 | A pair of `$` around anything else that holds no quote, dash, `;` or `$` protects nothing: a `;` behind it separates. |
| Scripts.ProtectedIsOne | packages/db/src/infra_twin/db/migrate.py:17-90 | Text that is protected as a whole is one statement, with every `;` in it. |
| Scripts.CommentsAreDropped | packages/db/src/infra_twin/db/migrate.py:53-56 | A comment counts as its line break. |

## Left out

- Splitter.SplitStatements: identifiers and white space are ASCII; Python also accepts Unicode letters in a tag name and Unicode spaces around a statement.
- Confidence.CurveRange: confidences are exact reals, not doubles or the single-precision column; the 1e-6 tolerance of the change test is kept. Times are whole seconds.
- Repositories.EdgeRepository.Upsert: a stored count is parsed as an optional minus sign and ASCII digits; Python also accepts spaces, underscores and a plus sign. Evidence without an observation time takes the process clock in the source; here it carries the transaction time.
- Operations.AcceptCandidate: the matched alias key and the evidence text of a merge row are not stored; the notes on moved edges keep the ids but not the UUID format.
- Rerun.ReconcileAgain: stated for one provenance per resolved edge, because two edges of a batch with one identity and different provenance are written over each other, which fails when both change in one transaction.
- Rediscovery.IdempotentUnlessMerged: stated under the same condition on edges.
- RoundTrip.AcceptThenUnmerge: stated for a merged CI with one source key equal to its external id and for edges that neither join the pair nor collide when moved; the condition on evidence is exact.
- Endpoints.OpenAfterRun: stated for batches that give no native id to two types of CI, because a merged event of the one type may then share its source key with an event of the other; ObservedIsOpen needs no such condition.
- Endpoints.OpenAfterDelta: stated for removals that do not name a CI which the same delta removes; such a CI is looked up in the cache of the delta.
- Identities.CisAfterRun: stated, like MergesAfterRun, AliasesAfterRun and NameIsShown, for batches that give no native id twice; RunCounts and EventIs are not.
- Decisions.AcceptIs: where two edges of the merged CI move to one key, which of them the survivor's edge takes its data from is not stated.
- Runs.EveryRun: connector runs, raw facts, notifications and freshness are not part of the state, nor are the aggregates of a retention sweep; that a sweep conserves versions is stated for each table alone, in History.
- RootCause.FindCauses: the wording of the evidence is left out, and UUID order is the order of the model's ids.
- Queries.Reachability: the evidence lists fetched for the hops of a path, presentation order and the names of CIs are left out; results are maps from CI id.
- Candidates.GenerateCandidates: how the score is computed from names, addresses and alias tokens is left out, it is a symmetric parameter; a candidate row keeps its status but not its score and evidence text, so refreshing a pending one shows nothing; pairs are visited over the whole listing instead of type by type.
- The findings job: the over-permissive IAM rule, severities and evidence text.
- History aggregates: the rolled-up JSON and the per-kind connector run.
- Tenants, row-level security, pools, cypher text and escaping: one tenant, tables as sets of rows, the graph as two maps.
- Concurrency between transactions: each step of a run is a whole transaction.
- Collectors, event parsers, HTTP, GraphQL, CLI, web, authentication, quota, audit and the natural-language planner.
