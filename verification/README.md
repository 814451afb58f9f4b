# Terraducktel, verified

Dafny models of the parts of Terraducktel whose correctness is a property of every run, every log, every
plan or every argument list, with proofs of those properties. `dafny verify dfyconfig.toml` checks all of it.

| file | what it models |
|---|---|
| `Texts.dfy` | text primitives as Python has them (`split`, `join`, `replace`, `strip`, string order, `sorted`) and resource addresses |
| `AuditChain.dfy` | the audit log: what is hashed, the verifier's walk, the triggers of the table, stamping, the restamping script |
| `ArgvHoist.dfy` | the CLI shim that moves global options in front of the command |
| `RunLifecycle.dfy`, `PlanSummary.dfy` | a run's statuses under launch, PATCH, cancel, approve, reject and worker failure; the auto-approval decision |
| `PlanGraph.dfy` | the graph built from a plan: changes, prior state at any depth, configuration references |
| `LikeSearch.dfy` | escaping a search text into a LIKE pattern, and LIKE itself (section 8.5 of ISO/IEC 9075-2) |
| `ApiKeys.dfy` | API keys under create, rotate, regenerate and revoke, with a clock |
| `TfState.dfy`, `DriftCollector.dfy` | reading Terraform state, tag drift, classifying live resources, the collector's report |
| `GhostProtocol.dfy` | how a missing resource is confirmed, as a protocol interleaved with applies; the scan over all workspaces |
| `DriftReports.dfy` | ingest of drift reports and paging, the latest report of a workspace, the summary, retention |
| `AccountColors.dfy` | the least-used colour allocator and migration 041 |
| `Webhooks.dfy` | which workspaces a GitHub push plans; reading `owner/repo` from a remote URL |

Code that changes things step by step is a method or a class here (`AuditTable`, `RunRecord`, `GraphBuilder`,
`KeyRouter`, `DriftApi`, `CloudAccounts`, the loops of the collector, the shim and the webhook handler). Each is
proved against a specification function, and the theorems are about that function over all inputs and all histories.

Conventions. A digest is a parameter: it is never assumed to be injective, so tamper evidence yields two
different hash inputs with one hash. Canonical JSON and timestamps are texts. What the database, the clock, AWS or the executor
answer is a parameter. A handler is one atomic step on its rows. Secrets are assumed to be drawn fresh,
and report ids to be new where a lemma says so.

## What the code does that its documentation does not say

- `restamp_audit_chain.py` stamps with plain SHA-256, the verifier expects a keyed HMAC. The verifier accepts a
  restamped table exactly when the two digests agree on every chained pair (`RestampedUnderAnotherKey`); one row on
  which they differ is enough for a rejection (`RestampedRowIsRejected`).
- The guard of the audit log checks that an insert names the latest hash, not that it sorts last. A row stamped with an
  earlier time, or at the same time with a smaller id, is admitted and breaks the walk (`BackdatedStampBreaksWalk`,
  `EarlierStampSorts`); where hashes are distinct, that is the only way in which stamped inserts break it
  (`StampedHistoryExactly`).
- A separate value before the command (`tdt -o json profile add p --url X`) is read as a word that hides the command, whose own
  option is then hoisted (`LeadingValueHidesCommand`, `LeadingValueStealsOption`). Hoisting preserves meaning
  exactly when shim and reader agree on the target's options (`HoistingPreservesMeaningExactly`).
- A global option with an empty value takes the next token along: `tdt whoami --url= x` is read with `x` in front of the
  command (`EmptyValueMovesWord`).
- A non-empty `plan_json` that does not parse counts as "no changes": a flagged run with such a plan is applied without
  anyone's approval (`UnparsedPlanIsApplied`, `ApplyStartsExactly`).
- A live ARN whose resource part is a kind, `/` or `:`, and the id of a managed ARN-less resource, and that nothing else
  accounts for, is tracked exactly when the id does not itself hold that separator. If it does, the resource is reported
  as unmanaged unless a service's tag is on it (`SeparatedIdExactly`; `HeldSeparatorIsUnmanaged` gives a state and an ARN).
- The graph draws edges for the root module's configuration only: `_walk_config` never descends into called
  modules, so the root's resources and calls are all that `PlanEdgesExactly` mentions. The `replace` counter of the
  summary is never incremented.
- `_ref_to_addr` reads `data.aws_ami.ubuntu.id` as `data.aws_ami`, which is no address of a data source
  (`DataRefLosesName`).
- A queued scan stores a report with zero counts, which hides a workspace's counts until the next report while its
  status stays drifted (`QueuedScanHidesCounts`).
- The retention sweep ends exactly when `drift.retention_batch_rows` is at least one; below that no batch is ever
  short of it (`SweepEndsExactly`).
- A workspace at the repository root is planned by a push made only of promotions whenever that push lists files
  (`SelectedExactly`, `PromotionPlansRoot`); a push that lists no files selects what the same commits next to others
  do not (`SelectsUnionExactly`, `FilelessPushBreaksUnion`).
- `ref.replace("refs/heads/", "")` also drops the prefix inside a branch name (`BranchExactly`, `RefInBranchIsLost`).
- In a remote URL that ends in `.git/` the `.git` becomes part of the name, which then matches no push
  (`CoveredGitIsNamed`).

## Model

| member | source | states |
|---|---|---|
| AuditChain.HashedTextIsUnambiguous | services/api/scripts/restamp_audit_chain.py:46-59 | `prev + canonical` determines the previous hash and every field of a row (NULL as the empty string), although the JSON details may hold the separator |
| AuditChain.WritersAgree | services/api/alembic/versions/015_audit_hash_chain.py:37-54 | the text the application joins for a row is the one the database concatenates |
| AuditChain.SoleReadingExactly | services/api/app/services/audit_chain.py:75-87 | a row of the stated widths is the only one written as its text exactly when none of the six fields between id and stamp, the details included, holds a separator |
| AuditChain.TamperEvidence | services/api/app/services/audit_chain.py:139-165 | two logs the verifier accepts whose last hashes agree hold the same rows, or two different hash inputs with one hash are computed from them |
| AuditChain.VerifyChain | services/api/app/services/audit_chain.py:139-165 | the walk over the oldest `limit` rows, or all, stops at five bad rows and says "ok" exactly when those rows are accepted; an id is reported exactly when a row with it has a wrong link to its stored predecessor or a wrong digest for it, and the reported rows stand in the order of the log, each once |
| AuditChain.LimitedIsAccepted | services/api/app/services/audit_chain.py:150-153 | a walk that stops at a limit never rejects what the whole walk accepts |
| AuditChain.TimeThenId | services/api/app/services/audit_chain.py:150 | the log is ordered by time, and by id only between rows of one time |
| AuditChain.OnlyInsertsGetThrough | services/api/alembic/versions/037_audit_hmac_chain.py:36-60 | an attempt changes the log exactly when it is an insert of a new id that names the latest hash, and then by its own row only |
| AuditChain.InsertKeepsLinksExactly | services/api/alembic/versions/037_audit_hmac_chain.py:36-60 | where the stored hashes are distinct, an insert the guard lets through keeps the log linked exactly when it sorts last by time and id |
| AuditChain.GuardedHistory | services/api/alembic/versions/037_audit_hmac_chain.py:36-60 | over any sequence of insert, update and delete attempts whose accepted inserts sort last, the log only grows at its end and stays one linked chain |
| AuditChain.LinkedHistoryExactly | services/api/alembic/versions/037_audit_hmac_chain.py:36-60 | for every sequence of attempts on a sorted table with unique ids that leaves distinct, non-empty hashes: the log is linked at the end exactly when it was linked at the start and every accepted insert sorted last when it arrived |
| AuditChain.ForgeryStaysVisible | services/api/alembic/versions/015_audit_hash_chain.py:95-103 | once the walk rejects a linked log, no sequence of attempts whatever, back-dated inserts included, makes it accept |
| AuditChain.ForgedRowStaysVisible | services/api/alembic/versions/015_audit_hash_chain.py:95-103 | in any table, linked or not, a row whose digest is wrong keeps the walk from accepting after any sequence of attempts |
| AuditChain.GuardAdmitsStamped | services/api/app/services/audit_chain.py:114-136 | the guard never refuses a row the application stamped on the current table; the row lands at the end exactly when it sorts last |
| AuditChain.StampedLogIsAccepted | services/api/app/services/audit_chain.py:114-136 | a log that receives only stamped rows, each of which sorts last by time and id when it arrives, stays accepted by the verifier, whatever is refused in between |
| AuditChain.StampedHistoryExactly | services/api/app/services/audit_chain.py:114-136 | for every sequence of attempts that inserts stamped rows only and leaves distinct hashes: the verifier accepts the log at the end exactly when it accepted it at the start and no accepted insert was back-dated |
| AuditChain.BackdatedStampBreaksWalk | services/api/alembic/versions/037_audit_hmac_chain.py:36-60 | of any two rows with different ids stamped in the wrong order the guard admits both, and the walk rejects the log |
| AuditChain.EarlierStampSorts | services/api/app/services/audit_chain.py:139-149 | any two rows with two concrete stamps, a second apart, are such a pair |
| AuditChain.RestampIsSound | services/api/scripts/restamp_audit_chain.py:81-94 | restamping yields a linked chain the walk accepts, keeps every row's content and order, and a second pass changes nothing |
| AuditChain.GuardAcceptsRestamped | services/api/alembic/versions/037_audit_hmac_chain.py:36-60 | inserting the rows of a restamped table one by one into an empty table, under the guard, rebuilds it |
| AuditChain.RestampedUnderAnotherKey | services/api/scripts/restamp_audit_chain.py:59 | the verifier accepts a table restamped with another digest exactly when both digests agree on every chained pair |
| AuditChain.RestampedRowIsRejected | services/api/app/services/audit_chain.py:90-92 | a restamped row is rejected by any verifier whose digest differs on it |
| AuditChain.AuditTable.Try | services/api/alembic/versions/037_audit_hmac_chain.py:36-60 | INSERT is decided by the guard, UPDATE and DELETE always raise and change nothing; the new table is the specified step |
| AuditChain.AuditTable.Restamp | services/api/scripts/restamp_audit_chain.py:81-94 | the script's loop over the rows leaves the specified restamped table |
| AuditChain.AuditTable.SetHashes | services/api/scripts/restamp_audit_chain.py:86-91 | the UPDATE sets both hashes of the row with that id and leaves every other row |
| ArgvHoist.DeclaredOpts | services/cli/tdt/argv.py:25-31 | the options a command declares, primary and secondary |
| ArgvHoist.ResolveTarget | services/cli/tdt/argv.py:34-52 | the command the positional tokens lead to; it descends only into names that are subcommands and stops at the first that is not |
| ArgvHoist.ScanHead | services/cli/tdt/argv.py:72-101 | the loop with its flag and its two lists hoists and keeps what the specified scan does |
| ArgvHoist.HoistGlobalOptions | services/cli/tdt/argv.py:55-103 | the loop over the tokens computes the specified hoisting |
| ArgvHoist.NameEndsAtEquals | services/cli/tdt/argv.py:78 | the name of a token ends at its first `=`, and the rest is its attached value |
| ArgvHoist.HoistingIsStablePartition | services/cli/tdt/argv.py:60-103 | for every argv: same tokens, hoisted and kept ones each in their order, all from the first bare `--` a verbatim suffix; nothing in front of the first word moves; read from the left, every hoisted token is a global option the target does not declare, alone or with its separate value right behind it, so the hoisted tokens are whole options and complete pairs; behind the first word only a value-less last option stays |
| ArgvHoist.OptionIsHoisted | services/cli/tdt/argv.py:72-101 | for every argv: behind a word, one of the six value options moves to the front with its value, attached or separate, and a `--version` does, if the target does not declare it; the tokens around it are treated as on their own |
| ArgvHoist.OptionIsBound | services/cli/tdt/argv.py:1-13 | read in front, the output binds that option to that value under its long name, unless it is given again |
| ArgvHoist.HoistingPreservesMeaning | services/cli/tdt/argv.py:1-13 | reading the output with globals in front only gives the bindings, command words, remaining arguments and tail that reading the input with globals anywhere gives; for no empty `=`, no global given twice, no option-like separate value in front, and one owner for each option |
| ArgvHoist.HoistingPreservesMeaningExactly | services/cli/tdt/argv.py:70 | where each global name stands on at most one token from the command on, it does so exactly when shim and reader agree on which options are the command's own |
| ArgvHoist.HoistingPreservesDocumentedUsage | services/cli/tdt/argv.py:34-52 | it does so when no separate global value stands before or among the command words |
| ArgvHoist.StolenBindingShows | services/cli/tdt/argv.py:87-93 | an option only the shim takes from behind the command shows in the output's bindings |
| ArgvHoist.LeadingValueHidesCommand | services/cli/tdt/argv.py:42-51 | any global value option in front, with a separate value that names no subcommand, changes the meaning of every argument list, with or without a `--` tail, whose command has an own option of a global's name (of the same name only if it stands there once) |
| ArgvHoist.LeadingValueStealsOption | services/cli/tdt/argv.py:9-10 | a concrete argv whose command loses its own `--url` that way |
| ArgvHoist.EmptyValueMovesWord | services/cli/tdt/argv.py:86-93 | for any command, option and argument, `command --url= x` becomes `--url= x command`, which means something else |
| PlanSummary.Summarize | services/api/app/services/plan_summary.py:73-90 | the counting loop computes the specified summary |
| PlanSummary.NoChangesExactly | services/api/app/services/plan_summary.py:26-29 | a plan counts as "no changes" exactly when no entry creates, updates or deletes |
| PlanSummary.CountsExactly | services/api/app/services/plan_summary.py:31-48 | `add` counts the entries that create, `destroy` those that delete, `change` those that update and do neither, `no_op` and `read` those with nothing else |
| PlanSummary.CountsAddUp | services/api/app/services/plan_summary.py:74-89 | the five counts add up to the entries of a known kind plus the replacements |
| RunLifecycle.RunSafety | services/api/app/models/run.py:40-63 | over every history: at most six status changes, at most one apply job, APPLIED only right after AWAITING_APPROVAL and APPLYING, nothing after a terminal status |
| RunLifecycle.TrailFollows | services/api/app/models/run.py:40-63 | in every history each status follows one from which the table allows it, said status by status; right after APPLYING comes APPLIED or FAILED |
| RunLifecycle.CancelsExactly | services/api/app/routers/runs.py:719-736 | a cancel succeeds exactly for a run that is pending, running, planning, planned or awaiting approval, and makes it CANCELLED; for one that is applying or has ended it answers 409 and changes nothing |
| RunLifecycle.WorkerMovesExactly | services/api/app/services/run_worker.py:208-218 | the worker fails exactly the runs that have not ended, the launch starts exactly the pending ones |
| RunLifecycle.DecidesExactly | services/api/app/services/approval_service.py:131-156 | approval and rejection succeed exactly for a run that awaits approval; approval queues one job |
| RunLifecycle.PatchesExactly | services/api/app/routers/runs.py:459-504 | for every status a PATCH may name: from which statuses it is accepted, and with 422, 403 or 500 from which it is not; what it adds to the trail |
| RunLifecycle.PatchSetsGiven | services/api/app/routers/runs.py:453-467 | an accepted PATCH sets the fields it gives, keeps the others, and never touches the auto-approval flags |
| RunLifecycle.TerminalForever | services/api/app/models/run.py:59-62 | a terminal status never changes, whatever is sent |
| RunLifecycle.HistoryContinues | services/api/app/models/run.py:131-138 | statuses are only ever added to a run's trail, and none behind a terminal one |
| RunLifecycle.PathFacts | services/api/app/models/run.py:35-63 | on every path of the table the rank decreases, so paths are short, and APPLIED has its two predecessors |
| RunLifecycle.RejectedChangesNothing | services/api/app/routers/runs.py:478-504 | a rejected PATCH, cancel, approve or reject leaves run, trail and jobs as they were |
| RunLifecycle.ApplyStartsExactly | services/api/app/routers/runs.py:486-547 | APPLYING is entered exactly by an approval, or by a PATCH to AWAITING_APPROVAL, with no unknown policy status, of a flagged run that is running, planning, planned or waiting and whose plan, when it parses, changes nothing |
| RunLifecycle.AutoApprovesExactly | services/api/app/routers/runs.py:524-528 | a run approves itself exactly when it was created with the flag and has a plan that, if it parses, has no entry that creates, updates or deletes |
| RunLifecycle.AutoApprovalFollows | services/api/app/routers/runs.py:503-547 | an accepted PATCH to AWAITING_APPROVAL adds that status unless the run has it, and for a run that approves itself APPLYING and then APPLIED if the apply is skipped; one apply job is queued exactly if it approves itself and the apply is not skipped |
| RunLifecycle.UnparsedPlanIsApplied | services/api/app/routers/runs.py:524-547 | a history in which a plan that does not parse is applied without an approval |
| RunLifecycle.RunRecord.Transition | services/api/app/models/run.py:131-138 | assigns the status when the table allows it, else raises and changes nothing |
| RunLifecycle.RunRecord.PatchRun | services/api/app/routers/runs.py:453-547 | the handler on a session copy: the row becomes the specified state or stays as it was |
| RunLifecycle.RunRecord.PatchStatus | services/api/app/routers/runs.py:478-547 | the status part, in the order of its checks |
| RunLifecycle.RunRecord.PatchSession | services/api/app/routers/runs.py:453-547 | fields first, then the status, each check in its order |
| RunLifecycle.RunRecord.SystemAutoApprove | services/api/app/services/approval_service.py:72-129 | APPLYING, then APPLIED when the apply is skipped; 409 and no change for a run that does not await approval |
| RunLifecycle.RunRecord.ApproveRun | services/api/app/routers/approvals.py:26-54 | approve moves to APPLYING and queues the apply job, or answers 409 |
| RunLifecycle.RunRecord.RejectRun | services/api/app/services/approval_service.py:131-156 | reject cancels a run that awaits approval, or answers 409 |
| RunLifecycle.RunRecord.CancelRun | services/api/app/routers/runs.py:711-736 | cancel where the table allows it, else 409 |
| RunLifecycle.RunRecord.LaunchPlan | services/api/app/services/executor_service.py:430-434 | the plan phase starts a pending run and leaves others |
| RunLifecycle.RunRecord.MarkFailed | services/api/app/services/run_worker.py:208-218 | the worker fails a run unless it is terminal |
| PlanGraph.NodesExactly | services/api/app/routers/runs.py:816-883 | for every plan: the nodes are exactly the planned addresses and the non-data resources of the prior state at any depth; a planned address shows its last change and is never overwritten; every other node is a no-op that shows a resource of the state under the module it is in |
| PlanGraph.ChangesAreNodes | services/api/app/routers/runs.py:819-842 | every planned address is a node showing its last change |
| PlanGraph.StateAdds | services/api/app/routers/runs.py:848-878 | walking a module of any depth adds, at exactly the addresses of the non-data resources below it, no-op nodes that show them, and changes no other node |
| PlanGraph.ProviderIsShortened | services/api/app/routers/runs.py:836-838 | the registry's prefix is taken off a provider's name |
| PlanGraph.EdgesExactly | services/api/app/routers/runs.py:941-950 | for any requests: every edge joins two different nodes, no ordered pair repeats, and a pair is joined exactly when some request names it, with the kind of the first |
| PlanGraph.PlanEdgesExactly | services/api/app/routers/runs.py:889-950 | for every plan: two different nodes are joined exactly when a non-data root resource at the target names the source in `depends_on` or cites it in an expression, or a root module call cites it and the target is the first node of the called module |
| PlanGraph.CitationIsDrawn | services/api/app/routers/runs.py:902-917 | a root resource that mentions another resource, or an attribute of it, in an expression is joined to it if both are nodes |
| PlanGraph.InputIsDrawn | services/api/app/routers/runs.py:919-937 | what a root module call mentions is joined to the first node of the module with the call's address, or `module.` and its name |
| PlanGraph.PlanEdgeKinds | services/api/app/routers/runs.py:898-936 | the kind of an edge says which of the three holds; it is a module input only when no resource asks for it |
| PlanGraph.RefExactly | services/api/app/routers/runs.py:952-960 | for every reference, part by part: variables, locals and meta-arguments name nothing, module outputs stay whole, two parts stay, of three or more the first two are kept; a module prefix goes in front of all but module references |
| PlanGraph.RefKeepsTwoParts | services/api/app/routers/runs.py:952-960 | a reference of three or more parts, in the root module and to no module, variable, local or meta-argument, names its first two parts |
| PlanGraph.RefDropsAttribute | services/api/app/routers/runs.py:952-960 | a reference to an attribute of a managed resource names the resource |
| PlanGraph.DataRefLosesName | services/api/app/routers/runs.py:952-960 | a reference to a data source, with or without an attribute, loses the name of the source |
| PlanGraph.CountsOfAddressed | services/api/app/routers/runs.py:819-830 | the counted entries are those with an address, each as often as the plan has it |
| PlanGraph.CountsOfAutoApproval | services/api/app/routers/runs.py:819-830 | when all entries have an address, the graph's counts are those of the auto-approval |
| PlanGraph.SummaryAddsUp | services/api/app/routers/runs.py:825-830 | add + change + destroy + no_op + read equals the known-kind entries plus the replacements |
| PlanGraph.GraphBuilder.Build | services/api/app/routers/runs.py:802-966 | the three passes leave the specified nodes, edges and counters |
| PlanGraph.GraphBuilder.WalkState | services/api/app/routers/runs.py:848-878 | the recursive walk leaves the specified table of nodes |
| PlanGraph.GraphBuilder.AddChanges | services/api/app/routers/runs.py:819-842 | the first pass: one node per address, the last change of it, and the counters |
| PlanGraph.GraphBuilder.AddEdge | services/api/app/routers/runs.py:941-950 | an edge is appended only between two different nodes not yet joined |
| PlanGraph.GraphBuilder.AddModuleInputs | services/api/app/routers/runs.py:925-937 | the references of a module call go to the first node of the module, or nowhere |
| PlanGraph.GraphBuilder.AddDependencies | services/api/app/routers/runs.py:898-901 | every `depends_on` entry is asked for, prefixed |
| PlanGraph.GraphBuilder.AddExpressions | services/api/app/routers/runs.py:902-917 | the edges after the loop are those after drawing every citation of every expression, in order |
| PlanGraph.GraphBuilder.WalkConfig | services/api/app/routers/runs.py:889-937 | the walk asks for the specified edges, in order |
| LikeSearch.EscapeIsOnePass | services/api/app/routers/runs.py:173-179 | the three sequential replaces equal one character-wise escape |
| LikeSearch.PatternParses | services/api/app/routers/runs.py:290-293 | the pattern of any query is well formed and is its characters between two wildcards |
| LikeSearch.SearchFindsExactly | services/api/app/routers/runs.py:290-293 | for every query and text, the pattern matches exactly when the query occurs in the text, compared by whatever ILIKE folds |
| LikeSearch.EscapingMatters | services/api/app/routers/runs.py:173-179 | unescaped, the query `%` would find every text; escaped it finds those that hold one |
| ApiKeys.HistoryKeepsInv | services/api/app/routers/api_keys.py:254-302 | every call keeps the links forward, grants equal along them, hashes distinct, and the unsuperseded key at the lineage's first expiry |
| ApiKeys.LineagesInEveryHistory | services/api/app/routers/api_keys.py:278-302 | in every history from an empty table each key's lineage has exactly one unsuperseded key, of the same owner, unit, capability and workspaces and of the original expiry |
| ApiKeys.LineageHasOneTip | services/api/app/routers/api_keys.py:267-276 | successor links are acyclic and end in one unsuperseded key |
| ApiKeys.LineagesAreDisjointChains | services/api/app/routers/api_keys.py:280-302 | two keys share that end exactly when one leads to the other |
| ApiKeys.KeysOnlyAge | services/api/app/routers/api_keys.py:294-302 | an expiry never moves later, a revocation or a successor never changes |
| ApiKeys.RotationDeadline | services/api/app/routers/api_keys.py:244-250 | a rotated key expires by rotation time plus overlap, or by its earlier expiry, whatever follows |
| ApiKeys.OverlapServesBoth | services/api/app/routers/api_keys.py:241-245 | during the overlap both secrets authenticate |
| ApiKeys.DeadForever | services/api/app/services/api_key_service.py:67-78 | a secret that is revoked, expired or replaced never authenticates again, in any later history |
| ApiKeys.HowSecretsDie | services/api/app/routers/api_keys.py:163-193 | expiry, revocation, regeneration and the end of an overlap each make a secret dead in that sense |
| ApiKeys.AnswersExactly | services/api/app/routers/api_keys.py:251-275 | every call is answered 400, 404, 409 or 422 exactly for a missing unit or a bad grant, a key of another unit, a dead or superseded key, hours outside 0 to 168; a rejected call changes nothing |
| ApiKeys.ChangesExactly | services/api/app/routers/api_keys.py:76-149 | a created key carries the requested capability, workspaces and expiry and belongs to the caller's unit; rotation, regeneration and revocation change nothing of the table but what they are for |
| ApiKeys.OtherUnitsLeaveKey | services/api/app/routers/api_keys.py:163-193 | over any calls of other units a key stays exactly as it is |
| ApiKeys.KeyRouter.CreateKey | services/api/app/routers/api_keys.py:76-149 | a new row for a valid request, else 400 and no change |
| ApiKeys.KeyRouter.RotateKey | services/api/app/routers/api_keys.py:222-302 | the old key retires and a successor is added, or 400, 404, 409 or 422 and no change |
| ApiKeys.KeyRouter.RegenerateKey | services/api/app/routers/api_keys.py:157-193 | the hash of an active key is replaced, or 404 or 409 and no change |
| ApiKeys.KeyRouter.RevokeKey | services/api/app/routers/api_keys.py:336-359 | the first revocation stays; a second changes nothing |
| Addresses.AddressNamesOne | services/drift-detector/detector.py:138-141 | with no dot in types, no bracket in names and no quote in numbers, two instances of a module never share an address |
| Addresses.AddressIsSpelled | services/api/app/routers/runs.py:852-861 | an address is the module, the type, the name and the key in quotes or the number, each if there is one |
| TfState.ManagedFromTfstate | services/drift-detector/detector.py:84-156 | the loops collect one codified asset per identified cloud instance, the ids to match by, and the ids of ARN-less resources |
| TfState.ProviderNamed | services/drift-detector/detector.py:117-120 | a provider of the registry is read by its own name, whatever stands in front |
| TfState.CodifiedExactly | services/drift-detector/detector.py:110-129 | codified are exactly the managed instances of no logical provider whose ARN, or else whose id, is there and is not `none` |
| TfState.ReadStateTags | services/drift-detector/detector.py:159-185 | the table from ARN to address, type and tags; a later instance of an ARN replaces an earlier one |
| TfState.StateTagsExactly | services/drift-detector/detector.py:162-167 | it has exactly the ARNs of managed, taggable instances |
| TfState.LastInstanceCounts | services/drift-detector/detector.py:173-184 | of the instances of an ARN the last counts: the table has its address and type, and the tags Terraform applied, `tags_all` where it is there, even null, else `tags` |
| TfState.Ec2TagOwned | services/drift-detector/detector.py:188-205 | exactly the (resource, key) pairs set by managed `aws_ec2_tag` resources |
| TfState.UnionOwners | services/drift-detector/detector.py:559-567 | the scan-wide union holds exactly the pairs of all fetched states |
| TfState.UnionIsOrderFree | services/drift-detector/detector.py:559-567 | whatever the order of the workspaces, the union is the same |
| TagDrift.TagDiffExactly | services/drift-detector/detector.py:208-225 | the diff is empty exactly when state and live tags agree on every key that is neither `aws:`-prefixed nor ignored |
| TagDrift.SummaryShows | services/drift-detector/detector.py:222-228 | the summary shows every differing key that counts once and nothing else: `+` only live, `~` with another value, `-` only in the state, in that order and each alphabetically |
| TagDrift.ValuesStayOut | services/drift-detector/detector.py:211-214 | the summary depends on keys and on which values differ, never on a value |
| DriftCollector.ArnFields | services/drift-detector/detector.py:70-75 | the resource part is what follows the fifth colon, colons included, of a text that starts with `arn:`; the service is the third field |
| DriftCollector.CandidatesExactly | services/drift-detector/detector.py:51-78 | an id is a candidate of an ARN exactly when it is the resource part or what follows its last `/` or `:` |
| DriftCollector.ArnlessIdIsTracked | services/drift-detector/detector.py:130-136 | a live ARN that names the id of a managed ARN-less resource is tracked |
| DriftCollector.TrackedExactly | services/drift-detector/detector.py:411 | a live resource is tracked exactly when some codified instance has its ARN, has its ARN for an id, or has no ARN and an id the ARN names |
| DriftCollector.SeparatedIdExactly | services/drift-detector/detector.py:51-78 | a live ARN whose resource part is a kind, a separator and the id of an ARN-less codified resource, with no other resource accounting for it, is tracked exactly when the id does not hold that separator, and unmanaged exactly when it does and no service tag is on it |
| DriftCollector.HeldSeparatorIsUnmanaged | services/drift-detector/detector.py:406-447 | a state with one codified resource, and the ARN under which it is reported as unmanaged |
| DriftCollector.FirstOwnerWins | services/drift-detector/detector.py:282-293 | the service owner is the first table entry some tag key matches, exactly or by prefix |
| DriftCollector.PatternsExactly | services/drift-detector/detector.py:286-292 | a pattern with a star at its end hits the tag keys it starts, any other the key it is |
| DriftCollector.ClusterTagIsEks | services/drift-detector/detector.py:261-266 | an uncodified resource with the tag of any Kubernetes cluster is managed by EKS |
| DriftCollector.TallyLive | services/drift-detector/detector.py:397-447 | the classification loop computes the specified tally |
| DriftCollector.CollectIgnored | services/drift-detector/detector.py:415-418 | exactly the keys set by `aws_ec2_tag` on an id of the ARN |
| DriftCollector.IgnoredExactly | services/drift-detector/detector.py:415-418 | a key is ignored on an ARN exactly when an `aws_ec2_tag` instance of some fetched state sets it on an id the ARN names |
| DriftCollector.DriftsExactly | services/drift-detector/detector.py:408-420 | for every state and live resource: by the tags applied to the last instance of its ARN, it drifts exactly when some key differs that is neither reserved for AWS nor set by an `aws_ec2_tag` of any workspace |
| DriftCollector.UntaggedIsNoDrift | services/drift-detector/detector.py:413-420 | an ARN the state has no tags for cannot drift |
| DriftCollector.ForeignTagIsNoDrift | services/drift-detector/detector.py:191-194 | on a resource on which an `aws_ec2_tag` in any fetched state sets a key, the drift is the same whatever the live value of that key, present or not |
| DriftCollector.LiveIsPartitioned | services/drift-detector/detector.py:397-447 | the two counters number the live resources that nothing accounts for, with and without a service's tag; with those accounted for they make up all that have an ARN |
| DriftCollector.LiveIsClassified | services/drift-detector/detector.py:411-436 | tracked exactly when codified instances account for it, else service-managed exactly when a pattern of the table hits a tag, by the first service of the table that has one, else unmanaged |
| DriftCollector.ExtrasMatchUntracked | services/drift-detector/detector.py:421-447 | the extra assets match the untracked ARNs one to one, in order, and the two counters count them |
| DriftCollector.ModifiedMatchDrifting | services/drift-detector/detector.py:413-425 | the modified entries are those resources in order, each with the address and type of the state and what differs; the table by ARN says the same |
| DriftCollector.DriftingExactly | services/drift-detector/detector.py:408-425 | drift is recorded for exactly the listed resources that are accounted for and whose tags differ |
| DriftCollector.ForeignersAreListed | services/drift-detector/detector.py:431-437 | the untracked entries are, in order, the listed resources that nothing accounts for and no service claims |
| DriftCollector.ExtraTells | services/drift-detector/detector.py:438-447 | the asset added for an unaccounted ARN has that ARN, its service, and the status and owner that its tags give it |
| DriftCollector.GhostCandidates | services/drift-detector/detector.py:231-251 | exactly the tagged, in-region ARNs of the state that the scan did not list, in the table's order |
| DriftCollector.CandidateExactly | services/drift-detector/detector.py:242-251 | an ARN of the state is looked for again exactly when the tags of its last instance have a key not reserved for AWS, its fourth field is the scanned region, and the scan did not list it |
| DriftCollector.CandidateHasFields | services/drift-detector/detector.py:244-245 | a candidate has five fields without colons in front of its resource part |
| DriftCollector.GhostsAreAbsent | services/drift-detector/detector.py:449-454 | a reported ghost is such a candidate |
| DriftCollector.ReportLists | services/drift-detector/detector.py:449-496 | the resources of a report are the modified ones, the ghosts by ARN with address and type of the state, and the untracked ones; the counters are their numbers, and it has drift exactly when one of the first two kinds is there |
| DriftCollector.AssetsTell | services/drift-detector/detector.py:462-469 | every codified asset keeps id, address and type, and is shown as a ghost, else as drifted with what differs on the live resource, else as codified |
| DriftCollector.MarkAssets | services/drift-detector/detector.py:462-469 | ghosts are marked first, then drifted assets; all others stay |
| DriftCollector.CountsMatchAssets | services/drift-detector/detector.py:462-496 | with distinct asset ids, distinct live ARNs and no ARNs on logical providers, drifted, ghost and unmanaged assets number `modified_count`, `deleted_count` and `untracked_count` |
| DriftCollector.ReportIdsAreDistinct | services/drift-detector/detector.py:99-101 | with distinct codified ids and distinct live ARNs, no two assets of one report share an id |
| DriftCollector.AnalyzeWorkspace | services/drift-detector/detector.py:366-496 | the whole analysis computes the specified report |
| GhostProtocol.StillLive | services/drift-detector/detector.py:337-360 | the paged lookup returns the union of its pages, or nothing once one fails |
| GhostProtocol.PagesCover | services/drift-detector/detector.py:354-355 | no lookup asks about more than 100 ARNs, and the pages ask about every candidate, in order |
| GhostProtocol.PagesEqualOneLookup | services/drift-detector/detector.py:354-357 | 100 at a time or all at once, the same ARNs are found |
| GhostProtocol.ConfirmGhosts | services/drift-detector/detector.py:583-594 | a candidate is a ghost exactly when every page was answered, no answer names it, and the fresh state could be read and still has it |
| GhostProtocol.EverythingWasRead | services/drift-detector/detector.py:575-594 | what a run holds as first state, listing and last state was read in this order by three events of the run: the state the world held, what was listed, the state the world held once all pages were answered |
| GhostProtocol.GhostsAreSound | services/drift-detector/detector.py:231-251 | in every interleaving of reads and applies, a ghost was in what the world's state held at the first read, with a counting tag and the scanned region, absent from the listing of a later event, not alive when looked up, and in what the state held at the last read |
| GhostProtocol.GoneMeansNotAlive | services/drift-detector/detector.py:340-343 | an ARN counts as gone only through an answered lookup of its own page, at a moment when it was not alive |
| GhostProtocol.AliveOrRemovedIsNoGhost | services/drift-detector/detector.py:584-587 | a resource alive whenever its own page was looked up is no ghost, whatever happens later; nor is one whose removal the world had written to the state by the last read; a failed read leaves none |
| GhostProtocol.GhostsAreComplete | services/drift-detector/detector.py:583-594 | a run that read everything misses none: a candidate still in the state read last is a ghost exactly when no answer names it |
| GhostProtocol.GoodScanEnds | services/drift-detector/detector.py:583-594 | a scan in which every read succeeds comes to its end with what it read |
| GhostProtocol.FailureEndsRun | services/drift-detector/detector.py:588-593 | a failed read ends a run without a ghost, whatever follows |
| GhostProtocol.ReportHasTheRunsGhosts | services/drift-detector/detector.py:449-460 | the report filed with a run's answers has exactly the run's ghosts and counts them all |
| GhostProtocol.ReportedGhostsAreSound | services/drift-detector/detector.py:583-594 | every ghost of the filed report was a candidate of the first state and the listing, was not alive at a lookup of its page, and was in the state read last; the three are what the run read, in this order |
| GhostProtocol.ReportedGhostsExactly | services/drift-detector/detector.py:449-460 | the ghosts of a filed report are exactly the candidates that no answer names and the fresh state has; each is listed with its address, they are counted, and one of them makes the report drift |
| GhostProtocol.FailedReadYieldsNoGhost | services/drift-detector/detector.py:588-593 | a report for which the listing, some page or the last state could not be read has no ghost |
| GhostProtocol.ScanOnce | services/drift-detector/detector.py:553-606 | two passes: owners of all states, then one report per workspace with an id, in order |
| GhostProtocol.WithIdExactly | services/drift-detector/detector.py:562 | every workspace with an id is scanned as often as it is listed, and no other |
| GhostProtocol.ReportWorkspace | services/drift-detector/detector.py:570-604 | an exception gives the fixed error report, an unread state an unchecked one |
| GhostProtocol.CachedListing | services/drift-detector/detector.py:575-578 | every workspace is judged by the listing of the first with its account and region, asked for once |
| GhostProtocol.FirstOfScopeCounts | services/drift-detector/detector.py:575-581 | the listing for a workspace is that of the first one with its region and its account, which is that of the credentials or else its own |
| GhostProtocol.OneReportEach | services/drift-detector/detector.py:569-606 | the reports stand in the order of the workspaces, each computed from that workspace's own state |
| GhostProtocol.UncheckedExactly | services/drift-detector/detector.py:596-606 | a report is checked exactly when state and listing were read and nothing was raised; otherwise, raised or unread, it shows no drift |
| DriftReports.PagesAreRisingEdges | services/api/app/routers/internal.py:76-79 | over every sequence of calls a page goes out exactly at an accepted, checked, drifted report whose last status-setting predecessor did not say drift |
| DriftReports.StatusRemembers | services/api/app/routers/internal.py:76-79 | a workspace is drifted exactly when the last accepted call that set its status said so, or none did and it was before |
| DriftReports.StatusExactly | services/api/app/routers/internal.py:77-79 | over every sequence of calls a status, drifted or clean, is what the last call that set it said, and before any it is what it was |
| DriftReports.CleanBetweenPages | services/api/app/routers/internal.py:111-117 | between two pages for a workspace some report set it clean |
| DriftReports.UncheckedIsQuiet | services/api/app/routers/internal.py:77-79 | an unchecked report is stored and does nothing else |
| DriftReports.IdsStayDistinct | services/api/app/models/drift_report.py:11 | report ids stay distinct over every sequence of calls |
| DriftReports.AnswersExactly | services/api/app/routers/internal.py:58-62 | which calls are answered 400, 404 or fail, route by route; those change nothing |
| DriftReports.StoresExactly | services/api/app/routers/internal.py:63-80 | what each route stores and does: the report with its finding and counts, the status, the page, the mail; nothing of other workspaces |
| DriftReports.DriftApi.SubmitInternal | services/api/app/routers/internal.py:51-117 | 400, 404, or the specified step |
| DriftReports.DriftApi.SubmitReport | services/api/app/routers/drift.py:173-213 | the administrators' route sets the status and mails on every drifted report |
| DriftReports.DriftApi.TriggerScan | services/api/app/routers/drift.py:149-170 | stores a placeholder report and touches no status |
| DriftReports.LatestReports | services/api/app/routers/drift.py:28-72 | join on the greatest time, order by id descending, keep the first: for every requested workspace the report greatest by time and id over all history, and no entry where there is none |
| DriftReports.LatestExactly | services/api/app/routers/drift.py:31-44 | that report is the one of the greatest time, and of these the greatest id; it is missing exactly when the workspace has none |
| DriftReports.DriftSummary | services/api/app/routers/drift.py:95-116 | the rows are the latest reports' counts, the totals their sums, and drifted counts the drifted workspaces |
| DriftReports.TotalsAreSums | services/api/app/routers/drift.py:95-116 | each total is the sum of its number over the latest reports |
| DriftReports.DriftedExactly | services/api/app/routers/drift.py:95-116 | the drifted workspaces are counted by their status |
| DriftReports.AddedLatest | services/api/app/routers/drift.py:63-72 | a report becomes the latest exactly when it is newer by time and id |
| DriftReports.QueuedScanHidesCounts | services/api/app/routers/drift.py:160-167 | a queued scan's placeholder zeroes the workspace's counts exactly when it is the newest, and leaves the status |
| DriftReports.DriftApi.PruneDriftReports | services/api/app/services/run_worker.py:472-501 | deletes the database's choice of at most `batch` rows beyond the newest `keep` |
| DriftReports.DriftApi.RetentionSweep | services/api/app/services/run_worker.py:520-532 | followed for any number of batches, however they fall, the sweep spares the newest `keep` reports of every workspace and has left exactly these when it ends; it ends within one batch more than there are reports for a setting of at least one, and never below |
| DriftReports.SweepEndsExactly | services/api/app/services/run_worker.py:520-532 | for every table, setting and choice of rows: some batch is the last exactly when the setting is at least one |
| DriftReports.KeptIsStable | services/api/app/services/run_worker.py:461-467 | deleting rows beyond the newest `keep` never moves another row across the line |
| DriftReports.KeptAreTheNewest | services/api/app/services/run_worker.py:461-467 | retention keeps of every workspace as many reports as it may, or all, each newer than every one it does not keep |
| DriftReports.PruningIsInvisible | services/api/app/services/run_worker.py:453-460 | with any prunes among any reports, every workspace has the latest report it would have without them |
| ScanToPage.FailedScanIsQuiet | services/api/app/schemas/drift.py:33-37 | a scan that could not read the state or the listing, or raised, moves no status and pages nobody |
| ScanToPage.GoodScanDecides | services/drift-detector/detector.py:482-487 | otherwise the stored report has the counts of the scan and makes the workspace drifted when tags or ghosts were found, else clean |
| AccountColors.PickNext | services/api/app/services/account_colors.py:103-115 | the counting loop and `min` choose the specified colour |
| AccountColors.PickExactly | services/api/app/services/account_colors.py:103-115 | the least-used colour, and of several the first in the palette |
| AccountColors.UnusedIfAny | services/api/app/services/account_colors.py:104-105 | a colour in use is chosen only when all are in use |
| AccountColors.PicksGoRound | services/api/app/services/account_colors.py:103-115 | n automatic picks from an empty unit go round the palette |
| AccountColors.RoundAt | services/api/alembic/versions/041_account_color.py:63-69 | the k-th colour of that round is the palette's at k modulo its length |
| AccountColors.EightColorsAreDistinct | services/api/alembic/versions/041_account_color.py:7-9 | the first eight automatic picks are the eight tokens, all different |
| AccountColors.NextInTurn | services/api/app/services/account_colors.py:107-109 | whatever order the same colours were claimed in, the next in turn is picked |
| AccountColors.GapNeverGrows | services/api/app/services/account_colors.py:107-109 | from any start the gap between most and least used never exceeds the larger of what it was and one |
| AccountColors.EvensOut | services/api/app/services/account_colors.py:107-109 | from any start, enough automatic picks bring the gap to at most one, and it stays there |
| AccountColors.PicksAreCounted | services/api/app/services/account_colors.py:111-114 | the counts after a run of picks are the counts of the colours it claimed |
| AccountColors.UsedColorsForBu | services/api/app/services/account_colors.py:118-141 | every colour counted as often as accounts of all provider tables claimed it in the unit |
| AccountColors.CloudAccounts.Create | services/api/app/services/account_colors.py:144-154 | an explicit colour wins; otherwise the pick over the unit is stored with the row |
| AccountColors.CloudAccounts.AssignForBu | services/api/app/services/account_colors.py:144-154 | the explicit colour, else the pick over the claimed ones |
| AccountColors.AssignedExactly | services/api/app/services/account_colors.py:144-154 | a chosen colour is kept; else the least claimed in the unit is picked, and of several the first in the palette |
| AccountColors.ColorIsClaimed | services/api/app/services/account_colors.py:118-141 | a colour, chosen or picked, counts once, for its unit and for no other |
| AccountColors.CloudAccounts.Backfill | services/api/alembic/versions/041_account_color.py:61-69 | the loop with its counters leaves the specified rows |
| AccountColors.ColoredExactly | services/api/alembic/versions/041_account_color.py:63-69 | each row gets the palette colour of its turn within its unit, and keeps all else |
| AccountColors.TurnsGoByTable | services/api/alembic/versions/041_account_color.py:59 | within a unit the turns go by provider table, then by name, then by id |
| AccountColors.BackfillIsReproducible | services/api/alembic/versions/041_account_color.py:45-53 | the same accounts get the same colours, in whatever sequence their rows were created |
| AccountColors.BackfillEqualsPicks | services/api/alembic/versions/041_account_color.py:61-69 | the colours a unit gets are those of as many automatic picks from nothing |
| AccountColors.BackfillEqualsCreations | services/api/alembic/versions/041_account_color.py:45-53 | every account, of any unit or of none, gets the colour it would have had if the API had created the accounts one by one in the migration's order |
| AccountColors.CreationContinuesTheRound | services/api/alembic/versions/041_account_color.py:7-12 | after the migration, the next account created in a unit gets the next colour in turn |
| Webhooks.ChangedFiles | services/api/app/routers/webhooks.py:204-214 | exactly the non-empty paths listed by some commit, promotions passed over on request |
| Webhooks.SelectWorkspaces | services/api/app/routers/webhooks.py:330-365 | the loop with its early exits triggers and skips as specified, in order and with the right reasons |
| Webhooks.Decide | services/api/app/routers/webhooks.py:335-357 | the chain of early exits takes the decision specified over the commits |
| Webhooks.DirectoryExactly | services/api/app/routers/webhooks.py:224 | slashes around a directory do not count, and a missing one is the root |
| Webhooks.UnderExactly | services/api/app/routers/webhooks.py:227 | a path is in a directory exactly when it is it or starts with its whole name and a slash: `live/network` is not in `live/net` |
| Webhooks.HandlePush | services/api/app/routers/webhooks.py:302-365 | the workspaces planned for a push event |
| Webhooks.PlansExactly | services/api/app/routers/webhooks.py:323-361 | a candidate is planned once for each of its rows exactly when the name read from its URL is the repository's and the commits select it |
| Webhooks.SelectedExactly | services/api/app/routers/webhooks.py:339-357 | a plan is created exactly when the workspace is enabled, the branch is empty or its own, and: for a push that lists files, it is at the root or a commit that is no promotion touches its directory; else, the push is empty or holds a commit that is no promotion |
| Webhooks.SkippedExactly | services/api/app/routers/webhooks.py:339-357 | for each reason: exactly which workspaces are reported as skipped for it |
| Webhooks.SkippedAre | services/api/app/routers/webhooks.py:339-357 | the reported names are those of the rows so decided |
| Webhooks.PromotionPlansRoot | services/api/app/routers/webhooks.py:224-226 | a push of one promotion that plans a workspace at the root |
| Webhooks.SelectionDistributes | services/api/app/routers/webhooks.py:330-361 | a push of A then B, each listing files, selects exactly what A and B select |
| Webhooks.SelectsUnionExactly | services/api/app/routers/webhooks.py:348-357 | for all A and B: the exact condition under which it does |
| Webhooks.FilelessPushBreaksUnion | services/api/app/routers/webhooks.py:355-357 | a concrete workspace and pushes where it does not |
| Webhooks.BranchExactly | services/api/app/routers/webhooks.py:304 | a branch name is read back from its ref exactly when it does not hold the prefix itself |
| Webhooks.OtherRefStays | services/api/app/routers/webhooks.py:304 | a ref that is no branch is taken as it is |
| Webhooks.RefInBranchIsLost | services/api/app/routers/webhooks.py:304 | a ref from which another branch is read |
| Webhooks.UrlNamesRepo | services/api/app/routers/webhooks.py:230-252 | any URL with a scheme, bare or with slashes, with `.git` or both at the end, yields its last two segments in lower case |
| Webhooks.CoveredGitIsNamed | services/api/app/routers/webhooks.py:241-243 | slashes behind `.git` make it part of the name |
| Webhooks.ScpNamesRepo | services/api/app/routers/webhooks.py:244-248 | so does the scp-like form |
| Webhooks.PushPlansItsOwn | services/api/app/routers/webhooks.py:309-323 | a push plans the workspaces whose URL names its repository, in whatever case, and of no other repository |
| Webhooks.PaddingIsIgnored | services/api/app/routers/webhooks.py:240 | white space around a URL or a repository's name changes nothing |

## Left out

- HTTP, Docker, boto3, Slack, Telegram, SMTP, OIDC, GitHub calls and the liveness cron: plumbing around the decisions modelled here.
- SHA-256, HMAC, Fernet, bcrypt and JWT: a digest is a parameter and a token hash an opaque text.
- JSON serialisation and calendar arithmetic: canonical details and stamps are texts of the stated shape, and times are numbers or ordered texts.
- Migration 015's own backfill and its unkeyed guard in SQL, which migration 037 replaced.
- Two handlers interleaved on one row: each handler is one step, so a lost update between concurrent requests is not visible.
- RBAC, business-unit resolution and API-key capability checks: finite case splits that would only add easy members.
- The UI, the schemas and the provider CRUD routers: field copying.
- "The applied plan is the reviewed plan": false of the code, since PATCH may replace the stored plan in any status.
- Idempotence of hoisting: false of the code, since a hoisted value counts as the first word of a second pass.
- ArgvHoist: how Click itself parses is represented by the two readers; prompts, envvars and help are not modelled.
- RunLifecycle: creation of a run, heartbeats, steps, notifications and the reaper, which fails a run by the same transition as the worker.
- PlanSummary: entries of `resource_changes` that are no objects, on which the source raises.
- PlanGraph: node fields other than address, module, change and kind of resource; `resource_changes` of the wrong JSON type.
- ApiKeys: names, prefixes and last-used times; ids are positions in order of creation, and a fresh token is assumed never to repeat an earlier one.
- TfState: attributes are texts or tag objects; numeric instance keys are kept as their digits.
- DriftCollector: live items given as bare strings, and the report's summary text.
- GhostProtocol: the lookup is assumed to know what is alive of the page it is asked about; no assumption is made on the full listing.
- DriftReports: the inventory refresh, channel failures and the resources of a report; the rows of a query are any answer its ORDER BY allows.
- DriftReports.DriftApi.RetentionSweep: with a batch below one the source loop never ends, so the method follows it for a given number of batches and says whether it has ended.
- AccountColors: validation of an explicit colour and the hash fallback for rows without one.
- Webhooks: signatures, the Forgejo route, the SQL pre-filter (its rows are a parameter), case folding beyond ASCII and whitespace beyond blank, tab and line ends.
