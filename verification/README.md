# TrueNorth range tooling: a verified model

This project models nine parts of the TrueNorth training range whose behaviour is easy to get
wrong and hard to see from any one function, and proves what each of them promises.

| part | modules | in short |
|---|---|---|
| sign-in flow builder | KeycloakShape, KeycloakServer, KeycloakFlow, KeycloakEnsure, KeycloakRoles | a tree of executions compiled into Admin API calls, read back as a levelled list, compared, bound, cleaned up; role and service-account convergence |
| test sharding | CiShard, CiShardTight, Sorting | longest-first list scheduling, its approximation bounds, and files that reach them |
| ARC2 batch driver | Arc2Trace, Arc2Driver | a state machine per course against an API that answers anything, with a state file, crashes and resumption |
| noise agent | NoiseAgent | overlapping plans executed at most once with a bounded memory |
| audit exports | ExportChain | a check whose silence means one linear chain |
| change guard | TazGlob, TazCheck, TazRatchet | glob translation, the exact meaning of a pass, and when baselines can rise |
| VLAN pool | VlanPool | a search that jumps and still finds the first block |
| AI orchestrator | OrchestratorRouting, OrchestratorLimits, OrchestratorCache | routing that agrees with itself, two nested limits, a bounded cache |
| web corpus | Corpus | distinct addresses, and a checksum file that reads back |

Basics and Text hold what they share. Where the original updates fields (`Admin`,
`Driver`, `Runner`, the cache, role holders) the model is a class with methods; where it loops,
a method with invariants proved against a recursive function; concurrent requests are a state
machine over their steps. Answers of servers, clocks and files are chosen freely by the
environment unless a member says otherwise. In the flow builder, the roles and the noise agent, a
server called `reliable` answers every request it allows; everything about safety is proved
without that. Sleeps called `exact` end on time while nothing else takes any; what is stated
without them holds of any clock.

Ten statements one would like to make are false of the code. Each has here the condition under
which it holds, and an input for which it does not:

- Comparing a built flow without its suffix also cuts provider names ending in it, so a build
  that is correct can be rejected (`ReadBackIsExact`, `SuffixedProviderIsRejected`); and a
  subflow without executions cannot be told from a bare provider (`ShapeDeterminesForest`,
  `EmptySubFlowLooksLikeProvider`).
- A group role does not converge when a holder, wanted or not, shares its name with another group
  that comes first: an unwanted one keeps the role, and a wanted one keeps it in place of the
  group the name leads to (`GroupRoleConverges`, `ShadowedHolderKeepsTheRole`,
  `WantedNamesakeIsPassedOver`).
- A course code with white space around it is not recognised in the list of runs, so a lost slug
  leads to a second run (`SecondRunIff`, `PaddedCodeRunsTwice`). This is why one run per course is
  stated for codes without it.
- The export check also passes rows whose first one points back into the chain
  (`PassesOnlyWhenLinked`, `LinkedPasses`, `LoopingTailPasses`).
- A baseline can rise through a commit where it is NaN, and through an oracle glob that covers it
  when the commit the card names holds it higher; and only so (`RisesThroughNaNOnly`,
  `MergeKeepsLowIff`, `NaNDefeatsTheRatchet`, `OracleCanRaiseABaseline`).
- A path with a line break does not survive the checksum file (`ReadsBack`, `BrokenPathIsLost`).
- A process can send one retry more than `--max-attempts` allows when that is zero or less, a
  value nothing refuses, and the course was saved waiting; in no other case
  (`WithinTheMaximumIff`, `RetryDespiteTheMaximum`).
- A second run of the flow builder records a change when the server refused a DELETE with 400 or
  409, as "flow removed" is recorded all the same; otherwise it is silent (`EnsureFlowTwice`,
  `RunAfterRefusal`).
- Preferred nodes do not come first, as the documentation of `_find_node_for_model` says they do:
  the least busy node is answered, and preference settles ties (`PreferredIsAnsweredIff`,
  `BusyPreferredIsPassedOver`).
- A noise action can run twice when the clock falls back by more than 3480 s, and only then
  (`Runner.RunFor`, `StepBackRunsTwice`).

`^arc2-[a-z0-9-]{1,60}$` also accepts a slug ending in a newline; the model keeps that.

## Model

| member | source | states |
|---|---|---|
| `KeycloakShape.ShapeDeterminesForest` | scripts/keycloak_mfa.py:271-280 | two specifications give the same list of (level, name, requirement, config) rows if and only if they are the same forest once every subflow without executions is read as a bare provider |
| `KeycloakShape.ShapeIsExact` | scripts/keycloak_mfa.py:271-280 | with flow names apart from provider names, equal lists if and only if equal specifications |
| `KeycloakShape.EmptySubFlowLooksLikeProvider` | scripts/keycloak_mfa.py:271-280 | without that, two different specifications compare equal (an input) |
| `KeycloakShape.ReadBackIsExact` | scripts/keycloak_mfa.py:328-333 | a correct build reads back as the specification if and only if the build suffix is empty or ends no provider's own name: the comparison cuts the suffix off provider names too |
| `KeycloakShape.SuffixedProviderIsRejected` | scripts/keycloak_mfa.py:328-333 | a provider named like the suffix makes a correct build be rejected (an input) |
| `KeycloakShape.ComparisonMeans` | scripts/keycloak_mfa.py:328-333 | for any server tree: the comparison succeeds if and only if the tree with its names cut is the specification, empty subflows aside |
| `KeycloakServer.RowsShowTheTree` | scripts/keycloak_mfa.py:255-268 | the flattened execution list of a flow, with its levels, is the shape of the tree the executions stand for |
| `KeycloakServer.TreeFrame` | scripts/keycloak_mfa.py:283-310 | a flow's tree depends only on the flows created under the same top-level flow |
| `KeycloakFlow.LastExecutionIsTheNewest` | scripts/keycloak_mfa.py:313-320 | however often the provider or name occurs below the flow, the search from the end finds the execution added last |
| `KeycloakFlow.Admin.Send` | scripts/keycloak_mfa.py:98-133 | a call is sent at most five times, a POST that creates once; when it raises, its effect has landed or not; when it returns, it was allowed and has landed; the history records each call with how often it was sent and the realm before and after |
| `KeycloakFlow.Admin.SetRequirement` | scripts/keycloak_mfa.py:323-325 | the newest execution ends up with the requirement, and nothing else of the realm changes |
| `KeycloakFlow.Admin.AddStep` | scripts/keycloak_mfa.py:303-310 | one provider execution appended, with its requirement and its configuration on that very execution |
| `KeycloakFlow.Admin.AddSubFlow` | scripts/keycloak_mfa.py:294-301 | one subflow execution appended whose own executions are exactly the node's children |
| `KeycloakFlow.Admin.AddExecutions` | scripts/keycloak_mfa.py:292-310 | what is appended below the parent is the forest of the specification, with suffixed aliases; it succeeds exactly when every name is usable and every alias is new in its turn (on a server that answers); at every call everything outside the parent is untouched |
| `KeycloakEnsure.FlowShape` | scripts/keycloak_mfa.py:255-268 | None exactly when no top-level flow has the alias; else the shape of the flow's tree |
| `KeycloakEnsure.FindGood` | scripts/keycloak_mfa.py:341-347 | a candidate that matches, the bound one first; none exactly when no candidate matches |
| `KeycloakEnsure.FreeAlias` | scripts/keycloak_mfa.py:350-353 | "tn-browser", or "tn-browser--" with the first number for which no top-level flow has the name |
| `KeycloakEnsure.BuildFlow` | scripts/keycloak_mfa.py:283-289 | the new flow's tree is the suffixed specification, everything else is as before, and sign-in is whole after every call |
| `KeycloakEnsure.BuildNew` | scripts/keycloak_mfa.py:348-357 | a new copy that compares equal to the specification; it succeeds exactly when the names fit and no provider ends with the suffix (on a server that answers) |
| `KeycloakEnsure.BindFlow` | scripts/keycloak_mfa.py:358-360 | the matching flow gets bound, whole before and after |
| `KeycloakEnsure.DeleteOthers` | scripts/keycloak_mfa.py:361-365 | every candidate but the bound one is deleted, or remains because the server refused; one change is recorded for each |
| `KeycloakEnsure.EnsureFlow` | scripts/keycloak_mfa.py:336-365 | after every call of every run, failing anywhere: sign-in goes through its old flow unchanged or through one that matches the specification, and every flow whose top-level name is neither "tn-browser" nor begins with "tn-browser--" is there unchanged; only flows with such a name are created, bound or deleted, and never the bound one deleted; success leaves a matching flow bound and no copy but those refused; a change is recorded exactly when the realm was not settled; a settled realm is left alone; and exactly when a run succeeds on a server that answers |
| `KeycloakEnsure.AcceptedMeans` | scripts/keycloak_mfa.py:343-347 | an accepted flow is a copy whose tree, names cut, is the specification up to empty subflows |
| `KeycloakEnsure.EnsureFlowTwice` | scripts/keycloak_mfa.py:336-365 | after a success, a second run leaves realm, history and change record alone if every delete went through, and records a change when one was refused |
| `KeycloakEnsure.RefusedCopyIsNotSettled` | scripts/keycloak_mfa.py:361-365 | a bound flow that matches beside a copy that stayed is not settled (an input) |
| `KeycloakEnsure.RunAfterRefusal` | scripts/keycloak_mfa.py:361-365 | a run on it records a change and leaves the bound flow bound (an input) |
| `KeycloakEnsure.SettledMeans` | scripts/keycloak_mfa.py:336-365 | settled: the bound flow matches and no candidate is another flow |
| `KeycloakRoles.WalkIsFirst` | scripts/keycloak_mfa.py:201-210 | the walk over the group tree keeps the first group of each name in pre-order |
| `KeycloakRoles.GroupRoleConverges` | scripts/keycloak_mfa.py:213-229 | the role ends with exactly the groups the wanted names lead to if and only if no holder, wanted or not, hides behind another group of its name |
| `KeycloakRoles.HolderNamesConverge` | scripts/keycloak_mfa.py:213-229 | seen by name only: the holders' names end as the wanted ones that exist if and only if no unwanted holder is hidden |
| `KeycloakRoles.WantedNamesakeIsPassedOver` | scripts/keycloak_mfa.py:213-229 | the wanted group whose namesake holds the role never gets it, while the names look right (an input) |
| `KeycloakRoles.ShadowedHolderKeepsTheRole` | scripts/keycloak_mfa.py:213-229 | two groups named alike: the hidden one keeps the role (an input) |
| `KeycloakRoles.Realm.GrantGroups` | scripts/keycloak_mfa.py:218-225 | the wanted groups that exist and are no holders get the role |
| `KeycloakRoles.Realm.DropGroups` | scripts/keycloak_mfa.py:226-229 | the named groups lose the role, nothing else does |
| `KeycloakRoles.Realm.EnsureGroupRole` | scripts/keycloak_mfa.py:213-229 | the holders after a successful run, and a change recorded exactly when the holders' names were not already the wanted ones |
| `KeycloakRoles.Realm.EnsureUserRole` | scripts/keycloak_mfa.py:237-251 | on a server that answers it succeeds, and then the role is held by exactly the wanted users that exist; a change is recorded exactly when it was not |
| `KeycloakRoles.Realm.EnsureGroupRoleTwice` | scripts/keycloak_mfa.py:213-229 | after a success the role is where it belongs exactly when no holder was hidden, and a second run records nothing exactly when no unwanted one was |
| `KeycloakRoles.Realm.EnsureUserRoleTwice` | scripts/keycloak_mfa.py:237-251 | a second run changes and records nothing |
| `KeycloakRoles.Realm.EnsureClient` | scripts/keycloak_mfa.py:403-414 | the client exists with the secret; a change is recorded exactly when it did not |
| `KeycloakRoles.Realm.EnsureClientRoles` | scripts/keycloak_mfa.py:415-426 | whichever call fails, no wanted role is taken and no unwanted one given; after a success the account holds the wanted roles it had or was offered and no other, and a change is recorded exactly when its roles changed |
| `KeycloakRoles.Realm.EnsureApiClient` | scripts/keycloak_mfa.py:399-426 | both together, and nothing is sent when both are as they should be |
| `KeycloakRoles.Realm.EnsureApiClientTwice` | scripts/keycloak_mfa.py:399-426 | the account holds exactly the two roles if and only if each was held or is offered, and a second run changes and records nothing |
| `CiShard.DealOut` | scripts/ci_shard.py:56-60 | the dealing loop refines the recursive dealing: each file to the lightest shard, lowest index first |
| `CiShard.Target` | scripts/ci_shard.py:58-58 | the least load, and the lowest index among those |
| `CiShard.Assign` | scripts/ci_shard.py:50-61 | the answer is the dealt shards, each sorted by name |
| `CiShard.Shard` | scripts/ci_shard.py:64-67 | an index out of range is refused, any other gets its shard |
| `CiShard.ShardsAreASplit` | scripts/ci_shard.py:50-61 | the shards together hold every file as often as it was given, and nothing else |
| `CiShard.ListBound` | scripts/ci_shard.py:55-60 | in any order of dealing, no shard exceeds (2 - 1/m) times the slowest shard of any split |
| `CiShard.LongLastJobFits` | scripts/ci_shard.py:55-60 | longest first, a file longer than a third of the optimum lands within the optimum |
| `CiShard.LptBound` | scripts/ci_shard.py:55-60 | longest first, no shard exceeds (4/3 - 1/(3m)) times the slowest shard of any split |
| `CiShard.ShardsAreBalanced` | scripts/ci_shard.py:50-61 | the same bound for the answer itself, over all files, timings and shard counts |
| `CiShardTight.LastIsLate` | scripts/ci_shard.py:56-60 | two files each of 2m-1 down to m+1 and three of m, longest first: some shard takes 4m-1 |
| `CiShardTight.BetterTakes` | scripts/ci_shard.py:50-61 | another split of those files takes 3m on every shard |
| `CiShardTight.BoundIsReached` | scripts/ci_shard.py:50-61 | for every number of shards, the answer itself is exactly (4/3 - 1/(3m)) times slower than need be on some files |
| `Arc2Trace.NextRetryIsAhead` | scripts/arc2_batch_inprocess.py:266-272 | a retry lies ahead, and without a usable hint at most the cap away |
| `Arc2Trace.OwnRunIsNamedAfter` | scripts/arc2_batch_inprocess.py:491-495 | a run the driver named is recognised as one of that name if and only if the code has no white space, as str.strip() takes it, around it |
| `Arc2Trace.NobodyIsNamedAfter` | scripts/arc2_batch_inprocess.py:491-495 | no run at all is recognised under a code with white space around it |
| `Arc2Trace.AcceptFollowsUpload` | scripts/arc2_batch_inprocess.py:641-655 | an accept answers the upload just before it: a candidate of this course's test content, its open actions acknowledged only when allowed |
| `Arc2Trace.UploadFollowsBuild` | scripts/arc2_batch_inprocess.py:618-636 | an upload follows the build of a packaged run of the driver's own, both auto-accepted and of this course |
| `Arc2Trace.SoundEverywhere` | scripts/arc2_batch_inprocess.py:618-716 | every request of a sound trace was justified by the requests before it |
| `Arc2Trace.AcceptsAreTraced` | scripts/arc2_batch_inprocess.py:618-661 | each accept is for a release uploaded just before, built from a packaged run queued by this driver or resumed as its own, with run, build and upload all auto-accepted, all codes matching, and no open action unless acknowledging was asked for |
| `Arc2Trace.PublishingFollowsAcceptance` | scripts/arc2_batch_inprocess.py:659-716 | a course or release is published only after an upload or accept for the same course was answered with state accepted, for that very release or course |
| `Arc2Driver.SkippedFromTheStart` | scripts/arc2_batch_inprocess.py:454-457 | of courses sharing a code the last counts, and its track starts skipped exactly when it is held and not included, or a kept draft |
| `Arc2Driver.Driver.constructor` | scripts/arc2_batch_inprocess.py:404-458 | a new or resumed process satisfies every invariant, takes its courses in the order they first come, and starts from what the state file says |
| `Arc2Driver.Driver.Retry` | scripts/arc2_batch_inprocess.py:573-582 | one retry request for the course's own run; 200 and 409 set it working with no retry time, any other answer fails it, and nothing else changes |
| `Arc2Driver.Driver.Advance` | scripts/arc2_batch_inprocess.py:584-615 | the exact track each kind of run leads to, and its requests: those of a release when the run is packaged, none otherwise |
| `Arc2Driver.Driver.Defer` | scripts/arc2_batch_inprocess.py:594-601 | one more attempt: waiting until the computed time, or failed past the maximum |
| `Arc2Driver.Driver.ReleaseRun` | scripts/arc2_batch_inprocess.py:618-667 | the track ends in the status its requests and their answers lead to, step by step; nothing else changes; every request was justified |
| `Arc2Driver.Driver.AcceptUploaded` | scripts/arc2_batch_inprocess.py:641-661 | a release of another course or one a person touched fails; one with open actions needs review unless acknowledging is allowed; a candidate is accepted once, with its open actions; and only a release answered as accepted goes on to its course |
| `Arc2Driver.Driver.CoursePublished` | scripts/arc2_batch_inprocess.py:669-680 | the course is read, published exactly when it was readable and not published yet, and shown when one of the two said so |
| `Arc2Driver.Driver.Publish` | scripts/arc2_batch_inprocess.py:692-716 | a Moodle is looked for exactly when none is known; without one the track fails, else the release is announced and followed |
| `Arc2Driver.Driver.Create` | scripts/arc2_batch_inprocess.py:563-571 | one queueing request; a slug of the right form is in the state file at once and the track works, any other answer fails the track |
| `Arc2Driver.Driver.PassNew` | scripts/arc2_batch_inprocess.py:543-550 | a course some run is named after is refused without a request; else, when fewer courses are under way than allowed, exactly one run is queued, and what its answer leads to; else nothing happens |
| `Arc2Driver.Driver.Pass` | scripts/arc2_batch_inprocess.py:537-559 | every state has its case: an unqueued course is refused, queued or left; a waiting one is retried once its time has come; a working or resumed one becomes what its listed run makes of it, with exactly the requests that takes; a finished one is left alone; other courses are untouched |
| `Arc2Driver.Driver.Step` | scripts/arc2_batch_inprocess.py:530-561 | the runs are listed once; without a list nothing changes; with one, every course has its turn on the runs listed, the tracks are saved, and the pass says finished exactly when no course is pending, working or waiting |
| `Arc2Driver.Driver.UnderWayIsBounded` | scripts/arc2_batch_inprocess.py:505-506 | working and waiting tracks never exceed the concurrency plus the resumed tracks |
| `Arc2Driver.Driver.RetriesAreBounded` | scripts/arc2_batch_inprocess.py:573-601 | the retries a process has sent for a course are a number its attempts allow |
| `Arc2Driver.MostRetriesIsMost` | scripts/arc2_batch_inprocess.py:573-601 | the numbers allowed are those up to the attempts left, plus one for a course resumed waiting |
| `Arc2Driver.Driver.Exhaust` | scripts/arc2_batch_inprocess.py:573-601 | all of them are sent when every retry is accepted and the job keeps failing |
| `Arc2Driver.WithinTheMaximumIff` | scripts/arc2_batch_inprocess.py:551-601 | a process can never send more retries than the maximum if and only if it does not resume the course waiting, or the maximum is at least one |
| `Arc2Driver.Driver.RetriesAreWithinTheMaximum` | scripts/arc2_batch_inprocess.py:551-601 | with a state file the driver wrote, and not in that case, no process does |
| `Arc2Driver.RetryDespiteTheMaximum` | scripts/arc2_batch_inprocess.py:551-556 | every course saved waiting and resumed with a maximum of zero or less gets its retry |
| `Arc2Driver.Driver.BarredCoursesAreLeftAlone` | scripts/arc2_batch_inprocess.py:454-458 | skipped and kept-draft courses cause no changing request |
| `Arc2Driver.Driver.Plan` | scripts/arc2_batch_inprocess.py:508-528 | a dry run sends one GET and marks every course that is not skipped |
| `Arc2Driver.Driver.RunFor` | scripts/arc2_batch_inprocess.py:718-730 | off a test host nothing is sent; on one, pass follows pass, each over every course and from where the last one ended, until all are finished or the runs cannot be listed, and not before |
| `Arc2Driver.Batches` | scripts/arc2_batch_inprocess.py:441-458 | process after process, however each is started, each killed at any moment: at most one run was ever queued for a course whose code has no white space around it, and a state file counts attempts as the driver writes them |
| `Arc2Driver.SecondRunIff` | scripts/arc2_batch_inprocess.py:539-550 | after a slug was lost, the next process can queue a second run if and only if the code has white space around it |
| `Arc2Driver.PaddedCodeRunsTwice` | scripts/arc2_batch_inprocess.py:539-571 | two processes are enough, for every such code |
| `Arc2Driver.ResumeAfterCrash` | scripts/arc2_batch_inprocess.py:441-458 | the process resumed from any state a killed one left follows exactly the runs whose slugs were saved there, with the attempts counted so far |
| `Arc2Driver.LastCounts` | scripts/arc2_batch_inprocess.py:440-458 | of courses sharing a code, the last one decides the track |
| `NoiseAgent.ForgottenIsStale` | noise-agent/tn_noise_agent/runner.py:95-96 | whatever is forgotten after an hour is stale, more than 120 s late, on a clock that has fallen back if and only if it fell back by at most 3480 s |
| `NoiseAgent.StepBackRunsTwice` | noise-agent/tn_noise_agent/runner.py:79-96 | any larger step back lets the loop execute an action twice |
| `NoiseAgent.Runner.Handle` | noise-agent/tn_noise_agent/runner.py:79-91 | known actions are passed over, stale ones dropped, the rest awaited, executed and remembered |
| `NoiseAgent.Runner.CarryOut` | noise-agent/tn_noise_agent/runner.py:78-91 | what ran is in the results in order; it is cut short only by a planned action, not done, whose timestamp does not parse, with everything before it dealt with; otherwise everything due before the horizon is dealt with; and what is dealt with was known, ran, or was stale |
| `NoiseAgent.Runner.Report` | noise-agent/tn_noise_agent/runner.py:92-94 | batches of at most 500 that join to exactly the results, or to their beginning when a call fails |
| `NoiseAgent.Runner.Forget` | noise-agent/tn_noise_agent/runner.py:95-96 | exactly the entries due over an hour ago are forgotten |
| `NoiseAgent.Runner.Cycle` | noise-agent/tn_noise_agent/runner.py:72-97 | only planned actions run, none known before; when all timestamps parse, everything due before the horizon is dealt with, whether or not reporting fails; with a controller that takes reports the cycle fails only at a timestamp that does not parse, everything before it dealt with; with exact sleeps, whatever was not stale at the start ran, when due or at once if late; the wait is exactly what is left of the poll |
| `NoiseAgent.Runner.RunFor` | noise-agent/tn_noise_agent/runner.py:99-106 | over any number of polls, failing or not: no action runs twice as long as the clock never falls back by more than 3480 s, and none is found more than 120 s late when judged; with exact sleeps each poll begins when the wait after the last one ends, 30 s after a failure, and every action a plan lists in time and due before the next poll has run by the end of the poll |
| `ExportChain.ExportChain` | scripts/staging_acceptance.py:1082-1098 | no problem exactly when hashes are distinct, every link is known, one row is pointed at by none, and the walk from it meets all; and each problem reported is true, with its count, and each true one is reported |
| `ExportChain.WalkBack` | scripts/staging_acceptance.py:1092-1095 | the walk ends on any input and counts the rows it meets |
| `ExportChain.PassesOnlyWhenLinked` | scripts/staging_acceptance.py:1082-1098 | a silent check means the rows are one chain, or one whose first row points back into it |
| `ExportChain.LinkedPasses` | scripts/staging_acceptance.py:1082-1098 | and all of those are passed |
| `ExportChain.AcyclicHasNoLasso` | scripts/staging_acceptance.py:1082-1098 | links that only lead to older rows cannot loop |
| `ExportChain.SilentMeansOneChain` | scripts/staging_acceptance.py:1082-1098 | with such links, silent if and only if the rows are one linear chain ending in the head answered |
| `ExportChain.LoopingTailPasses` | scripts/staging_acceptance.py:1082-1098 | without, a looping tail passes (an input) |
| `TazGlob.GlobToRegex` | scripts/taz_guard.py:78-96 | the loop emits the tokens of the recursive reading |
| `TazGlob.GlobMeans` | scripts/taz_guard.py:78-96 | with every ** a whole segment, the expression matches exactly the paths the segment lists match: an inner ** takes zero or more segments, a last one one or more, * and ? stay within one |
| `TazCheck.Check` | scripts/taz_guard.py:298-377 | no failure is reported if and only if the change passes, clause by clause |
| `TazCheck.CheckOracles` | scripts/taz_guard.py:309-323 | no failure exactly when an oracle file exists and each is identical to the reference |
| `TazCheck.CheckPaths` | scripts/taz_guard.py:325-354 | no failure exactly when every path is well; and the changes whose lines count |
| `TazCheck.CheckBudget` | scripts/taz_guard.py:356-363 | no failure exactly when no counted file is binary and the lines are within budget |
| `TazCheck.CheckLines` | scripts/taz_guard.py:366-376 | no failure exactly when no added line that was not merely moved is a suppression |
| `TazCheck.PassMeans` | scripts/taz_guard.py:298-377 | a path changed by a passing change is no lockfile, and is an oracle file as in the reference, a baseline not raised, or an unprotected path within the allowed ones |
| `TazRatchet.MergeNeverRaises` | scripts/taz_guard.py:338-349 | outside the oracle check, a passing merge leaves each baseline file there, raises nothing in it and adds no key |
| `TazRatchet.BaselinesNeverRise` | scripts/taz_guard.py:338-349 | over any chain of passing merges no value rises and no key is added, as long as no value on the way is NaN and no card takes the file over for a higher one |
| `TazRatchet.MergeKeepsLowIff` | scripts/taz_guard.py:309-349 | a passing merge leaves a baseline low if and only if the oracle check did not take it over, or the commit the card names holds it no higher |
| `TazRatchet.ChainIsLowIff` | scripts/taz_guard.py:309-349 | step by step, a chain of passing merges keeps a baseline low if and only if every card along the way is such |
| `TazRatchet.CarriesOverIff` | scripts/taz_guard.py:344-344 | not being greater carries over from step to step if and only if the value between is not NaN |
| `TazRatchet.RisesThroughNaNOnly` | scripts/taz_guard.py:338-349 | two passing merges outside the oracle check can raise a value through a commit if and only if it is NaN there |
| `TazRatchet.OracleCanRaiseABaseline` | scripts/taz_guard.py:336-337 | a passing merge under a card whose oracle globs cover everything raises a baseline (an input) |
| `TazRatchet.NaNDefeatsTheRatchet` | scripts/taz_guard.py:344-344 | two passing merges raise a value from 10 to 100 through NaN (an input) |
| `VlanPool.UsedVlans` | scripts/vsphere-discover.py:710-737 | exactly the IDs some port group uses, and exactly the port groups and wide ranges that pass everything, each reported once |
| `VlanPool.StandardVlans` | scripts/vsphere-discover.py:718-725 | the IDs and the all-passing port groups of standard switches |
| `VlanPool.SuggestVlanBlock` | scripts/vsphere-discover.py:740-749 | the lowest free block; None if and only if every block in range clashes |
| `VlanPool.JumpSkipsNothing` | scripts/vsphere-discover.py:748-748 | every block jumped over contains the clash |
| `VlanPool.AnalyseVlans` | scripts/vsphere-discover.py:968-983 | the suggested pool never contains an ID in use; the reserved block is suggested exactly when it has no clash, else the lowest free block; none only when nothing fits |
| `OrchestratorRouting.Collect` | ai-orchestrator/app/main.py:415-421 | the candidate loop keeps exactly the fitting choices not seen before, in order |
| `OrchestratorRouting.FindBestForTags` | ai-orchestrator/app/main.py:381-401 | refines the recursive choice |
| `OrchestratorRouting.FindAllForTags` | ai-orchestrator/app/main.py:404-424 | refines the recursive listing |
| `OrchestratorRouting.BestIsFirst` | ai-orchestrator/app/main.py:966-986 | the best choice is the head of the list, and none exactly when the list is empty: the model in the cache key is the first one tried |
| `OrchestratorRouting.AllIsExact` | ai-orchestrator/app/main.py:404-424 | every model within the size limit, with one of the tags, on a healthy node, exactly once: by the earliest of its tags, then by size, larger first, then by calls in flight, fewer first |
| `OrchestratorRouting.FindNodeForModel` | ai-orchestrator/app/main.py:808-834 | the answer is the first of the least busy candidates, preferred nodes listed first in their order, then the fleet's |
| `OrchestratorRouting.PreferenceSettlesTies` | ai-orchestrator/app/main.py:808-834 | there is a candidate exactly when a healthy node has the model; the answer is the least busy of them all, and a preferred node only wins ties |
| `OrchestratorRouting.PreferredIsAnsweredIff` | ai-orchestrator/app/main.py:808-834 | the answer is a preferred node if and only if some preferred node that can serve the model is no busier than every node that can |
| `OrchestratorRouting.BusyPreferredIsPassedOver` | ai-orchestrator/app/main.py:808-834 | a preferred node with one call in flight loses to another with none (an input) |
| `OrchestratorLimits.StepKeepsValid` | ai-orchestrator/app/main.py:837-900 | after every step of any request, permits and counters agree with what the requests hold |
| `OrchestratorLimits.EveryRunIsBounded` | ai-orchestrator/app/main.py:837-1032 | in every run, calls in flight on a node stay between 0 and its limit, and over all nodes within the service's limit |
| `OrchestratorLimits.QuietReturnsAll` | ai-orchestrator/app/main.py:863-879 | once all requests are over, every permit is back and every counter is zero |
| `OrchestratorLimits.SomeoneCanGoOn` | ai-orchestrator/app/main.py:878-979 | no deadlock: with both limits positive, some unfinished request is not blocked |
| `OrchestratorLimits.EveryStepIsProgress` | ai-orchestrator/app/main.py:780-805 | no livelock: every step brings the end nearer, however the calls turn out |
| `OrchestratorLimits.AllCanFinish` | ai-orchestrator/app/main.py:837-1032 | from every reachable state the requests present can all be finished, everything returned |
| `OrchestratorLimits.StuckMeansDone` | ai-orchestrator/app/main.py:837-1032 | requests that can take no step are over, and everything is returned |
| `OrchestratorLimits.NoPermitsNoCalls` | ai-orchestrator/app/main.py:250-251 | with no permits a node serves nobody, so the limit must be positive |
| `OrchestratorCache.Cache.Get` | ai-orchestrator/app/main.py:763-769 | what is found is the last value written and not expired; and each of the last CACHE_MAX writes is found until it expires, as long as the clock ticks between writes |
| `OrchestratorCache.Cache.Set` | ai-orchestrator/app/main.py:772-776 | the cache is as before, without an oldest entry if it was full, plus the new entry; it fails exactly when the cache has no room at all |
| `OrchestratorCache.NewerEntriesNeedWrites` | ai-orchestrator/app/main.py:772-776 | a key all other entries are newer than was written that many writes ago |
| `Corpus.Index` | greyspace/scripts/corpus.py:110-126 | the loop gives each valid directory the address of its turn, or fails |
| `Corpus.AddressesDiffer` | greyspace/scripts/corpus.py:126-126 | two turns never share an address, for disjoint networks |
| `Corpus.AddressIsInPool` | greyspace/scripts/corpus.py:116-126 | each address is a host of its network past the part kept for infrastructure |
| `Corpus.IndexIsExact` | greyspace/scripts/corpus.py:110-126 | addresses can be given if and only if every valid directory's turn is within its network; then each has its site, there is no other, and addresses differ |
| `Corpus.IspAddresses` | control-plane/api/app/greyspace/fixture.py:21-57 | the two networks hold 130556 sites, and two turns far down the list get a threat actor's address |
| `Corpus.WriteChecksums` | greyspace/scripts/corpus.py:53-60 | the text of all files' lines, and their number |
| `Corpus.ReadsBack` | greyspace/scripts/corpus.py:145-148 | the file reads back as written if and only if no path has a line break in it |
| `Corpus.BrokenPathIsLost` | greyspace/scripts/corpus.py:147-148 | a path with a line break does not survive (an input) |
| `Corpus.FirstLine` | greyspace/scripts/corpus.py:145-148 | the first line read back is the first written exactly when its path has no break |
| `Corpus.Verify` | greyspace/scripts/corpus.py:143-160 | the number of listed files missing or changed plus sites without a directory, or failure on a line without two blanks |
| `Corpus.VerifyMeans` | greyspace/scripts/corpus.py:143-160 | checking against the file written for a tree finds nothing exactly when every file of it is there unchanged and every site has its directory; additional files are not noticed |
| `KeycloakFlow.Admin.PostStep` | scripts/keycloak_mfa.py:303-305 | a provider execution appended, and the row the search answers is that execution |
| `KeycloakFlow.Admin.PostSubFlow` | scripts/keycloak_mfa.py:295-299 | an empty subflow under the same top-level flow appended, and the row the search answers is its execution |
| `KeycloakFlow.Admin.PostConfig` | scripts/keycloak_mfa.py:307-310 | the configuration lands on the newest execution and nothing else changes |
| `KeycloakFlow.Admin.AddEmptySubFlow` | scripts/keycloak_mfa.py:295-300 | an empty subflow under the same top-level flow, with its requirement |
| `KeycloakEnsure.ListFlows` | scripts/keycloak_mfa.py:340-341 | exactly the top-level aliases, each once |
| `KeycloakEnsure.ReadRows` | scripts/keycloak_mfa.py:260-268 | each row with the configuration behind it |
| `KeycloakEnsure.ListCopies` | scripts/keycloak_mfa.py:338-341 | the candidates are exactly the top-level flows named "tn-browser" or beginning with "tn-browser--" |
| `KeycloakEnsure.CreateTop` | scripts/keycloak_mfa.py:284-287 | the empty flow exists and everything else is as before, or nothing happened |
| `KeycloakEnsure.FindOrBuild` | scripts/keycloak_mfa.py:342-357 | a matching flow; nothing was sent when one was there, and one was built only when none matched |
| `KeycloakEnsure.BindAndClean` | scripts/keycloak_mfa.py:358-365 | the matching flow is bound and the other copies are gone, but those refused |
| `KeycloakEnsure.DeleteFlow` | scripts/keycloak_mfa.py:364-364 | one DELETE of a flow that is not bound; refused, or the flow and what was created under it are gone |
| `KeycloakEnsure.DeleteCopy` | scripts/keycloak_mfa.py:362-365 | one candidate: passed over when bound, else deleted or refused |
| `KeycloakRoles.NameLeadsToFirst` | scripts/keycloak_mfa.py:205-207 | a name leads to the earliest group in walking order that has it |
| `Arc2Trace.Appended` | scripts/arc2_batch_inprocess.py:618-716 | a justified request keeps the trace sound |
| `Arc2Driver.Driver.ListRunsNow` | scripts/arc2_batch_inprocess.py:482-488 | one GET, counted; what it lists includes every run the batch ever queued |
| `Arc2Driver.Driver.Adopt` | scripts/arc2_batch_inprocess.py:566-569 | the slug answered makes the run the driver's own and is in the state file before anything else happens |
| `Arc2Driver.Driver.Refuse` | scripts/arc2_batch_inprocess.py:570-571 | any other answer fails the track |
| `Arc2Driver.Driver.Save` | scripts/arc2_batch_inprocess.py:469-474 | the state file is replaced as a whole by the tracks |
| `Arc2Driver.Driver.Stall` | scripts/arc2_batch_inprocess.py:608-615 | the time of stalling is kept from its first sight, and the track fails past the timeout |
| `Arc2Driver.Driver.PassUnderWay` | scripts/arc2_batch_inprocess.py:551-559 | a waiting course gets nothing before its time and one retry after it; a working one follows its listed run, or nothing happens when none is listed |
| `Arc2Driver.Driver.FollowState` | scripts/arc2_batch_inprocess.py:588-615 | where a run that needs no retry and no release puts its track |
| `Arc2Driver.Driver.PassAll` | scripts/arc2_batch_inprocess.py:536-559 | every course has its turn, in order, each as Pass says, from the track the pass found to the track it left; the requests are those of the turns and no others; finished courses stay |
| `Arc2Driver.Driver.ReleaseSteps` | scripts/arc2_batch_inprocess.py:618-667 | a run a person touched fails without a request; else it is built, uploaded only if the build is auto-accepted and of this course, and every further request and the final status follow from the answers |
| `Arc2Driver.Driver.BuildAndUpload` | scripts/arc2_batch_inprocess.py:624-640 | the build is uploaded if and only if it is auto-accepted and of this course |
| `Arc2Driver.Driver.FollowPublication` | scripts/arc2_batch_inprocess.py:703-716 | the publication is asked for until its state is published, failed or superseded, or the time is up: published means the last state answered is, and it is given up early never |
| `NoiseAgent.Runner.Next` | noise-agent/tn_noise_agent/runner.py:79-92 | one turn of the loop keeps account of what ran and what is in the results |
| `NoiseAgent.Runner.Carry` | noise-agent/tn_noise_agent/runner.py:89-92 | an action on time is awaited, executed once and remembered |
| `NoiseAgent.Runner.Execute` | noise-agent/tn_noise_agent/runner.py:47-70 | the result echoes the planned action and never raises |
| `ExportChain.UnknownLinks` | scripts/staging_acceptance.py:1088-1088 | one problem for each link to a hash that is not there |
| `TazCheck.CheckWith` | scripts/taz_guard.py:298-377 | the four checks together report nothing exactly when the change passes |
| `TazCheck.CheckPath` | scripts/taz_guard.py:325-354 | one path: no failure exactly when it is well, and whether its lines count |
| `TazCheck.CountedSum` | scripts/taz_guard.py:354-361 | the lines added up are those of the changes that count |
| `VlanPool.DvPortGroupVlans` | scripts/vsphere-discover.py:729-736 | exactly the IDs a distributed port group uses, and its wide ranges, each once |
| `VlanPool.LastClash` | scripts/vsphere-discover.py:745-748 | the greatest taken ID of the block, None exactly when it is free |
| `OrchestratorRouting.HeadIsFirstLeast` | ai-orchestrator/app/main.py:833-834 | the head of the stable sort is the first of the least busy |
| `OrchestratorLimits.NewNodeIsValid` | ai-orchestrator/app/main.py:543-553 | a node added while requests run starts with all its permits and a counter at zero |
| `OrchestratorCache.Cache.Room` | ai-orchestrator/app/main.py:773-775 | room for one more: as it is, or without an oldest entry |
| `OrchestratorCache.WriteIsSound` | ai-orchestrator/app/main.py:772-776 | a write keeps what Get promises of the writes before it |
| `Corpus.VerifyFiles` | greyspace/scripts/corpus.py:146-152 | the listed files that are missing or changed |
| `Sorting.SortCorrect` | scripts/ci_shard.py:56-56 | the sort used throughout is ordered and holds exactly what it was given |
| `Sorting.SortStable` | scripts/ci_shard.py:56-56 | and it keeps elements that are as good as each other in the order they came |
| `KeycloakEnsure.CopiesAreOwn` | scripts/keycloak_mfa.py:341-341 | a name counts as a copy if and only if it is "tn-browser" or "tn-browser--" and anything after it, and what is cut off it as its suffix is all after "tn-browser" |
| `KeycloakRoles.LoweredMeans` | scripts/keycloak_mfa.py:239-240 | the users asked for are the names given in small letters, and nobody else |
| `CiShard.WeightMeans` | scripts/ci_shard.py:52-54 | a file weighs its recorded time; without one, 1.0 exactly when no given file has a time, else the middle of the times recorded for the given files, found by counting the shorter and the longer ones, and with an even number the mean of the two middle ones |
| `CiShard.MedianIsMiddle` | scripts/ci_shard.py:53-53 | the median of the recorded times, told by counting: for an odd number no more times are shorter than half of them, nor longer; for an even number it is the mean of the two in the middle |
| `CiShard.AnswerMeans` | scripts/ci_shard.py:52-61 | the files are dealt in an order in which the weights do not rise, ties by name; and each shard of the answer holds exactly what that dealing gave it, sorted by name |
| `Arc2Trace.ClassifyMeans` | scripts/arc2_batch_inprocess.py:275-299 | each kind by the state of the job and the phase: a job queued or running works; else stopped or taken over is held; else a failed job is retried or failed by its error; else packaged, the two gates, and pauses |
| `Arc2Trace.RetryableMeans` | scripts/arc2_batch_inprocess.py:219-236 | an error is a limit, or passing, exactly when one of the listed phrases stands in it, in any case |
| `Arc2Trace.NextRetryMeans` | scripts/arc2_batch_inprocess.py:266-272 | two minutes after a usable hint; else the base after the first attempt and twice the previous wait after each further one, never beyond the cap |
| `Arc2Trace.NamesMean` | scripts/arc2_batch_inprocess.py:491-495 | a name with white space around it counts as the code if and only if what is between is the code in any case |
| `Arc2Trace.SlugsMean` | scripts/arc2_batch_inprocess.py:73-73 | a slug is accepted if and only if it is "arc2-" and one to sixty small letters, digits or hyphens, perhaps with one line feed after them |
| `Arc2Trace.WritesAre` | scripts/arc2_batch_inprocess.py:454-458 | what is not sent for a barred course is everything but listing, reading and building |
| `Arc2Driver.InOrderMeans` | scripts/arc2_batch_inprocess.py:440-458 | every code once, in the order of its first course |
| `Arc2Driver.Driver.AfterAcceptance` | scripts/arc2_batch_inprocess.py:659-667 | an accepted release fails if its course cannot be shown, is done if no LMS is wanted, else is published there |
| `Arc2Driver.Driver.FindPlatform` | scripts/arc2_batch_inprocess.py:682-690 | the platforms are listed exactly when no Moodle is known |
| `Arc2Driver.Driver.Listed` | scripts/arc2_batch_inprocess.py:533-533 | the last run listed with the slug; none exactly when no run has it |
| `Arc2Driver.Driver.PassWaiting` | scripts/arc2_batch_inprocess.py:551-556 | before its time nothing; from then on exactly one retry request, and what its answer leads to |
| `Arc2Driver.Driver.PassCreated` | scripts/arc2_batch_inprocess.py:541-559 | a resumed course is taken up and treated like a working one |
| `Arc2Driver.Driver.PassAndSave` | scripts/arc2_batch_inprocess.py:536-561 | all of that, then the tracks are in the state file, and the answer says whether all are finished |
| `NoiseAgent.Runner.Turn` | noise-agent/tn_noise_agent/runner.py:99-106 | one poll and its wait: what it had to run has run, and the wait is 30 s exactly after a failure |
| `NoiseAgent.Runner.RaisedAfterAll` | noise-agent/tn_noise_agent/runner.py:79-85 | when the loop meets a timestamp that does not parse, every action before it in the order of the timestamps is dealt with |
| `ExportChain.ReferencedMeans` | scripts/staging_acceptance.py:1087-1087 | a hash is referenced exactly when some row kept points back to it and it is not empty |
| `ExportChain.LastOfItsHash` | scripts/staging_acceptance.py:1085-1085 | of rows that share a hash the last is kept |
| `TazCheck.GreaterMeans` | scripts/taz_guard.py:344-344 | of two finite numbers one is greater exactly when it is as a real; the infinities lie beyond every real; NaN is greater than nothing and nothing than it |
| `TazCheck.ModesMean` | scripts/taz_guard.py:327-332 | a mode passes exactly when it is no symlink, submodule or change of type, an added file is 100644, and a kept one keeps its mode |
| `TazCheck.BasenameMeans` | scripts/taz_guard.py:338-338 | the name of a file is what follows its last slash |
| `TazCheck.BaselineNames` | scripts/taz_guard.py:338-338 | a path is a baseline exactly when its name is ".dod-", anything, and "baseline" |
| `TazCheck.OraclesMean` | scripts/taz_guard.py:309-323 | with oracle globs, one file at the reference must match, and every file that matches one, there or at the head, must be the same in both |
| `TazCheck.PathsMean` | scripts/taz_guard.py:333-353 | a path passes exactly when no lockfile glob matches it, and an oracle glob does, or it is a baseline whose every value was there and is not greater, or it is not protected and is allowed |
| `TazCheck.OrdinaryMeans` | scripts/taz_guard.py:333-354 | the files whose lines count are those that are neither lockfile nor oracle file nor baseline |
| `TazCheck.LinesMean` | scripts/taz_guard.py:365-376 | a suppression is reported exactly for an added line of a text file that is neither oracle file nor prose, that matches, and that was not merely moved |
| `TazCheck.ProseMeans` | scripts/taz_guard.py:68-68 | prose is what ends, after something else and in any case, in .md, .markdown, .rst, .txt or .adoc |
| `TazCheck.MovedMeans` | scripts/taz_guard.py:369-372 | a line was moved exactly when it was removed too, up to white space around it |
| `TazGlob.MatchesAnyMeans` | scripts/taz_guard.py:99-100 | a path matches a list of globs in which every ** is a whole segment exactly when the segments of one of them match its segments |
| `TazGlob.PlainMeans` | scripts/taz_guard.py:78-96 | a glob without wildcards matches exactly its own text, letter case aside when ignored |
| `TazGlob.StarBetween` | scripts/taz_guard.py:85-87 | within a segment, one star between two plain texts matches exactly what begins with the one and ends with the other |
| `TazRatchet.ValuesNeverRise` | scripts/taz_guard.py:338-349 | said of the numbers: over any chain of passing merges, a finite value at the end is at most the finite value the chain began with, as reals |
| `TazRatchet.CheckOneValue` | scripts/taz_guard.py:298-377 | the check itself on a pull request that only takes one baseline from one finite value to another: no failure exactly when the new one is not above the old one |
| `TazRatchet.OneValuePasses` | scripts/taz_guard.py:338-349 | such a pull request passes exactly when its value does not rise |
| `OrchestratorRouting.ListingMembers` | ai-orchestrator/app/main.py:415-419 | the finders walk every model of every node and nothing else |
| `OrchestratorLimits.StepIsOfOne` | ai-orchestrator/app/main.py:780-805 | from which phase to which each step takes its request: an error that may pass is tried again while fewer than two attempts have failed, any other ends the attempts at this node; all other requests stand |
| `OrchestratorLimits.StepBalances` | ai-orchestrator/app/main.py:863-879 | what a step gives back and takes of slots, permits and counters is what its request held before less what it holds after |
| `OrchestratorLimits.ArrivalMeans` | ai-orchestrator/app/main.py:884-979 | a generation comes to wait for a slot; an embedding needs none and has one node to try |
| `OrchestratorLimits.ThreeAttempts` | ai-orchestrator/app/main.py:780-879 | at a node exactly three attempts are made while errors may pass, under one permit, which goes back with the third; counters are as before |
| `Corpus.BreaksAre` | greyspace/scripts/corpus.py:147-147 | the characters that end a line, by code |
| `Corpus.LinesAreCut` | greyspace/scripts/corpus.py:147-147 | a text is cut exactly at line ends, a carriage return taking a line feed after it along; what ends a line belongs to none |
| `Text.LowerMeans` | scripts/keycloak_mfa.py:239-240 | each of the 26 capitals becomes its small letter and everything else stays |
| `Text.SpacesAre` | scripts/arc2_batch_inprocess.py:491-495 | white space is exactly the characters str.strip() takes |
| `Text.StripTakesOff` | scripts/arc2_batch_inprocess.py:491-495 | what is stripped off is the white space around, all of it and nothing more |
| `Text.ContainsMeans` | scripts/arc2_batch_inprocess.py:230-236 | one text contains another exactly when it stands somewhere in it |
| `Text.LexMeans` | scripts/ci_shard.py:56-56 | of two texts one comes no later exactly when it begins the other, or has the lower character where they first differ |
| `Text.DecimalReadsBack` | scripts/keycloak_mfa.py:350-353 | the digits of a number, read in base ten, are the number |
| `KeycloakFlow.LastExecutionMeans` | scripts/keycloak_mfa.py:313-320 | the search answers the last row of the flow itself, not of a flow below it, of the kind and under the name looked for; none exactly when there is none |

## Left out

- CiShard.DealOut: weights are real numbers; rounding of floating-point sums is not modelled.
- CiShard.Assign: asks for at least one shard, which `shard` has already made sure of.
- NoiseAgent.Runner.Cycle: times are real numbers, and how a timestamp parses is a given function of its text; two timestamps of one moment in different zones are different texts.
- Arc2Driver.Driver.Step: the track is a value in a map that the methods reassign, so two names for one track object are not captured; details, versions and log lines are left out.
- Arc2Driver.Driver.Defer: reading a reset time out of an error text is a given function of the text and the clock.
- TazRatchet.BaselinesNeverRise: each pull request is merged onto the commit it was checked against, and the file's blob decides its values.
- TazGlob.GlobMeans: says nothing of globs where `**` stands beside other characters in a segment; ignoring case is ASCII only.
- TazCheck.Check: suppression patterns are a given test of a line; diffs, blobs and parsed baselines are given.
- OrchestratorRouting.BestIsFirst: about one state of the fleet; the list is made after a slot was awaited, when the fleet may have changed.
- OrchestratorRouting.FindNodeForModel: model names, sizes and tags are given; the node's model list and its tagged models are taken to agree.
- OrchestratorLimits.StepKeepsValid: which waiter gets a freed permit is left open, so fairness is not stated; delays between attempts, and which errors count as passing, are the environment's.
- OrchestratorCache.Cache.Set: among entries of one age the one removed is left open.
- OrchestratorCache.Cache.Get: the promise for recent writes needs a clock that ticks between writes.
- Corpus.Index: a directory's name being a domain is given.
- Corpus.IndexIsExact: about addresses only; the same command also refuses what parse_manifest refuses, such as two names that differ in case only, a tier's cap exceeded or a missing version, which is not part of this model.
- Corpus.ReadsBack: digests are hexadecimal; two files with one digest are not told apart.
- KeycloakEnsure.EnsureFlow: other administrators do not act during a run; descriptions, configuration aliases and pages of more than 1000 rows are left out.
- KeycloakRoles.Realm.EnsureGroupRole: a holder list of more than 1000 groups is left out.
- KeycloakRoles.Realm.EnsureUserRole: a holder list of more than 1000 users is left out.
- Arc2Driver.Batches: says nothing of codes with white space around them, for which it is false (SecondRunIff).
- Realm settings, required actions, the AMR mapper, and the marker role: plain upserts.
- Making the request text, snapshots and the release tarball: formatting and file copying.
- Activities of the noise agent and their guards: calls into code that is not part of this model.
- The other checks of staging_acceptance.py, its report and its memo: one branch each.
- Cards from GitHub issues, and reading policies, YAML, JSON and diffs: parsing.
- Signatures, hashes and tokens: cryptography; hashes are uninterpreted values.
- Capacity planning of vsphere-discover.py: rounding to one decimal is its point.
- Cloud fallback, prompts, health checks and latency figures of the orchestrator: no property across functions.
- The other corpus commands: rendering, ingesting and reporting write files from templates.
