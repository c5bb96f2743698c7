# router-acp: shared-state authorities, verified

router-acp routes prompts to provider accounts. Several pieces of its code are
authorities that many processes, sessions or polls share: who may refresh a
login, which runtime directory may be deleted, which agent or candidate is out
of routing, which evidence about a sign-in counts, which accounts a
configuration keeps. This project models those pieces in Dafny and proves what
holds over every interleaving, every history of calls and every text. A few
exact text codecs they depend on are included.

| file | component |
|---|---|
| `Repair.dfy`, `RepairTheorems.dfy` | credential repair protocol: one credential file, one repair record, one lock, any number of processes |
| `Runtimes.dfy` | runtime directories: allocation lock, a lock per directory, sweeps, exits and crashes |
| `HeadroomSpec.dfy`, `Headroom.dfy` | `HeadroomTracker`: the meaning of windows, cordons, quarantine and usage cordons on full histories; the class that keeps compressed ones |
| `Auth.dfy` | `AuthTracker`: generation-guarded sign-in evidence |
| `Gate.dfy` | `prioritize`: the account gate |
| `ConfigMerge.dfy` | `keep_router_accounts`: a host's document keeps the router's accounts |
| `Interpolate.dfy`, `Base64Url.dfy`, `Glob.dfy` | environment references, the JWT payload decoder, glob patterns with score lookup |
| `Verdicts.dfy`, `Goals.dfy` | how a reply affirms a goal; what settles, stalls and continues one |
| `Common.dfy` | shared types |

## How the parts are modelled

- The two protocols are step machines. An event is one action of one
  participant; an event that is not enabled changes nothing, so every sequence
  of events is a run and every theorem about sequences is about all
  interleavings.
- The credential fingerprint is injective and epochs are never issued twice; the
  marker's text form is proved injective separately. Everything the file holds
  beside the token material is a separate component, because the fingerprint
  does not cover it.
- A refresh returns any outcome; only a successful one carries a value, as every
  refresher does. Clocks are parameters.
- Reading and comparing the stored credential, writing the refreshed value and
  writing the record (src/credentials.rs:1279-1302) are one action.
  `RepairTheorems.CommitWindow` states what outside writes inside that window
  do. Outside writes may happen at every other point.
- `record_success` is one action. Its call after a login
  (src/accounts.rs:1285) does not hold the lock: the model allows it at any
  time as one action, and `RepairTheorems.SuccessWindow`,
  `RepairTheorems.RejectionSurvivesWindow` and
  `RepairTheorems.SuccessWindowReopens` state exactly what a run between its
  read and its write loses.
- `HeadroomTracker`, `AuthTracker` and the goal's session are classes that update
  their fields. The ghost logs of `HeadroomTracker` hold every event ever
  recorded; each method says how it extends them and each query that its answer
  is the one of the full log. Times do not decrease, as for the clocks the public
  entry points pass. Headroom is a real number, without rounding.
- Agent names are distinct where that is stated; configuration validation rejects
  duplicates (src/config.rs:2259).

## Findings

- A refresh overwrites an outside write that happened while it was out and kept
  the token material: Claude's other stored data from that write is lost
  (`RepairTheorems.OtherDataIsOverwritten`). Outside the commit's own window
  (`RepairTheorems.CommitWindow`), a write that changes the material always
  survives (`RepairTheorems.CommitHonoursNewerWrites`).
- With every recorded success one action, a marker can be refreshed twice only
  across a crash or failed write before a record that the marker's own credential
  needed, or an outside write that restores that credential
  (`RepairTheorems.OneRefreshPerMarker`). These events are exactly the ones that
  reopen a marker (`RepairTheorems.SpentExactly`,
  `RepairTheorems.ReopenedRefreshes`), and each kind does happen
  (`RepairTheorems.LostRecordReopens`, `RepairTheorems.RestoringWriteReopens`,
  `RepairTheorems.UnrecordedLoginReopens`).
- A success recorded after a login without the lock can overwrite a rejection
  recorded between its read and its write. The rejection survives if and only if
  the success read no credential or a rejection of it; a change of material in
  between does not help (`RepairTheorems.RejectionSurvivesWindow`). The same race
  is a further way to reopen a marker, exactly under the condition of
  `RepairTheorems.SuccessWindowReopens`. `RepairTheorems.SuccessOverwritesRejection`
  gives runs in which both happen.
- A goal edited while a finished turn is being judged gets the verdict about the
  objective it replaced (`Goals.EditWindow`).
- A commit that yields to newer material answers Repaired even when a rejection of
  that material is on record, exactly then with the account signed out
  (`RepairTheorems.YieldMayMislead`).
- A deletion that dies after the lock file is gone leaves a runtime that only the
  idle sweep takes up (`Runtimes.HalfDeletedWaits`).
- The gate can empty a provider group, exactly when all its views pay overage,
  none is admitted and one still reports plan headroom (`Gate.GroupSurvives`;
  `Gate.OverageEmptiesGroup` is such an input). An active usage window counts as
  saturated at any percentage (src/usage.rs:1283), so such a view does arise.
- Interpolating in two stages can differ from one pass: it agrees with it for
  every second lookup exactly when no bare reference the first stage leaves
  standing is followed, in that stage's result, by a character that continues
  its name (`Interpolate.StagesCompose`; `Interpolate.BareReferenceSwallows` is
  a text where they differ).

## Model

| member | source | states |
|---|---|---|
| Repair.InvRun | src/credentials.rs:1221-1303 | in every run the lock has one holder, recorded epochs were issued, and no rejection stands against a refresh in flight |
| RepairTheorems.OneRefreshPerMarker | src/credentials.rs:1234-1265 | two refreshes for one marker are always separated by an effective loss of a record of that marker's credential or by an outside write restoring it |
| RepairTheorems.SpentExactly | src/credentials.rs:1234-1303 | once a refresh for a marker has begun, exactly those events end the state in which no request can start another |
| RepairTheorems.ReopenedRefreshes | src/credentials.rs:1248-1260 | each such event leaves a state in which a later request carrying the marker refreshes again |
| RepairTheorems.LostRecordReopens | src/credentials.rs:1284-1301 | a crash, a failed value write or a failed record write during a refresh reopens its marker |
| RepairTheorems.RestoringWriteReopens | src/credentials.rs:1278-1283 | other material written during a refresh, the yielding commit and the old credential written back reopen its marker |
| RepairTheorems.UnrecordedLoginReopens | src/credentials.rs:1045-1066 | a login that stores the same material and dies or fails before its record leaves the old marker refreshable |
| RepairTheorems.SuccessKeepsMarker | src/credentials.rs:797-824 | a recorded success never moves the marker requests carry |
| RepairTheorems.CrowdRefreshesOnce | src/credentials.rs:1221-1303 | any number of repairers with the current marker and nothing else: exactly one refresh, and all return its outcome |
| RepairTheorems.DecideAnswers | src/credentials.rs:1229-1265 | when a repairer answers Rejected, Repaired or Unknown and when it refreshes, each by an exact condition on the marker it carries, the account's reading and the record |
| RepairTheorems.AnswersAreEarned | src/credentials.rs:1221-1303 | whoever is told Rejected finds the account signed out, whoever is told Repaired finds another marker than its own; giving up and logins answer as stated |
| RepairTheorems.YieldMayMislead | src/credentials.rs:1278-1283 | a yielding commit answers Repaired, with the account signed out exactly when a rejection of the newer material is on record |
| RepairTheorems.CommitReading | src/credentials.rs:1286-1303 | a recorded repair reads signed in, a rejection signed out, an unknown outcome unproven |
| RepairTheorems.ReadingsAreOnRecord | src/credentials.rs:1068-1087 | signed in and signed out are exactly a repair and a rejection on record for the stored material |
| RepairTheorems.SuccessCounts | src/credentials.rs:776-824 | exactly which reported successes are recorded, and that all others change nothing |
| RepairTheorems.UnauthenticatedOnlyByRejection | src/credentials.rs:1068-1087 | an account reads signed out only if a refresh of exactly the stored generation was rejected |
| RepairTheorems.RejectionIsSticky | src/credentials.rs:797-824 | a run keeps the account signed out throughout if and only if it records no login and stores no other material; successes, repairs, retries, failed writes and crashes change neither that nor the record |
| RepairTheorems.LoginLiftsRejection | src/credentials.rs:1045-1066 | a recorded login ends a rejection and starts a new marker even with the same tokens |
| RepairTheorems.RefreshHistory | src/credentials.rs:1269-1282 | while a refresh is out only outside writes touch the store: it holds the newest of them, else what the refresh found |
| RepairTheorems.CommitHonoursNewerWrites | src/credentials.rs:1278-1303 | a commit publishes value and record exactly when the newest outside write left the refreshed generation, and otherwise changes neither file; what each failing write leaves in both files and is answered |
| RepairTheorems.StoredIsLatestWrite | src/credentials.rs:1269-1302 | over any run the store holds the latest outside, login or uncontested refresh write |
| RepairTheorems.OtherDataIsOverwritten | src/credentials.rs:623-629 | whether an outside write survives a refresh already out is decided by its token material alone; its other data can be lost |
| RepairTheorems.CommitWindow | src/credentials.rs:1278-1298 | outside writes inside a commit: a refreshed value overwrites those before it, and the outcome is recorded against the last one after it |
| RepairTheorems.SuccessWindow | src/accounts.rs:1285 | a success written from an earlier read replaces whatever was recorded since: signed in with the earlier marker if the material is unchanged, unproven with the initial marker otherwise |
| RepairTheorems.RejectionSurvivesWindow | src/credentials.rs:797-824 | a rejection recorded inside that window survives if and only if the success read no credential or a rejection of it |
| RepairTheorems.SuccessWindowReopens | src/credentials.rs:797-824 | the exact condition under which that write makes a spent marker refreshable again |
| RepairTheorems.SuccessOverwritesRejection | src/accounts.rs:1285 | runs, with the material changed or not, in which a rejection is lost and its marker reopened, while the same success as one action keeps the rejection |
| RepairTheorems.MarkerTextInjective | src/credentials.rs:674-680 | equal marker texts are equal generations and epochs |
| Runtimes.InvRun | src/credentials.rs:164-214 | in every run stages, locks and directories agree: one allocator, one holder per directory lock |
| Runtimes.OwnedSurvives | src/credentials.rs:167-180 | a directory leaves its owner, in creation or live, exactly by that owner's own exit, crash or failed creation |
| Runtimes.LiveRuntimeStays | src/credentials.rs:115-144 | in every reachable state a finished runtime stays, locked by its owner, until that owner exits or dies, whatever else runs |
| Runtimes.CleanExitRemoves | src/credentials.rs:223-227 | a clean exit that succeeds takes its own directory, no other, and it never comes back |
| Runtimes.LeavingReleases | src/credentials.rs:112-114 | an exit starts deleting its directory; a crash leaves it for a sweep |
| Runtimes.FailedCreation | src/credentials.rs:191-208 | what a failed creation leaves behind |
| Runtimes.HalfDeletedWaits | src/credentials.rs:223-227 | a deletion that dies half way leaves a directory without a lock file |
| Runtimes.ExamineTakes | src/credentials.rs:120-142 | exactly which directories a sweep takes up |
| Runtimes.SweepReclaims | src/credentials.rs:115-144 | in every reachable state a sweep that ends with its removals succeeding leaves no directory that had a lock file and a dead owner when it began |
| HeadroomSpec.TrimmedLength | src/headroom.rs:517-525 | trimming an already trimmed deque leaves exactly the full history's window |
| HeadroomSpec.CordonAnswerUnique | src/headroom.rs:465-504 | the history alone determines the remaining time and reason of a cordon |
| HeadroomSpec.CordonHolds | src/headroom.rs:465-504 | each cordon lasts its whole time; the agent is free exactly from the end of the last, and told the reason of the first longest |
| HeadroomSpec.HeadroomMeaning | src/headroom.rs:560-577 | the estimate in plain arithmetic: zero, one, and equal shares of the budget in between |
| HeadroomSpec.ThresholdQuarantines | src/headroom.rs:597-608 | a failure completing the threshold within the window quarantines until its cool-off ends, whatever arrives meanwhile |
| HeadroomSpec.BelowThreshold | src/headroom.rs:603-608 | any other failure changes no quarantine |
| HeadroomSpec.CheckClears | src/headroom.rs:619-634 | a check clears the strikes exactly when it finds a quarantine they brought run out |
| HeadroomSpec.LatestPolledMeaning | src/headroom.rs:231-240 | the last poll that spoke decides; one that observed the agent without listing the candidate frees it |
| HeadroomSpec.QuarantineLifts | src/headroom.rs:619-634 | without new failures a quarantine lifts after at most one cool-off |
| HeadroomSpec.LapseNeedsFreshThreshold | src/headroom.rs:625-631 | after an observed lapse, fewer than a threshold of new failures never quarantines again |
| Headroom.HeadroomTracker.Trim | src/headroom.rs:517-525 | the popping loop drops exactly the stale front |
| Headroom.HeadroomTracker.CordonAt | src/headroom.rs:465-486 | extends the agent's call history; the one stored entry keeps standing for all of it |
| Headroom.HeadroomTracker.CordonActiveAt | src/headroom.rs:492-504 | cordoned exactly when some past call is live, for the longest one's remaining time and the reason of the first call attaining it |
| Headroom.HeadroomTracker.RecordPromptAt | src/headroom.rs:535-537 | extends the full prompt history the deque stands for |
| Headroom.HeadroomTracker.RecordExhaustedAt | src/headroom.rs:549-553 | extends the full exhaustion history the single instant stands for |
| Headroom.HeadroomTracker.HeadroomAt | src/headroom.rs:560-577 | the estimate equals the full-history definition: zero under a live cordon or recent exhaustion, else the unused share of the budget |
| Headroom.HeadroomTracker.Budget | src/headroom.rs:562 | the configured budget, 400 without one, never below one |
| Headroom.StrikeAppend | src/headroom.rs:597-608 | a trimmed strike entry and its deadline stand for all failures since the last clear after one more |
| Headroom.HeadroomTracker.RecordPrePromptFailureAt | src/headroom.rs:597-616 | the strikes grow by the failure; with `quarantineFailures` of them within `window` the candidate is out for exactly `quarantineCooloff`, otherwise nothing changes |
| Headroom.HeadroomTracker.IsQuarantinedAt | src/headroom.rs:619-634 | quarantined exactly when, since the last clear, some failure completed a threshold in its window within the cool-off; the strikes are cleared exactly on a lapse |
| Headroom.HeadroomTracker.ReconcileUsageCordons | src/headroom.rs:231-240 | what is stored and unexpired is what the latest poll that spoke about each candidate said |
| Headroom.HeadroomTracker.CordonCandidate | src/headroom.rs:247-273 | the stored reactive cordon is the first longest one ever reported |
| Headroom.HeadroomTracker.CordonModelOutage | src/headroom.rs:277-305 | the stored outage is the first longest one ever reported |
| Headroom.HeadroomTracker.ModelOutage | src/headroom.rs:308-312 | an outage is in force exactly when some report is live, and it is the longest |
| Headroom.HeadroomTracker.UsageCordonAt | src/headroom.rs:319-337 | blocked exactly when the latest poll that spoke or a reactive cordon is live, hard exactly when a live source is, until the last such source resets, a tie going to the poll |
| Auth.TrackerIsHistory | src/auth.rs:54-147 | after any calls the tracker holds each agent's last observed generation and exactly the evidence of a call that no later call displaced or discarded |
| Auth.OneInForce | src/auth.rs:54-147 | at most one call is in force per agent |
| Auth.ReadingIsHistory | src/auth.rs:54-64 | the answer about an agent is the verdict of the call in force, a negative one with its reason and for 900 seconds only; unknown without one |
| Auth.StepReading | src/auth.rs:66-147 | what each kind of call does to the answers about its agent, and that it changes no other's |
| Auth.AuthTracker.Availability | src/auth.rs:54-64 | the reader of the class gives that answer |
| Auth.TiedEvidenceIsCurrent | src/auth.rs:93-110 | in every reachable tracker, tied evidence is about the generation observed now |
| Auth.LateResultsAreInert | src/auth.rs:125-147 | erasing every result that came for another generation, wherever it came, changes no tracker and no availability |
| Auth.TiedEvidenceStands | src/auth.rs:66-80 | ordinary generation-less evidence, late or empty results and repeated reads never displace tied evidence |
| Auth.AuthTracker.SetEvidence | src/auth.rs:66-80 | the class method is the specified step and keeps the invariant |
| Auth.AuthTracker.Force | src/auth.rs:82-91 | replaces the evidence without a generation |
| Auth.AuthTracker.ObserveGeneration | src/auth.rs:95-110 | a changed generation discards what was known before |
| Auth.AuthTracker.ClearCurrentGeneration | src/auth.rs:114-123 | forgets the generation and only the evidence tied to one |
| Auth.AuthTracker.SetWithGeneration | src/auth.rs:127-147 | accepts evidence for the observed generation only |
| Auth.AuthTracker.NoteFromUsageWithGeneration | src/auth.rs:382-435 | after a live credential read with a verdict the agent stands on exactly that evidence and generation |
| Gate.Prioritize | src/accounts.rs:252-298 | the two retain passes and the minimum loop compute the specified gate |
| Gate.SubList | src/accounts.rs:270-297 | the result is the input with some views left out, in order |
| Gate.AdmittedStays | src/accounts.rs:271-288 | an admitted candidate always passes |
| Gate.Idempotent | src/accounts.rs:252-298 | a second pass changes nothing |
| Gate.SurvivorsAreFirst | src/accounts.rs:278-297 | no survivor but the admitted one has a worse priority than an eligible account of its provider |
| Gate.PassesExactly | src/accounts.rs:252-298 | a view passes if and only if it is admitted, or neither spends overage while a fellow has plan left nor has an eligible fellow of better priority |
| Gate.SeatsShareGroup | src/accounts.rs:257-261 | accounts are grouped by provider, else by the name before the `@` |
| Gate.GroupSurvives | src/accounts.rs:263-297 | a provider group keeps a candidate exactly unless all its views pay overage, none is admitted and one reports plan headroom |
| Gate.OverageEmptiesGroup | src/accounts.rs:263-277 | one account on overage with plan headroom left: its provider loses its only candidate |
| Gate.NoGroupIsLost | src/accounts.rs:263-297 | when overage means the plan is spent, no provider loses its last candidate |
| ConfigMerge.KeepRouterAccounts | src/config_admin.rs:300-354 | the loops compute the specified merge; the resulting document keeps every other setting of the host, every account in place and every other agent |
| ConfigMerge.DocumentIsKept | src/config_admin.rs:294-354 | the same of the merge itself: unchanged without live agents; else each account in its place with its identity and its offer's settings, the rest proposed, no account and of distinct names |
| ConfigMerge.OfferIsFirst | src/config_admin.rs:316-323 | which proposed entry supplies an account's settings |
| ConfigMerge.ProviderByName | src/config_admin.rs:267-279 | entries polled for usage or named after a provider are that provider's |
| ConfigMerge.ProviderByCommand | src/config_admin.rs:279-288 | adapters are known by their file name in any directory |
| ConfigMerge.RestoreFields | src/config_admin.rs:330-344 | each router-owned field is taken from the live entry, absent if absent there except that a plan label may then stay the offer's; every other field is the offer's |
| ConfigMerge.AccountsSurvive | src/config_admin.rs:294-354 | every live account survives in live order with name, provider and router-owned fields; no other entry of the result is an account |
| ConfigMerge.AccountTakesOffer | src/config_admin.rs:316-344 | every other field of a merged account is the host's |
| ConfigMerge.OthersAreKept | src/config_admin.rs:345-353 | a proposed agent that is no account is kept unless its name is taken |
| ConfigMerge.MergeIsIdempotent | src/config_admin.rs:300-354 | merging twice against the same live document equals merging once |
| Interpolate.Interpolate | src/config.rs:1929-1968 | the loop computes the token-by-token expansion |
| Interpolate.BareReference | src/config.rs:1943-1967 | `$name` is replaced up to the end of the shell identifier |
| Interpolate.BracedReference | src/config.rs:1939-1967 | `${name}` is replaced whatever follows |
| Interpolate.EscapeStays | src/config.rs:1934-1938 | `$$` stays |
| Interpolate.DollarStays | src/config.rs:1951-1955 | a `$` before anything that starts no name stays |
| Interpolate.UnclosedStays | src/config.rs:1940-1942 | everything from an unclosed brace on stays |
| Interpolate.UnknownLeavesTextAlone | src/config.rs:1919-1924 | a lookup that knows nothing leaves every text as it is |
| Interpolate.StagesCompose | src/config.rs:1926-1968 | with no `$` in inserted values, two stages equal one pass with both lookups, for every second lookup, if and only if no bare unknown reference swallows what the first stage leaves behind it |
| Interpolate.BracedStagesCompose | src/downstream.rs:75-77 | environment first, `${model_id}` second equals one pass when every reference is braced |
| Interpolate.BareReferenceSwallows | src/config.rs:1948-1961 | a bare unknown name swallows text inserted right after it, so the condition is needed |
| Base64Url.DecodePayload | src/accounts.rs:203-226 | the loop computes the specified decoding |
| Base64Url.NoNeededBitIsLost | src/accounts.rs:219-224 | for every input the 32-bit accumulator emits what an unbounded one would |
| Base64Url.RoundTrip | src/accounts.rs:203-226 | decoding inverts the encoding of section 5 of RFC 4648 for every byte string, padded or not |
| Base64Url.DecodesExactly | src/accounts.rs:209-218 | decoding fails exactly on a character outside the alphabet before the padding, and yields one byte per eight bits |
| Base64Url.AlphabetExactly | src/accounts.rs:210-217 | the values are those of Table 2 of RFC 4648, and no other character has one |
| Glob.GlobMeaning | src/candidate.rs:517-529 | a pattern matches exactly the texts obtained by choosing a text for every star, up to ASCII case |
| Glob.SameExactly | src/candidate.rs:523 | bytes compare equal, or as the two cases of one ASCII letter |
| Glob.ScoresByName | src/candidate.rs:495-513 | an agent has the scores of the first pattern matching `agent/model`, else the defaults |
| Glob.SeatScoresByName | src/candidate.rs:499-509 | an account has those of the first pattern matching either name |
| Glob.SeatScoresAsBase | src/candidate.rs:495-513 | an account seat scores as its base agent unless an entry before the base agent's match names the seat |
| Verdicts.AffirmedWithProof | src/goals.rs:125-148 | whatever precedes it, an affirming line, one of the proof labels or none, and a proof none of whose lines affirms give that verdict with exactly that proof, or none below forty non-blank characters |
| Verdicts.AffirmedAsAsked | src/goals.rs:151-166 | `GOAL: MET` and `GOAL: UNMEETABLE` tails with a proof of at least forty non-blank characters give Met and Unmeetable, shorter ones nothing |
| Verdicts.MarkedUpAffirms | src/goals.rs:151-166 | either label, any case, stars, stops, bold and code all affirm |
| Verdicts.AffirmsOnly | src/goals.rs:151-166 | only lines that say nothing but label and word affirm |
| Verdicts.LineEndings | src/goals.rs:126 | both line endings end a line |
| Verdicts.VerdictCarriesProof | src/goals.rs:125-148 | every verdict but Open rests on the last affirming line and carries at least forty non-blank characters |
| Goals.Session.AfterTurn | src/goals.rs:396-453 | a normal turn on an active goal makes it met exactly by a Met verdict and unmeetable exactly by an Unmeetable one; any other turn changes nothing |
| Goals.AffirmedTurnSettles | src/goals.rs:411-417 | the asked-for reply settles an active goal as it says and ends the continuing |
| Goals.SettledOnlyByAffirmation | src/goals.rs:396-449 | over any run a goal becomes met or unmeetable only at a normal turn whose last affirming line says so |
| Goals.GoalIsLastEdit | src/goals.rs:284-322 | a session has the goal of the last accepted edit, trimmed, with its kickoff due until a turn or restore |
| Goals.Session.constructor | src/session.rs:537-544 | a restored session resumes its goal with its count at zero |
| Goals.Session.StartClientTurn | src/session.rs:10402-10411 | a client prompt starts the count over and reactivates a stalled goal |
| Goals.Session.Control | src/goals.rs:351-388 | an edit replaces or clears the goal; a blank objective is refused |
| Goals.ContinuationsAreBounded | src/goals.rs:411-446 | over any mixture of turns, client prompts, restores and edits the goal's count is the number of continuations sent since the last reset and never passes twelve; each continuation carries its number |
| Goals.TwelvePerReset | src/goals.rs:52-54 | at most twelve continuations per client turn, restore or edit, over whole runs |
| Goals.SettledStep | src/session.rs:10402-10411 | a settled goal never continues, and loses its status exactly by an accepted edit or, when stalled, a client prompt |
| Goals.SettledStaysSettled | src/goals.rs:396-409 | a goal keeps a settled status throughout if and only if no such step happens, and then keeps its objective and is never continued |
| Goals.UnaffirmedGoalStalls | src/goals.rs:417-436 | after a client prompt, an agent that never affirms is continued exactly twelve times, then the goal is stalled |
| Goals.EditWindow | src/goals.rs:396-449 | an edit between the check's read and its write receives the verdict about the old objective |

## Left out

- Provider refresh calls, token layouts, keychain shim, permissions and process spawning: foreign calls; a refresh is any outcome.
- Older routers (`migrate_record`, legacy lock files, legacy runtime directories): they would only add steps of another version.
- Repair.Step: a commit's reads and writes are one action, so the window between its check and its publication is not interleaved; `RepairTheorems.CommitWindow` states its effect.
- Runtimes.Step: the idle test for directories without a lock file is free, so a sweep may remove any of them; the six-hour limit itself is not modelled.
- Headroom.HeadroomTracker.HeadroomAt: floating-point rounding is not modelled; session counts and rate-limit instants, which nothing reads, are not kept.
- Seat availability, hints, overage permissions and `seat_budget`: per-call arithmetic without a history.
- Provider detection in the gate: `Gate` takes each agent's provider as given; `ConfigMerge` models detection on entries.
- `save_document`, presets, validation and YAML: independent checks outside the merge.
- The JSON parse of the decoded JWT payload and the splitting of the token.
- Goals.Session.AfterTurn: its read and its write are one action; `Goals.EditWindow` states what an edit in between does.
- Goal notices, native goal modes and prompts: user interface.
- Planner, sessions, proxy, strategies, classifier and state database: outside the authorities modelled here.
