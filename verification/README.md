# Orkano: a verified model

Orkano is a self-hosted platform on k3s: an installer, a `doctor` that runs security
checks, and a dashboard. This project models the parts of it whose correctness is
not visible in any one function, and proves what their comments, tests and design
promise, for every input, every run and every interleaving.

| files | what they model |
|---|---|
| `CheckGraph`, `CheckRegistry` | planning the checks: the requirement graph, and Kahn's algorithm with the registration-order tie-break |
| `CheckRun`, `CheckScore` | running the checks, fixing what failed and running again; the score and the exit codes |
| `LogStream` | merging the logs of several pods into one event stream over a bounded channel |
| `Auth`, `AuthSafety` | signing in to the dashboard: redeem, enroll, log in, second factor, single sign-on, step-up |
| `AllowlistUpdate` | the audited, optimistic update of the repository allowlist |
| `RateLimiter` | the in-memory limiter with lazy eviction |
| `EnsureFile`, `Base64` | writing a file on a node in chunks, then renaming it into place |
| `AllowlistSeed` | seeding the allowlist once, and carrying a legacy policy over across crashes |
| `RepoAllowlist`, `ManifestNames`, `HostsFile` | the allowlist's text form, AddOn file names, the `/etc/hosts` rewrite |
| `SourceArchive` | the size, ratio and path rules for uploaded ZIP archives |
| `NetpolProbe` | the NetworkPolicy canary retry loop |
| `Sorting`, `Slices`, `Text`, `Wrappers` | sequences, strings and options the others share |

Verify it with `dafny verify dfyconfig.toml` (Dafny 4.11).

## How it is modelled

Objects that update their fields are classes (`Registry`, `Limiter`, `Node`), and
loops are loops with invariants; each is proved equal to a specification function or
to a property stated outright. Code that runs beside other code is a state machine:
`Enabled` says when a step can be taken, `After` what it does, `Leads` that a sequence
of steps goes from one state to another, and the main theorems are about every state
that a sequence of steps reaches.

What the outside world decides becomes a parameter:

- what a probe or a fix comes to (answer, error, panic, cancelled context), by place in
  the run and by check;
- the clock, which is an argument of each call or a step of its own. It never goes
  back in `RateLimiter`'s bounds and in `Auth`;
- which command of the installer fails, is cut off half-way, or succeeds without saying so;
- what a pod's log reader reads, and which ready branch a `select` takes;
- what each batch of canaries observes.

In `Auth` every step says what was presented and whether it was right, and is put into
a log before its handler looks at it; the log is the run itself (`LogIsTheRun`), so no
handler can add to it. Guards of steps hold what the world decides; what a handler
checks is in the handler. The theorems are about events of that log.

Assumptions of `Auth`: a sealed cookie opens only if the server sealed it; a password
verifies only against its own hash; session tokens are never drawn twice; one SQL
statement, and the `CreateAdmin` transaction, is one step; the unique indexes (folded
user name, identity, the single confirmed administrator) belong to the store. The
sweep inside `CreateAdmin` may see any subset of the unconfirmed local rows. In an
OIDC step-up the code compares the subject only, so the model does too.
`AllowlistUpdate` lets a policy text stand for its hash and has the
Kubernetes API reject an update whose resourceVersion is stale.

## Where a promise and the code differ

- Rate limiting. A budget of `max` per window allows up to `2 * max - 1` calls in an
  interval of one window length: `LessThanTwiceTheBudget` is the bound, `BoundIsReached`
  reaches it for every `max`. Eviction is invisible as long as the clock never goes
  back, which Go's monotonic `time.Now` ensures; with an injected clock that does,
  `EvictionShowsWhenTheClockGoesBack` gives three calls where it shows.
- Log streaming. `eof` says that every stream ended. When the request is cancelled while
  a reader still has something to send, it can be written with events missing
  (`EndAfterCancelMayBeShort`). Logs are complete exactly when no reader dropped an event
  (`EndCompleteIff`), and always when the readers had finished before the cancellation
  (`EndCompleteOnceFinished`); a cancellation while the writer drains does no harm.
- Compression ratio. The test multiplies in 64 bits. It never accepts a file over the
  ratio (`RatioIsSound`). On the sizes that reach it, it is the ratio test exactly when
  the product does not wrap, or wraps to no less than the size limit
  (`RatioIsExactIff`); `RefusedWithinRatio` is an archive of one file within the ratio
  that is refused.
- The comment on `renderHosts` says every other line is kept. `LinesKeptIff` says when:
  exactly if the unmarked lines end in one blank line, or are two of them; `LineLost` is
  a text that loses one.
- `/etc/hosts` is written in place, without a temporary file. `EnsureInPlace` says when
  it is left with neither the old content nor the new: exactly when the write is cut off
  with something else in place.

## Model

| member | source | states |
|---|---|---|
| `CheckRegistry.Registry.Register` | internal/checks/registry.go:53-78 | registers exactly the checks with an id, a probe, a known severity and a new id; appends to the order, de-duplicates the requirements, and changes nothing on an error; which error when |
| `CheckRegistry.FirstOccurrences` | internal/checks/registry.go:82-96 | no repetition, same members |
| `CheckRegistry.FirstOccurrencesKeepOrder` | internal/checks/registry.go:82-96 | what stays is in order of first occurrence |
| `CheckRegistry.Dedupe` | internal/checks/registry.go:82-96 | the loop over a seen-set keeps the first occurrences |
| `CheckRegistry.Registry.Plan` | internal/checks/registry.go:123-176 | refuses a missing requirement exactly when there is one, naming the first; succeeds exactly on closed acyclic graphs; the result is the greedy order, a topological order, and no later than any topological order by registration index; the stuck ids of a refusal are exactly the checks from which a requirement path reaches a cycle, in registration order |
| `CheckRegistry.Registry.CountRequirements` | internal/checks/registry.go:124-140 | in-degrees are the numbers of requirements, the dependents table lists who requires whom, and the first missing requirement is found if there is one |
| `CheckRegistry.Registry.EmitNext` | internal/checks/registry.go:142-163 | one round emits the earliest-registered available check and keeps the in-degree and ready-list invariant |
| `CheckRegistry.Registry.EmitAll` | internal/checks/registry.go:142-163 | the queue loop emits the greedy order and leaves nothing ready |
| `CheckRegistry.Registry.OrderOrStuck` | internal/checks/registry.go:142-176 | all checks are emitted exactly when the graph is acyclic; otherwise the checks left with a positive in-degree are those that reach a cycle |
| `CheckRegistry.ProgressAfter` | internal/checks/registry.go:152-163 | the in-degree and ready-list invariant after a round |
| `CheckGraph.LeftOutExactlyCyclic` | internal/checks/registry.go:165-174 | repeatedly emitting an available check leaves out exactly the checks that reach a cycle |
| `CheckGraph.GreedyCompleteIffAcyclic` | internal/checks/registry.go:123-176 | it emits everything exactly when the graph is acyclic, and then in topological order |
| `CheckGraph.GreedyIsLeast` | internal/checks/registry.go:142-163 | its order is the least topological order by registration index |
| `CheckGraph.StuckReachesCycle` | internal/checks/registry.go:165-174 | where everything waits for something that waits, a cycle is reached |
| `CheckRun.RunSettles` | internal/checks/run.go:67-102 | in a run, each outcome is the one its requirements' outcomes and its own probe call for |
| `CheckRun.ProbedIffAllPassed` | internal/checks/run.go:67-102 | a check is handed to its probe exactly when everything it requires, directly or not, passed |
| `CheckRun.BlockedIffRefusedBehind` | internal/checks/run.go:67-102 | a check is blocked exactly when something it requires, directly or not, was probed and failed or errored |
| `CheckRun.PassedOverIff` | internal/checks/run.go:67-102 | a check is skipped unprobed exactly when it is not blocked and something it requires was probed and does not apply |
| `CheckRun.OrderDoesNotMatter` | internal/checks/run.go:67-102 | probes that answer alike give the same outcomes under every topological order |
| `CheckRun.ScanNeeds` | internal/checks/run.go:76-87 | the hard blockers in order, and the skipped requirements |
| `CheckRun.RunOne` | internal/checks/run.go:67-102 | one check's report, and that it was probed exactly when all its requirements passed |
| `CheckRun.RunInOrder` | internal/checks/run.go:67-102 | the loop over results so far makes the reports of the whole order |
| `CheckRun.RunMeans` | internal/checks/run.go:67-102 | the three characterisations above hold of every check of a run |
| `CheckRun.Run` | internal/checks/run.go:58-104 | runs exactly when the plan succeeds; results come in plan order; every outcome means what it should over the whole requirement graph; each result carries the registered severity, summary, remediation and fixable flag, and names its hard blockers in order |
| `CheckRun.BlockersOfPlan` | internal/checks/run.go:76-92 | the blockers named are the requirements that ended neither passed nor skipped, by the outcomes of the whole run |
| `CheckRun.FailureBehindPasses` | internal/checks/fix.go:45-56 | behind a failure everything required had passed |
| `CheckRun.ApplyFixes` | internal/checks/fix.go:45-56 | the failed results that have a fix are tried, in order, and errors recorded |
| `CheckRun.FixesAreSound` | internal/checks/fix.go:45-56 | only checks that failed with all their transitive requirements passed are fixed |
| `CheckRun.FixesAreAll` | internal/checks/fix.go:45-56 | every failed check that has a fix is tried |
| `CheckRun.RunAndFix` | internal/checks/fix.go:39-75 | the sound fixes and all of them; the results are of the second run, or of the first when nothing was tried; an attempt is resolved exactly when its check passes then |
| `CheckScore.ScorePercent` | internal/checks/score.go:73-92 | within 0 to 100; 100 only for everything, 0 only for nothing |
| `CheckScore.ComputeScore` | internal/checks/score.go:35-51 | the loop's four sums and the score |
| `CheckScore.Possible` | internal/checks/score.go:35-51 | nothing is possible only when all is skipped; everything possible is earned only when all else passed |
| `CheckScore.ScoreExtremes` | internal/checks/score.go:35-92 | 100 exactly when everything that applies passed, 0 exactly when something applies and nothing passed |
| `CheckScore.ScoreNearest` | internal/checks/score.go:73-92 | otherwise the score is a nearest one, among 1 to 99, to the exact percentage |
| `CheckScore.PercentMonotone` | internal/checks/score.go:73-92 | a greater fraction never scores less |
| `CheckScore.ImprovingNeverLowers` | internal/checks/score.go:35-92 | turning a scored non-pass into a pass or a skip never lowers the score |
| `CheckScore.ExitCode` | internal/checks/run.go:207-221 | critical exactly when a critical check failed; indeterminate exactly when none did and one is unknown |
| `CheckScore.GateExitCode` | internal/doctor/report.go:27-32 | a missed minimum is critical; a met one leaves the exit code as it was, critical, indeterminate or 0; with minimum 100 it is 0 exactly when every outcome is pass or skip |
| `LogStream.StepKeeps` | dashboard/internal/server/logs.go:278-359 | every step of a reader, the closer, the writer or the client keeps the invariant |
| `LogStream.WrittenIsPrefix` | dashboard/internal/server/logs.go:285-359 | at every moment what was written of a pod is an in-order prefix of what its reader produced |
| `LogStream.EndMeansComplete` | dashboard/internal/server/logs.go:324-359 | `eof` written with the request live means every reader finished and all its events were written |
| `LogStream.EndCompleteIff` | dashboard/internal/server/logs.go:283-359 | after `eof`, every log is written in full exactly when no reader gave up on a send or kept a broken stream to itself |
| `LogStream.EndCompleteOnceFinished` | dashboard/internal/server/logs.go:324-359 | `eof` is the truth whenever the readers had finished before the request was cancelled, whatever was cancelled later |
| `LogStream.EndAfterCancelMayBeShort` | dashboard/internal/server/logs.go:324-359 | with the request cancelled `eof` may be written without an event that was read |
| `LogStream.OneLineIsReached` | dashboard/internal/server/logs.go:296-322 | the state that example starts from is reached |
| `LogStream.ReaderStepsBounded` | dashboard/internal/server/logs.go:283-322 | after the handler returned, whatever its reads come to and however steps interleave, a reader takes at most twice the channel depth plus four steps |
| `LogStream.UnfinishedCanMove` | dashboard/internal/server/logs.go:283-322 | a reader that has not finished then waits for nobody but its own read |
| `LogStream.ReadersFinish` | dashboard/internal/server/logs.go:278-325 | so no reader outlives the handler: in every run after a return that was reached, when no reader has a step left all have finished and the closer has closed or can |
| `LogStream.AfterReturn` | dashboard/internal/server/logs.go:278-293 | after the handler returned nothing more is written, and no more events are sent than the channel has room for |
| `AuthSafety.StepKeeps` | dashboard/internal/server/auth.go:130-547 | every statement of every handler keeps the invariant behind the theorems below |
| `AuthSafety.SessionsAreEarned` | dashboard/internal/server/auth.go:130-436 | every session ever minted stands for events before the mint: a redeem of the right token for this row's name and password and a right code within the enrollment challenge; this row's password and, within the lifetime of the challenge it earned, a right code or a recovery code used up by that event; or a verified, allowlisted identity, in time and of the flow it began, that is the row's own |
| `AuthSafety.SignInsAreNotShared` | dashboard/internal/server/auth.go:221-436 | no two sessions were minted by the same code or callback |
| `AuthSafety.RowsAreMinted` | dashboard/internal/server/session.go:48-61 | a session row is one that was minted, for that user, and its re-authentication time is that of a stamp made on it |
| `AuthSafety.LogIsTheRun` | dashboard/internal/server/auth.go:130-547 | the log those events are of is the run: every step, in order, and nothing else |
| `AuthSafety.StampsAreEarned` | dashboard/internal/server/oidc.go:222-270 | every stamp ever made on a session was begun with that session's token after its mint, and followed a right code (and a right password, if given) in that very handler, or a verified callback, of the owner's own subject, of the flow that token started |
| `AuthSafety.StepUpsAreNotShared` | dashboard/internal/server/auth.go:460-511 | no two stamps were made by the same code or callback, nor by one that minted a session |
| `AuthSafety.AtMostOneEverConfirmed` | internal/db/users.sql.go:14-16 | over a whole run at most one user is ever confirmed, and a confirmation stays |
| `AuthSafety.EstablishedStay` | internal/db/users.sql.go:139-141 | confirmed and single sign-on rows are never removed, renamed, re-bound or given another password |
| `AuthSafety.OnlyConfirmedAreCounted` | dashboard/internal/server/auth.go:341-348 | unconfirmed and single sign-on rows never have failed logins or a lock |
| `AuthSafety.RecoveryCodesAreSingleUse` | internal/db/recovery_codes.sql.go:12-17 | no recovery code of a user is accepted twice |
| `AuthSafety.OpensInTime` | dashboard/internal/server/auth.go:587-604 | a cookie that is usable, though its expiry is kept in whole seconds, is within its lifetime |
| `AuthSafety.CreateAdminKeeps` | dashboard/internal/server/store.go:85-121 | the redeem transaction keeps the invariant, whichever abandoned rows it sweeps |
| `AuthSafety.FoundKeeps` | dashboard/internal/server/oidc.go:276-315 | resolving an identity to a row keeps the invariant |
| `AuthSafety.MintKeeps` | dashboard/internal/server/session.go:48-61 | minting a session keeps the invariant |
| `AllowlistUpdate.StepKeeps` | dashboard/internal/server/repo_allowlist.go:48-158 | every step of every update request, and every outside write, keeps the invariant |
| `AllowlistUpdate.WritesAreIntendedAndExact` | dashboard/internal/server/repo_allowlist.go:80-106 | every write follows an attempt entry with its policy, and replaces exactly the version its client named, by the handler's comparison with the version it fetched |
| `AllowlistUpdate.AtMostOneWritePerVersion` | dashboard/internal/server/repo_allowlist.go:80-106 | two writes never name the same version |
| `AllowlistUpdate.Answer200MeansStored` | dashboard/internal/server/repo_allowlist.go:80-158 | a 200 means the stored policy equalled the request at some moment after its attempt entry, and a success entry followed, also when the update errored after applying |
| `RateLimiter.Limiter.Allow` | dashboard/internal/server/ratelimit.go:51-68 | the decision and the new counts; afterwards only windows that have not elapsed are kept |
| `RateLimiter.Limiter.EvictElapsed` | dashboard/internal/server/ratelimit.go:72-78 | drops exactly the elapsed windows |
| `RateLimiter.EvictionIsInvisible` | dashboard/internal/server/ratelimit.go:51-78 | with a clock that never goes back, the decisions are those of a limiter that forgets nothing |
| `RateLimiter.EvictionShowsWhenTheClockGoesBack` | dashboard/internal/server/ratelimit.go:51-78 | with one that does they may differ |
| `RateLimiter.AlwaysPaced` | dashboard/internal/server/ratelimit.go:51-68 | what an address's window says about all calls allowed to it so far |
| `RateLimiter.LessThanTwiceTheBudget` | dashboard/internal/server/ratelimit.go:51-68 | fewer than twice the budget are allowed in any half-open interval of one window length |
| `RateLimiter.BoundIsReached` | dashboard/internal/server/ratelimit.go:51-68 | for every budget, one less than twice it is reached |
| `Base64.RoundTrip` | internal/install/ensure.go:11-22 | decoding an encoding (section 4 of RFC 4648) gives the bytes back |
| `Base64.CutEncoding` | internal/install/ensure.go:11-22 | an encoding cut at a multiple of four symbols is two encodings |
| `EnsureFile.PieceDecodes` | internal/install/ensure.go:11-22 | each chunk decodes on its own to the bytes it stands for |
| `EnsureFile.Node.WriteInline` | internal/install/ensure.go:120-128 | wherever it stops, the file is as before or complete, and complete on success |
| `EnsureFile.Node.TeeChunks` | internal/install/ensure.go:134-150 | the chunks appended one by one make up the content |
| `EnsureFile.Node.WriteChunked` | internal/install/ensure.go:134-153 | wherever it stops, the file is as before or complete, and complete on success |
| `EnsureFile.Node.Ensure` | internal/install/ensure.go:46-67 | old content or all of the new, whatever fails; nothing else but the temporary file changes; content in place means nothing is written |
| `EnsureFile.Node.EnsureInPlace` | internal/install/registry.go:171-189 | rewriting /etc/hosts in place: the rendered content on success, nothing written when it is there; old or rendered content exactly unless the write is cut off with something else in place |
| `AllowlistSeed.ScanContainer` | internal/install/repo_allowlist.go:60-75 | the scan of a container's variables for the one literal legacy variable |
| `AllowlistSeed.ReadLegacyPolicy` | internal/install/repo_allowlist.go:24-85 | the legacy policy of a receiver, none, or which of the errors, from an unreadable answer on |
| `AllowlistSeed.LiveAllowlistStays` | internal/install/repo_allowlist.go:90-127 | no installer run ever alters an allowlist that is there |
| `AllowlistSeed.LegacyPolicyCarriedOver` | internal/install/install.go:228-262 | over any runs stopped anywhere, the legacy policy is on the receiver or in the allowlist at every moment, and in the allowlist, in normal form, after a completed run |
| `AllowlistSeed.SurvivesStep` | internal/install/install.go:228-331 | every command and every controller action keeps it |
| `AllowlistSeed.EmptyNormalForm` | internal/install/install.go:228-235 | a seed of blank entries is no seed |
| `AllowlistSeed.SeededTextReadsBack` | internal/install/repo_allowlist.go:90-103 | what was seeded parses as the legacy policy |
| `RepoAllowlist.Normalize` | internal/repoallowlist/repoallowlist.go:31-57 | accepts exactly the lists within the limits whose entries are repositories; the result is strictly sorted and is the set of trimmed, lower-cased, non-blank entries; what each error says is true |
| `RepoAllowlist.NormalFormUnique` | internal/repoallowlist/repoallowlist.go:31-57 | there is only one such result |
| `RepoAllowlist.NormalFormCanonical` | internal/repoallowlist/repoallowlist.go:31-57 | its entries are repositories in lower case, and not too many |
| `RepoAllowlist.NormalizeIdempotent` | internal/repoallowlist/repoallowlist.go:31-57 | normalizing twice is normalizing once |
| `RepoAllowlist.OrderDoesNotMatter` | internal/repoallowlist/repoallowlist.go:31-57 | a permuted list is accepted alike and has the same normal form |
| `RepoAllowlist.Format` | internal/repoallowlist/repoallowlist.go:65-74 | the text of the normal form |
| `RepoAllowlist.Parse` | internal/repoallowlist/repoallowlist.go:60-62 | the normal form of the text's lines |
| `RepoAllowlist.ParseFormat` | internal/repoallowlist/repoallowlist.go:60-74 | formatting and parsing is normalizing |
| `RepoAllowlist.ManifestFits` | internal/install/repo_allowlist.go:105-137 | the encoded manifest of any accepted list fits the inline limit |
| `ManifestNames.ManifestFilename` | internal/install/install.go:511-546 | the loop over a builder makes the words of the path joined by dashes, or which error |
| `ManifestNames.NamesAreValid` | internal/install/install.go:511-573 | every name given passes the checks made of one file and has no doubled dash |
| `ManifestNames.NamesAreFixed` | internal/install/install.go:511-546 | a name given names itself |
| `ManifestNames.ValidateManifestFiles` | internal/install/install.go:548-573 | accepts exactly the sets of valid names with different stems; otherwise the error is that of the first file that is wrong |
| `ManifestNames.CheckName` | internal/install/install.go:550-566 | the first thing wrong with one name; nothing exactly when it is valid |
| `ManifestNames.ValidNameAddOn` | internal/install/install.go:548-573 | the AddOn of a valid name, the text before its first dot, is its stem |
| `ManifestNames.AddOnsAreDistinct` | internal/install/install.go:548-573 | in an accepted set no two files claim one AddOn |
| `HostsFile.RenderHosts` | internal/install/registry.go:196-206 | the loop makes the rendered text |
| `HostsFile.UnmarkedLinesKept` | internal/install/registry.go:196-206 | every unmarked line is kept in order, up to blank lines at the end |
| `HostsFile.LinesKeptIff` | internal/install/registry.go:196-206 | the unmarked lines are the same before and after exactly when they end in one blank line or are two; none is lost exactly when they end in no more |
| `HostsFile.LineLost` | internal/install/registry.go:196-206 | a text that loses a blank line |
| `HostsFile.OneManagedLine` | internal/install/registry.go:196-206 | exactly one line is marked, and it is the mapping asked for |
| `HostsFile.RenderingReplaces` | internal/install/registry.go:171-206 | rendering over a rendering is rendering directly |
| `HostsFile.RenderingIdempotent` | internal/install/registry.go:171-206 | rendering again changes nothing |
| `SourceArchive.CleanLeadsThere` | internal/sourcearchive/archive.go:145-154 | a cleaned path leads where the path led, from any directory |
| `SourceArchive.SafeComponents` | internal/sourcearchive/archive.go:145-154 | an accepted path has ordinary components only |
| `SourceArchive.SafePathStaysInside` | internal/sourcearchive/archive.go:145-154 | an accepted path leads strictly inside the destination |
| `SourceArchive.SafePathsDiffer` | internal/sourcearchive/archive.go:43-50 | different cleaned paths lead to different places |
| `SourceArchive.RatioIsSound` | internal/sourcearchive/archive.go:67-69 | a large file that passes is within the ratio over the naturals, wrapped or not |
| `SourceArchive.RatioIsExactIff` | internal/sourcearchive/archive.go:64-69 | on the sizes that reach it, the test is the ratio exactly when the product does not wrap or wraps to no less than the limit |
| `SourceArchive.RefusedWithinRatio` | internal/sourcearchive/archive.go:64-69 | an archive of one file within the ratio is refused, and accepted with an honest compressed size |
| `SourceArchive.InspectEntry` | internal/sourcearchive/archive.go:42-72 | what one entry's tests accept and add, without underflow |
| `SourceArchive.Inspect` | internal/sourcearchive/archive.go:26-77 | accepts exactly the archives whose entries pass, whose cleaned paths differ, whose sizes sum to no more than the limit and that hold a file; reports files and bytes |
| `SourceArchive.ExtractFile` | internal/sourcearchive/archive.go:110-140 | one file: what it may write, and that it succeeds exactly when its stream holds what it declares |
| `SourceArchive.Extract` | internal/sourcearchive/archive.go:79-143 | at most one byte over the limit on any exit; succeeds exactly on an acceptable archive, an empty directory and honest streams; then exactly the declared files and total |
| `SourceArchive.DeclaredFilesAt` | internal/sourcearchive/archive.go:43-50 | no file takes another's place |
| `NetpolProbe.ClassifyCanary` | internal/doctor/netpol.go:517-532 | connected and blocked exactly on the two deliberate exit codes of the first terminated probe container |
| `NetpolProbe.Judge` | internal/doctor/netpol.go:231-257 | what one batch settles by itself, and the count of leaks |
| `NetpolProbe.Probe` | internal/doctor/netpol.go:219-283 | ends within the batch limit; every later batch starts with the reserve left and the settling window open, and none is left out while there is room; passes exactly when the last batch had a connected control and both deny legs blocked; fails exactly when the last batch leaked past a connected control and enough batches leaked or policies are known absent |

## Left out

- CheckRun: messages of results and fixes; `RunAndFix`'s error branch for a refused second run is shown unreachable instead of modelled.
- CheckRun: `Summary`, which counts outcomes, would add only an easy member.
- CheckScore: results are those of a run; severities other than the three known ones cannot be registered.
- LogStream: liveness (that a stream ends) and heartbeats' text; option parsing and the listing of pods.
- Auth: the dummy password comparisons, which are about timing; HTTP, JSON, auditing, cookies other than what they carry, and session touch; `lower()` on user names is ASCII folding.
- Auth: cryptography, TOTP windows and replay of a TOTP code within its window.
- AllowlistUpdate: step-up and session checks in front of the handler.
- RateLimiter: does not model the mutex, each call being one step, nor how a client's address is found in a request.
- EnsureFile: file modes, which a later `chmod` sets and a re-run does not look at; `mkdir`; quoting of commands.
- EnsureFile: `migrateLegacyManifests`, which moves old manifest names away.
- AllowlistSeed: runs without a version, which touch neither receiver nor allowlist; runs with an explicit seed only as far as `LiveAllowlistStays` goes.
- ManifestNames: names are strings of bytes, so a character is a byte.
- RepoAllowlist: lengths in bytes are of UTF-8 text; trimming knows the Unicode spaces, lower-casing is of ASCII, which is all an accepted entry can hold.
- SourceArchive: the ZIP container itself, whose entries are a parameter; file modes; the file system beyond refusing an entry.
- NetpolProbe: creating, waiting for and deleting the canaries, and the wording of verdicts.
- Reconcilers, receiver, dispatcher, reverse proxies, CRUD handlers, the other doctor probes and the web front end: each is settled by reading a branch or two, or only calls libraries.
