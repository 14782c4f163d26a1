# A verified model of the afhttp browser host

afhttp keeps one browser running for many drivers. This project models the parts
of it whose correctness lies in how steps combine, and proves what they promise
over every run, every interleaving or every input.

| file | part of the program |
|---|---|
| `TargetLedger.dfy` | what one `/cdp` connection holds, read off its frames |
| `TabOwnership.dfy` | the hold counts and orphans that all connections share |
| `IdleReaper.dfy` | per-target idle clocks over sweep after sweep |
| `Reclamation.dfy` | the reaper sweeping while connections come and go |
| `WindowAnchor.dfy` | closing pages without losing the browser's last one |
| `PendingReplies.dfy`, `CdpClient.dfy` | matching CDP replies to requests |
| `ProfileSwitch.dfy` | switching profiles under live requests and credentials |
| `TakeoverCredentials.dfy` | the pruned list of takeover credentials |
| `PanelExchange.dfy` | requests exchanging a handoff for a panel lease |
| `ObservationWalk.dfy` | the page walk behind an observation |
| `StageRecorder.dfy`, `RecorderReadings.dfy` | the fetch trace's stage stack, and what it says of the calls made |
| `DomFingerprint.dfy`, `JsonText.dfy` | the text a DOM hash is taken over |
| `JsonPath.dfy` | writing preferences into a JSON tree by path |
| `Redaction.dfy`, `RedactionReach.dfy` | masking passwords in text, and which ones |
| `UrlRedaction.dfy` | masking URLs in payloads |
| `Landing.dfy` | the takeover panel's landing page |
| `JsonValue.dfy`, `Sequences.dfy`, `Wrappers.dfy` | shared vocabulary |

Objects whose methods change their fields are classes; each method equates the
new state with a specification function of the old one. The machines built from
them (`HostAfter`, `ClientAfter`, `WorldAfter`, `SystemAfter`, ...) replay a list
of events, each of which must be possible when it comes; a theorem about "every
run" quantifies over all such lists. Events are the stretches of code between two
points where another task can run, so cancelling a task anywhere is an event too.

## What the main results say

**Tabs.** A hold count is the number of live ledgers owning the target, corrected
by reports observed and not yet counted; zero is never stored, and whatever is
released was counted. With the tables' lock free no target is held and orphaned.
A target is an orphan exactly when the latest step about it is the one that
orphaned it. The reaper closes a target only after a clock an earlier sweep
started has run out undisturbed, and at each of those sweeps nobody was counted
on the tab. A tab is asked to close by the first sweep a full timeout after one
that saw it, if all in between found no driver about, or found it an orphan that
nobody takes back, whatever other drivers do.

**Last window.** Any number of closers, interleaved or cut off anywhere, never
leave a browser that can host several pages without one. What one closer sends,
and how it ends, is read off the replies.

**Requests.** A call ends at most once, with the reply that carries its own id,
the timeout, or the loss of the connection; which, is read off the run, and what
a reply says off its members. Once the reader has drained, nobody waits.

**Profiles.** At most one launch is in progress; two landings on one name are
always apart; the active profile is the latest landing's, and the live
credentials are those minted since the latest revocation; a switch that fails
might as well not have been asked for; a browser runs exactly while someone
holds it.

**Credentials.** Pruning is invisible. Whether a secret answers is read off the
history alone: minted, not revoked since, deadline not come, a lease never left
unused for its timeout. A handoff is dead
from its exchange's settlement on.

**Observation.** The walk ends whatever leads to what (the modelled page need not
be a tree), stays within both limits, lists no element twice, is sound, closed
under its own references, and complete unless it says it was truncated.

**Stages.** Every stage pushed is in every snapshot exactly once, with the status
given by the call that took it off the stack, if one has. What any run
leaves of the stack is computed exactly, and when it gives the stack back is
decided exactly, including by conditions a caller can check before the run.

**Texts.** The fingerprint text determines the forest it was written from, for
all HTML elements and all others in whose tag no listed attribute seems to open.
Password masking touches nothing but passwords and is idempotent; which ones it
masks is read off the line. URL redaction keeps the payload's shape and changes
exactly the named positions. The landing page bootstraps at most once for every
query.

## Where the code does less than one might expect

- The fetch recorder's nested runs do not always give its stack back. Exactly
  when they do is `StageRecorder.RestoresExactlyWhen`, for runs that go on after
  a deadline error and for runs cut off by a timer too. Before the run a caller
  can check: for bodies that stop at the first deadline error, that no stage the
  run may charge is in progress outside it (`SafeWhereverTheDeadlineFalls`); for
  a run with no run inside it, whatever its body does after such an error, how
  often it looks and what is in progress outside (`LeafIsSafeExactlyWhen`,
  `LeafRestoresAt`). `SharedNameClosesTheOuterStage`, `SecondReadTakesAnOuterStage`
  and `OwnTimerLeavesTheInnerStage` are runs that do not. No caller in `src`
  nests runs today, and on an empty stack a run that nests none and is not cut
  off always gives it back, however often its body reads the passed deadline.
- A request admitted on a handoff while another on it is unsettled, that is,
  before the other's exchange is settled or abandoned, can bring the handoff's
  second lease, and nothing else can (`PanelExchange.TwoLeasesExactlyByOverlap`).
  A handoff that has meanwhile been revoked, by the other's settlement or by a
  profile switch, does not stop it (`PanelExchange.OverlapGivesTwoLeases`).
- The landing page and the display leg drop this host's credentials by the raw
  spelling of their names, while the host reads names form-decoded. What remains
  is exactly what was spelled otherwise (`Landing.HandoffRemains`,
  `Landing.CredentialsForwarded`, with whole queries as examples).
- A `://` is passed over when another, itself not passed over, runs into it, that
  is, nothing that ends an authority stands between them; a password after it
  stays (`RedactionReach.AfterEveryScheme`, `Redaction.RunIntoKeepsItsPassword`).
  Every password of a line is masked when no `://` runs into a later one
  (`RedactionReach.AllFoundExactlyWhen`).
- A tag in which a listed attribute seems to open, as in `b|href="`, can make two
  different pages one fingerprint text (`DomFingerprint.QuotationMarksCollide`).
  The tags of HTML elements are upper-cased, so only foreign ones, SVG elements
  say, can have such a tag (`DomFingerprint.UpperCasedTagsAreGood`).
- A second bootstrap keeps the quality settings of the first behind its own
  (`Landing.SecondBootstrap`).

## Model

| member | source | states |
|---|---|---|
| TargetLedger.ConnectionLedger.ObserveRequest | src/host/listener/target_ledger.rs:42-66 | by the method and the params of the frame: a create is awaited, a close lets go of an owned target and reports it, an attach takes one not yet owned and reports it, anything else does nothing |
| TargetLedger.ConnectionLedger.ObserveResponse | src/host/listener/target_ledger.rs:70-82 | by the frame: one of at most 16 KiB with the id of an awaited create settles it, and takes the target its result names; any other does nothing |
| TargetLedger.RequestReads | src/host/listener/target_ledger.rs:42-66 | the step that whole histories are made of does the same to a request |
| TargetLedger.ResponseReads | src/host/listener/target_ledger.rs:70-82 | and to a reply |
| TargetLedger.ReportIsTheChange | src/host/listener/target_ledger.rs:22-29 | a report is made exactly when the owned set changes, and it names the change |
| TargetLedger.LedgerReadsHistory | src/host/listener/target_ledger.rs:42-87 | pending creates are those asked for and unanswered since; a target is owned iff its last relevant frame took it (attach, or the awaited reply to a create) and none closed it since |
| TargetLedger.ReplayedReportsAreTheLedger | src/host/listener/target_ledger.rs:42-87 | replaying the reports from nothing gives exactly the owned set |
| TargetLedger.ReportsAlternate | src/host/listener/target_ledger.rs:42-82 | for each target the reports strictly alternate between taken and closed, and it is owned iff their number is odd |
| TabOwnership.HoldTables.Release | src/host/listener/mod.rs:1248-1261 | one hold fewer, the entry gone at zero, and whether none is left |
| TabOwnership.HoldTables.NoteHolding | src/host/listener/mod.rs:126-148 | a take counts and ends orphanhood, a close uncounts, no report changes nothing |
| TabOwnership.HoldTables.ReleaseTargets | src/host/listener/mod.rs:152-166 | in any order, one hold fewer on each target, and those left with none become orphans |
| TabOwnership.HoldTables.RetainOrphanedTargets | src/host/listener/mod.rs:177-182 | orphans not listed are forgotten |
| TabOwnership.RunKeepsInv | src/host/listener/mod.rs:126-182 | counts, reports, orphans and the client count stay consistent over every interleaving of connections and prunes |
| TabOwnership.HoldCountIsOwnersCorrected | src/host/listener/cdp_proxy.rs:122-184 | in every reachable state a hold count is the number of ledgers owning the target, less takes and plus closes not yet counted, and is never stored as zero |
| TabOwnership.ReleasedTargetsAreHeld | src/host/listener/mod.rs:1258-1259 | the held-by-nobody case of a release is never reached |
| TabOwnership.OrphanedAndHeldAreDisjoint | src/host/listener/mod.rs:133-141 | while the holders lock is free no target is both held and orphaned |
| TabOwnership.HangupFreesWhatNobodyElseHolds | src/host/listener/mod.rs:150-166 | an ending connection orphans exactly the targets it owned that no other connection is counted on |
| TabOwnership.OrphansReadTheRun | src/host/listener/mod.rs:126-182 | a target is an orphan iff, of the steps that orphan it and those that reclaim it, the latest orphans it |
| TabOwnership.NoClientsNoHolds | src/host/listener/cdp_proxy.rs:60-90 | with no client counted, nothing is held |
| IdleReaper.Tracker.Sweep | src/host/reaper.rs:98-181 | the clocks, the close requests and the prune of one sweep, on every early return and in full; the four rows below read them off what it saw |
| IdleReaper.Tracker.ScanPages | src/host/reaper.rs:144-154 | which clocks a listing clears, keeps or starts, and which have run out |
| IdleReaper.Tracker.CloseExpired | src/host/reaper.rs:162-179 | only a close that succeeded clears its clock |
| IdleReaper.ClosesExactlyWhen | src/host/reaper.rs:111-154 | a sweep asks to close a tab iff it listed it, on the web, with no driver about or the tab an orphan, and a clock kept for this browser is a timeout old |
| IdleReaper.ClocksExactly | src/host/reaper.rs:98-181 | which clocks run after a sweep and since when, on every return |
| IdleReaper.SeenExactly | src/host/reaper.rs:142-156 | a sweep prunes the orphans iff it got its listing, and by the pages in it |
| IdleReaper.AskedOnce | src/host/reaper.rs:151-162 | a tab listed once is asked to close at most once |
| IdleReaper.ClocksAreJustified | src/host/reaper.rs:98-181 | every running clock was started by an earlier sweep that saw the target idle, and no sweep since saw anything speak for its use |
| IdleReaper.CloseIsJustified | src/host/reaper.rs:144-164 | a close request comes a full timeout after the sweep that started the clock, with nothing in between (credential, other browser, driver without orphans, page not idle) having disturbed it |
| IdleReaper.IdleTabIsReclaimed | src/host/reaper.rs:111-164 | a tab that every sweep of a span finds idle, with no driver about or as an orphan among any number of them, is asked to close by the first that lists a full timeout after the first did |
| IdleReaper.SweepIntervalIsNearest | src/host/reaper.rs:66-68 | the interval is the one between half a second and a minute nearest to a third of the timeout |
| IdleReaper.FirstSweepPast | src/host/reaper.rs:66-68 | with sweeps on time the first sweep past the timeout comes less than one interval and its delay after it |
| IdleReaper.ReclaimedWithinFiveThirds | src/host/reaper.rs:66-68 | from 1.5 s of timeout up, reclamation takes at most five thirds of it plus sweep delays |
| Reclamation.SystemKeepsInv | src/host/reaper.rs:117-156 | in every run of connections and sweeps, what a sweep read was a real state of the host, the driver count and the orphans perhaps at different moments |
| Reclamation.ReapedTabsWereUnclaimed | src/host/reaper.rs:112-164 | at every listing sweep from the clock's start to the close, nobody was counted on the tab at one of the sweep's reads |
| Reclamation.OrphanStays | src/host/listener/mod.rs:150-182 | an orphan that is not taken and keeps being listed stays one, and every later snapshot has it |
| Reclamation.OrphansAreReclaimed | src/host/reaper.rs:111-164 | such an orphan is closed by the first sweep a full timeout on, whatever connections do meanwhile |
| Reclamation.SweepsPrune | src/host/reaper.rs:155-156 | a sweep forgets exactly the orphans missing from the listing it got |
| WindowAnchor.CloseTargetPreservingBrowser | src/sdk/cdp/session.rs:58-126 | for every script of replies and every cut-off, read off the replies: beside a listed anchor only the close follows, otherwise an anchor is created first and the close follows iff the reply names another page or is the second-target refusal; well iff the close was sent and confirmed, and each failure exactly in its own case |
| WindowAnchor.CloserReads | src/sdk/cdp/session.rs:58-126 | the same of a closer as it runs among others |
| WindowAnchor.OneEnding | src/sdk/cdp/session.rs:58-126 | there is one such ending, so the two agree |
| WindowAnchor.GuardIsReal | src/sdk/cdp/session.rs:75-103 | the listing or creation that lets a closer go on left an anchor other than its target open |
| WindowAnchor.EventsKeepAnchors | src/sdk/cdp/session.rs:73-74 | no step of anyone removes or renames an anchor |
| WindowAnchor.EventKeepsInv | src/sdk/cdp/session.rs:58-126 | every step of every closer keeps what the others rely on |
| WindowAnchor.ClosesOnlyBesideAnAnchor | src/sdk/cdp/session.rs:80-110 | when a close is sent, and still when it is carried out, an anchor other than its target is open |
| WindowAnchor.LastPageSurvives | src/sdk/cdp/session.rs:55-57 | whatever the interleaving and wherever closers are cut off, a page remains |
| PendingReplies.PendingRequests.Register | src/sdk/cdp/ws_client.rs:308-325 | refused when closed, withdrawn when the writer is gone, entered otherwise |
| PendingReplies.PendingRequests.Dispatch | src/sdk/cdp/ws_client.rs:409-425 | a message with a 64-bit `id` in the table removes that request and delivers its `error`, if it has one, as code and text, else its `result` or null; any other message changes nothing |
| PendingReplies.ReplyReads | src/sdk/cdp/ws_client.rs:410-424 | what a message is taken to say is what its members say |
| PendingReplies.PendingRequests.Forget | src/sdk/cdp/ws_client.rs:329-330 | a timed-out request leaves the table |
| PendingReplies.PendingRequests.Drain | src/sdk/cdp/ws_client.rs:215-223 | the table is closed and empty, and everyone who was in it is failed |
| CdpClient.IdsRepeatEvery2To64 | src/sdk/cdp/ws_client.rs:288 | two requests share an id iff a multiple of 2^64 requests lies between them |
| CdpClient.IdsCountUp | src/sdk/cdp/ws_client.rs:245-288 | ids count up from one, wrapped into 64 signed bits |
| CdpClient.RunKeepsInv | src/sdk/cdp/ws_client.rs:281-344 | every entry is its own call's, every waiting call is in the table or has its reply, and a closed table is empty |
| CdpClient.NoReplyIsLost | src/sdk/cdp/ws_client.rs:340-341 | a waiting caller's sender is never dropped unanswered |
| CdpClient.ClosedLeavesNobodyWaiting | src/sdk/cdp/ws_client.rs:215-223 | after the drain the table stays empty, waiting callers have their answer, later calls are refused |
| CdpClient.OneOutcomeEver | src/sdk/cdp/ws_client.rs:326-343 | a call that has ended never changes again |
| CdpClient.MailboxIsOwn | src/sdk/cdp/ws_client.rs:409-425 | a call has been given exactly what the first message with its id, or the end of the reader, brought while it waited |
| CdpClient.OutcomeIsOwnReply | src/sdk/cdp/ws_client.rs:281-344 | every outcome exactly: success or remote error iff the call collected its first answer, which had no `error` or that one; a time-out iff it gave up, unanswered; refused iff it registered after the drain, or after the writer's end |
| CdpClient.ReplyReachesOneCall | src/sdk/cdp/ws_client.rs:410-424 | a message with one call's id changes no other call |
| CdpClient.LateReplyIsDropped | src/sdk/cdp/ws_client.rs:329-336 | a reply after the timeout changes nothing |
| ProfileSwitch.SharedProfile.CheckBeforeLock | src/host/listener/mod.rs:203-215 | before the lock: well iff on that profile, else each refusal iff its own guard is the first to fail; as the machine's check |
| ProfileSwitch.SharedProfile.CheckUnderLock | src/host/listener/mod.rs:217-232 | under the lock: well iff on that profile, launching iff not and no client counted; as the machine's second check |
| ProfileSwitch.SharedProfile.Swap | src/host/listener/mod.rs:235-247 | the swap is the machine's landing and hands back the old entry |
| ProfileSwitch.SharedProfile.RevokeHandoffs | src/host/listener/mod.rs:252 | the revocation is the machine's, and how many there were |
| ProfileSwitch.SharedProfile.EnsureProfile | src/host/listener/mod.rs:202-265 | a whole call alone, on its arguments and the old fields: well iff already there, or name, host and clients allow it and the launch yields a browser; each of the four errors iff its guard is the first to fail; then that profile and browser are active and no credential is left, otherwise nothing has changed; and it is a run of the machine |
| ProfileSwitch.RunKeepsInv | src/host/listener/mod.rs:188-265 | lock, landings, credentials and reference counts stay consistent over every interleaving |
| ProfileSwitch.ChecksDecide | src/host/listener/mod.rs:203-232 | in any world, each guard answers exactly for itself |
| ProfileSwitch.ClientsAreCounted | src/host/listener/mod.rs:267-279 | the number the guard reads is that of the `/cdp` clients |
| ProfileSwitch.QueuedSwitchLands | src/host/listener/mod.rs:216-264 | a queued switch that finds the lock free, no client and another profile can go through to its landing, which drops one holder of the old browser |
| ProfileSwitch.OneLaunchAtATime | src/host/listener/mod.rs:216-234 | no two switches are past the lock together |
| ProfileSwitch.LandingsOfOneNameAreApart | src/host/listener/mod.rs:217-220 | between two landings on one name there is one on another |
| ProfileSwitch.ActiveReadsTheRun | src/host/listener/mod.rs:235-247 | after any run the active profile is what the latest landing's switch asked for, or the first |
| ProfileSwitch.LiveReadsTheRun | src/host/listener/mod.rs:290-302 | after any run the live credentials are those minted and neither lapsed nor revoked since |
| ProfileSwitch.HeldReadsTheRun | src/host/listener/mod.rs:184-193 | a request holds the profile that was active when it last picked one, until it drops it |
| ProfileSwitch.UnlandedSwitchLeavesNoTrace | src/host/listener/mod.rs:202-234 | any run with a switch that never lands leaves profile, browsers, credentials, requests and other switches as the run without it does |
| ProfileSwitch.FailedSwitchLeavesNoTrace | src/host/listener/mod.rs:204-234 | so does a switch that ended refused or whose launch failed, or that was cancelled before it landed |
| ProfileSwitch.SwitchLandsWhereAsked | src/host/listener/mod.rs:203-264 | a launch begins only with no client counted, and every way of ending well, after a launch too, has the asked profile active |
| ProfileSwitch.EarlierCredentialsAreRevoked | src/host/listener/mod.rs:248-252 | once every landing has revoked, no credential minted before a landing is live |
| ProfileSwitch.BrowserLivesWhileHeld | src/host/listener/mod.rs:184-193 | a browser runs iff it is active, held by a request, or not yet dropped by a switch |
| TakeoverCredentials.CredentialList.Prune | src/host/listener/mod.rs:285-287 | exactly the live credentials remain, in order |
| TakeoverCredentials.CredentialList.Issue | src/host/listener/mod.rs:655-666 | prune, then append the new credential |
| TakeoverCredentials.CredentialList.Authorize | src/host/listener/mod.rs:696-703 | the first live credential with that secret, used in place |
| TakeoverCredentials.CredentialList.Revoke | src/host/listener/mod.rs:678-687 | that credential goes, and whether there was one |
| TakeoverCredentials.CredentialList.Void | src/host/listener/mod.rs:873 | a credential revoked through its handle stays on the list, dead |
| TakeoverCredentials.CredentialList.RevokeAll | src/host/listener/mod.rs:295-302 | none remains, and how many there were |
| TakeoverCredentials.CredentialList.HasLive | src/host/listener/mod.rs:284-288 | whether any credential is live |
| TakeoverCredentials.StepsAgree | src/host/listener/mod.rs:655-703 | one operation on two lists with the same live credentials answers alike and leaves them alike |
| TakeoverCredentials.PruningIsInvisible | src/host/listener/mod.rs:284-302 | over every history the pruned list gives every answer an unpruned one would |
| TakeoverCredentials.DeadStaysDead | src/host/listener/mod.rs:689-720 | a secret that authorizes nothing never does again unless minted again |
| TakeoverCredentials.RevocationDrops | src/host/listener/mod.rs:678-687 | revoking drops that one secret and no other |
| TakeoverCredentials.AnswersExactlyWhile | src/host/listener/mod.rs:655-703 | over every history a secret answers iff it was minted, nothing revoked it since, and its deadline, moved by each use of a live idle lease, has not come |
| TakeoverCredentials.HandoffAnswersUntilItsDeadline | src/host/listener/mod.rs:650-676 | over every history a fixed handoff answers iff it was not revoked and its promised deadline has not come |
| TakeoverCredentials.LeaseAnswersWhileInUse | src/host/listener/mod.rs:655-720 | over every history an idle lease answers iff it was not revoked and never went unused for its timeout |
| PanelExchange.AnswersByLife | src/host/listener/mod.rs:689-713 | the same through every interleaving of exchanges with other operations |
| PanelExchange.RevokedForGood | src/host/listener/mod.rs:678-703 | once revoked, however, a secret never answers and admits no request |
| PanelExchange.SettledHandoffIsDead | src/host/listener/mod.rs:893-899 | from its exchange's settlement on a handoff is dead |
| PanelExchange.EarlierIsUnsettled | src/host/listener/mod.rs:1102-1109 | whoever is admitted on a handoff finds every earlier request on it unsettled or abandoned |
| PanelExchange.TwoLeasesMeanOverlap | src/host/listener/mod.rs:1102-1109 | a handoff that keeps two leases was given to a request while another on it was unsettled |
| PanelExchange.OverlapGivesTwoLeases | src/host/listener/mod.rs:845-899 | from any such moment, the other request leased already or not, the run goes on, admitting nobody, to both keeping leases: the second's answers though minted after the handoff died, the first's iff minted now or answering before |
| PanelExchange.TwoLeasesExactlyByOverlap | src/host/listener/mod.rs:845-899 | a handoff can come to keep two leases from the requests a run admits iff the run admits one while another on the handoff is unsettled |
| PanelExchange.LeaseLastsWhileInUse | src/host/listener/mod.rs:845-899 | through every interleaving of exchanges a lease answers iff nothing ended it and it never went two minutes unused |
| ObservationWalk.Walker.Truncate | assets/observation/snapshot.js:139-149 | the first truncation records reason and counts, later ones nothing |
| ObservationWalk.Walker.CountScan | assets/observation/snapshot.js:150-157 | one more scanned, or truncation at the limit |
| ObservationWalk.Walker.CanEmit | assets/observation/snapshot.js:158-164 | room for a node, or truncation at the limit |
| ObservationWalk.Walker.FrameForIframe | assets/observation/snapshot.js:165-177 | a frame element's one frame, listed on first use |
| ObservationWalk.Walker.EmitNode | assets/observation/snapshot.js:178-216 | an element is listed once, with its frame, focus and reference |
| ObservationWalk.Walker.CollectForms | assets/observation/snapshot.js:217-228 | one record a form, naming its controls listed so far |
| ObservationWalk.Walker.WalkRoot | assets/observation/snapshot.js:229-267 | the loop with its nested roots and four early exits is the walk's specification; it terminates by the scans left |
| ObservationWalk.Observe | assets/observation/snapshot.js:125-137 | the whole walk from a fresh state |
| ObservationWalk.WalkedKeeps | assets/observation/snapshot.js:229-267 | every nested walk keeps numbering, closure, truncation counts and soundness, and only adds |
| ObservationWalk.ObservationIsBounded | assets/observation/snapshot.js:139-164 | at most 100 nodes and 2000 scans, references in order, no element twice, a truncation record equal to the final counts |
| ObservationWalk.NodesAreFound | assets/observation/snapshot.js:178-216 | a node is a wanted element of a root the page leads to, in that root's frame, focused iff active there, with a frame reference iff a frame element |
| ObservationWalk.FramesAreFound | assets/observation/snapshot.js:165-177 | the first frame is the page's, every other that of a frame element of a root led to, under its own URL |
| ObservationWalk.ObservationIsComplete | assets/observation/snapshot.js:229-267 | without truncation every wanted element of every root led to is a node, every frame element has its frame, and every form has a record of exactly the controls that were nodes when it was read, by when all of its own root's were |
| ObservationWalk.FormOfOwnControls | assets/observation/snapshot.js:217-228 | a form whose controls are in its own root names exactly the nodes among them, in order |
| ObservationWalk.OneRecordPerForm | assets/observation/snapshot.js:217-228 | a root's forms get one record each, in order |
| ObservationWalk.FieldsInOrder | assets/observation/snapshot.js:219-221 | fields stand in the order of the controls |
| ObservationWalk.FirstTruncationStays | assets/observation/snapshot.js:139-149 | the first truncation is the one recorded, with the counts of its moment |
| ObservationWalk.NodeLimitMeansMore | assets/observation/snapshot.js:158-164 | truncation at the node limit means a wanted element was left out |
| ObservationWalk.ReferencesAreClosed | assets/observation/snapshot.js:165-228 | field, focus and frame references all name something listed, fields something listed before the form was read, the focus the last node that was focused, and frame ids are one to a frame element |
| StageRecorder.Recorder.BeginStage | src/sdk/fetch/deadline.rs:175-197 | a stage is pushed unless it is already on top |
| StageRecorder.Recorder.FinishStage | src/sdk/fetch/deadline.rs:199-219 | the innermost stage of the token's name becomes a record |
| StageRecorder.Recorder.MarkCurrentStage | src/sdk/fetch/deadline.rs:221-233 | the top stage becomes a record |
| StageRecorder.Recorder.Remaining | src/sdk/fetch/deadline.rs:120-131 | the time left, or the top stage charged with the deadline |
| StageRecorder.Recorder.TakeSnapshot | src/sdk/fetch/deadline.rs:235-254 | the finished records and then the stages in progress |
| StageRecorder.EveryPushIsAccountedOnce | src/sdk/fetch/deadline.rs:175-254 | after any calls in any order a snapshot has every stage pushed exactly once, and nothing else |
| StageRecorder.InProgressMeansOpen | src/sdk/fetch/deadline.rs:175-233 | stages left in progress belong to runs still open; with none open there are none |
| StageRecorder.TracesAreInOrder | src/sdk/fetch/deadline.rs:182-192 | stages in progress stand in the order they were started, each started once |
| StageRecorder.ExecStands | src/sdk/fetch/deadline.rs:133-165 | the frame rule: a run depends on the stages below it only through their top and names, leaves them untouched under what it leaves itself, or has taken one for good |
| StageRecorder.ExactStack | src/sdk/fetch/deadline.rs:133-165 | the names on the stack after any run, whatever its body does after deadline errors and wherever it is cut off |
| StageRecorder.RestoresExactlyWhen | src/sdk/fetch/deadline.rs:133-165 | any run gives the stack back iff, seen from the floor, it takes nothing and leaves nothing |
| StageRecorder.OneRecordPerPushedStage | src/sdk/fetch/deadline.rs:175-233 | a run that gives the stack back adds exactly one record, by name and start, for each stage that it and the runs in it push |
| StageRecorder.LeafRestores | src/sdk/fetch/deadline.rs:133-165 | when a run with no run inside gives the stack back, ended, begun too late or cut off, by its reads of a passed deadline, in both directions |
| StageRecorder.LeafRestoresAt | src/sdk/fetch/deadline.rs:120-165 | the same for every placement of the deadline, by the number of looks, the body going on after errors |
| StageRecorder.LeafIsSafeExactlyWhen | src/sdk/fetch/deadline.rs:120-165 | such a run that ends gives the stack back wherever the deadline falls iff it finds it empty, or looks once and its name is not in progress, or never looks and its name is not on top |
| StageRecorder.PlayEffect | src/sdk/fetch/deadline.rs:120-165 | where errors propagate: the exact stack for every placement of the deadline, closed form |
| StageRecorder.SafeWhereverTheDeadlineFalls | src/sdk/fetch/deadline.rs:120-165 | such a run gives the stack back for every placement iff no stage it may charge is in progress outside it |
| StageRecorder.SafeWithoutSharedNames | src/sdk/fetch/deadline.rs:199-210 | sharing no name with the stages outside suffices, and is needed if every body looks at the deadline |
| StageRecorder.SharedNameClosesTheOuterStage | src/sdk/fetch/deadline.rs:203-217 | a shared name: the outer stage is closed instead of the run's own |
| StageRecorder.SecondReadTakesAnOuterStage | src/sdk/fetch/pipeline/browser/wait.rs:222-239 | a body that reads the passed deadline twice takes a stage around it, whatever its name |
| StageRecorder.OwnTimerLeavesTheInnerStage | src/sdk/fetch/deadline.rs:144-163 | a run whose own timer fires during a nested run leaves that stage behind |
| RecorderReadings.TakingRecords | src/sdk/fetch/deadline.rs:199-233 | a stage taken off, by an end with its name or a mark on top of it, gets one record with that call's status, and is current |
| RecorderReadings.RecordsReadTheCalls | src/sdk/fetch/deadline.rs:199-233 | over any calls: a record is there iff some call took its stage off with that status |
| RecorderReadings.SnapshotReadsTheCalls | src/sdk/fetch/deadline.rs:235-254 | a snapshot says of each stage pushed the status given by the call that took it off, or that it has started, iff none has |
| RecorderReadings.SnapshotInOrder | src/sdk/fetch/deadline.rs:235-254 | finished stages first, then those in progress from the outermost in |
| RecorderReadings.TakenOnce | src/sdk/fetch/deadline.rs:199-233 | no stage is taken off twice |
| RecorderReadings.RecordsInOrder | src/sdk/fetch/deadline.rs:213-231 | records stand in the order their stages were taken off |
| RecorderReadings.CurrentReadsTheCalls | src/sdk/fetch/deadline.rs:175-233 | the current stage is the one the latest call named or took off |
| RecorderReadings.RunsAreCalls | src/sdk/fetch/deadline.rs:120-165 | a run leaves what its calls leave, so the rows above hold of runs |
| RecorderReadings.OwnStageIsRecorded | src/sdk/fetch/deadline.rs:133-165 | a run's own stage is recorded as timed out if it began too late or was charged, else with the run's end status, and stays in progress only if it was cut off |
| RecorderReadings.LeafIsRecorded | src/sdk/fetch/deadline.rs:133-165 | for a run with none inside, by its reads of the passed deadline |
| JsonText.QuoteReadsBack | assets/readiness/metrics.js:28 | a JSON string literal decodes to what was written, wherever it stands |
| JsonText.HexDigits | src/host/listener/mod.rs:1193-1198 | an escape's digits count from zero, in either case |
| JsonText.EscapedIsShortest | assets/readiness/metrics.js:28 | no shorter text in a literal reads as the same character |
| DomFingerprint.Measurement.Walk | assets/readiness/metrics.js:23-33 | one element pushes its pieces and counts its size, skipped tags nothing |
| DomFingerprint.Measure | assets/readiness/metrics.js:20-38 | the joined pieces are the forest's text, the count its size |
| DomFingerprint.PiecesJoin | assets/readiness/metrics.js:26-38 | pushing piece by piece and joining writes the text |
| DomFingerprint.DomTextIsInjective | assets/readiness/metrics.js:20-38 | for tags in which no listed attribute seems to open, texts are equal iff the forests are alike: in tags, in each of the eleven listed attributes, in what is below and in order, the skipped elements left out |
| DomFingerprint.SizeCounts | assets/readiness/metrics.js:23-33 | the count is that of the elements, skipped ones and all below them left out |
| DomFingerprint.UpperCasedTagsAreGood | assets/readiness/metrics.js:26 | every upper-cased tag is such a tag, quotation marks and all |
| DomFingerprint.QuotationMarksCollide | assets/readiness/metrics.js:26-32 | for every plain tag and every listed attribute, an element whose tag goes on to open it makes two different forests with one text |
| DomFingerprint.ListedIsFaithful | assets/readiness/metrics.js:10-29 | listed attributes agree iff each listed name is on both elements with one value or on neither |
| JsonPath.SetJsonPath | src/host/browser/chromium.rs:420-441 | the cursor's walk writes the path |
| JsonPath.ReadsBack | src/host/browser/chromium.rs:420-441 | the written path reads back, and below it what was written; the empty path writes nothing |
| JsonPath.LeavesApart | src/host/browser/chromium.rs:420-441 | a path neither above nor below the written one reads as before |
| JsonPath.LastWriteWins | src/host/browser/chromium.rs:420-441 | writing a path twice is writing it the second time |
| JsonPath.WritesCommute | src/host/browser/chromium.rs:420-441 | writes to paths apart commute |
| JsonPath.OrderDoesNotMatter | src/host/browser/chromium.rs:240-267 | any order of a list of pairwise apart writes gives one tree |
| JsonPath.ApplyingTwiceIsOnce | src/host/browser/chromium.rs:240-267 | applying such a list again changes nothing |
| JsonPath.EveryWriteReadsBack | src/host/browser/chromium.rs:279-328 | after such a list every one of its paths reads back |
| JsonPath.NothingElseChanges | src/host/browser/chromium.rs:279-328 | and every path apart from all of them reads as before |
| JsonPath.PreferencesAreApart | src/host/browser/chromium.rs:279-328 | the preference writes are pairwise apart |
| JsonPath.LocalStateIsApart | src/host/browser/chromium.rs:240-267 | so are the local-state writes |
| JsonPath.PreseedIsStable | src/host/browser/chromium.rs:240-328 | over any stored file, seeding in any order or twice gives the same file |
| Redaction.RedactUserinfoPasswords | src/shared/redact.rs:207-231 | the loop computes the left-to-right masking, and terminates |
| Redaction.PiecesAreTheLine | src/shared/redact.rs:209-229 | cutting a line at the authorities the scan finds loses nothing |
| Redaction.RedactsPieceByPiece | src/shared/redact.rs:219-226 | masking changes those authorities and no other piece |
| Redaction.MaskedKeepsUserAndHost | src/shared/redact.rs:219-224 | a masked authority keeps user and host and shows three stars |
| Redaction.MaskedExactly | src/shared/redact.rs:218-226 | an authority of user, colon, password, `@` and host becomes user, `:***@` and host |
| Redaction.ChangedHasParts | src/shared/redact.rs:218-226 | and only such an authority is changed |
| Redaction.AuthorityEndings | src/shared/redact.rs:214-217 | what ends an authority: `/`, `?`, `#` and white space |
| Redaction.RedactedPieces | src/shared/redact.rs:207-231 | scanning masked text finds the same places again |
| Redaction.FoundPasswordsAreMasked | src/shared/redact.rs:209-229 | every authority the scan finds in masked text that had a password shows three stars, same user, same host |
| Redaction.FoundUnlessRunInto | src/shared/redact.rs:209-216 | the scan finds a `://` iff no earlier found one's authority runs into it |
| Redaction.RunIntoKeepsItsPassword | src/shared/redact.rs:209-229 | a line that keeps a password for that reason |
| RedactionReach.FoundUnlessPassedOver | src/shared/redact.rs:209-216 | at every position, read off the line alone: a `://` is found iff none that is not itself passed over runs into it |
| RedactionReach.AllFoundExactlyWhen | src/shared/redact.rs:197-216 | every `://` of a line is found iff none runs into a later one |
| RedactionReach.AfterEveryScheme | src/shared/redact.rs:207-231 | after every `://` of every line the output has its authority, masked if found and as it was if passed over, behind what redaction writes for all before |
| Redaction.RedactionIsIdempotent | src/shared/redact.rs:207-231 | masking twice is masking once, on every text |
| UrlRedaction.RedactUrlFieldsInPlace | src/shared/redact.rs:174-195 | the in-place walk of objects and arrays is the walk's specification |
| UrlRedaction.RedactEnvelopeProse | src/shared/redact.rs:140-163 | the envelope's three kinds of position are rewritten where they exist |
| UrlRedaction.RedactUrlFields | src/shared/redact.rs:115-137 | with a `cdp` result lifted out and put back |
| UrlRedaction.RewritesNamedPositionsOnly | src/shared/redact.rs:91-113 | at every position of every payload the shape is kept, and a string changes only where its position is named, by the rewriting that position calls for |
| UrlRedaction.TreatmentReads | src/shared/redact.rs:91-195 | which positions those are, in plain terms |
| UrlRedaction.StringsRead | src/shared/redact.rs:91-195 | what becomes of each string of each payload |
| UrlRedaction.RawCaptureIsUntouched | src/shared/redact.rs:130-137 | a `cdp` event's result is returned as it was |
| UrlRedaction.SameEverywhere | src/shared/redact.rs:115-195 | values that agree at every position are equal, so the position rule determines the result |
| UrlRedaction.RedactingTwiceIsOnce | src/shared/redact.rs:115-127 | a payload redacted again is unchanged whenever one string is |
| Landing.LandingSettings | src/host/takeover/mod.rs:511-524 | the appended text is the preferred resize, the quality settings and the carried-over pairs |
| Landing.ProxyKasmvnc | src/host/takeover/mod.rs:430-447 | the page is sent iff the request is for the panel itself, no socket, and its query lacks a path or the preferred resize; what either branch replies |
| Landing.BootstrapReads | src/host/takeover/mod.rs:430-447 | that test on the raw pairs |
| Landing.TierIsNearest | src/host/takeover/mod.rs:567-568 | the quality tier is the nearest of ten, halves up |
| Landing.QualityIsPairs | src/host/takeover/mod.rs:567-574 | the quality text is seven settings |
| Landing.JsStringReadsBack | src/host/takeover/mod.rs:553-557 | the script's literal decodes to its value and contains no `<` |
| Landing.BootstrapPairs | src/host/takeover/mod.rs:507-541 | the pairs of the URL the script goes to, all of them, in order |
| Landing.CarriedExactly | src/host/takeover/mod.rs:513-524 | which pairs of the old query are carried over |
| Landing.WebsockifyReads | src/host/takeover/mod.rs:526-532 | the socket's path for every path the page is served from |
| Landing.BootstrapsAtMostOnce | src/host/takeover/mod.rs:435-445 | that URL passes the landing test, for every query and wherever the panel is served |
| Landing.SecondBootstrap | src/host/takeover/mod.rs:512-524 | what a later bootstrap after a changed setting keeps and puts first |
| Landing.HandoffRemains | src/host/takeover/mod.rs:513-524 | no raw handoff pair is left; a decoded one remains iff the old query spelled it otherwise |
| Landing.FormReads | src/host/listener/mod.rs:1193-1198 | how a name is form-decoded |
| Landing.HandoffWithoutValue | src/host/listener/mod.rs:1193-1198 | a whole query that is such a spelling, a name without `=` |
| Landing.HandoffWithEscape | src/host/listener/mod.rs:1193-1198 | another, a name with an escape; it reaches the display too |
| Landing.UpstreamPairs | src/host/takeover/mod.rs:754-781 | the display's query splits into the pairs that do not spell out a credential's name, in order, and a query without one is not changed |
| Landing.SentExactly | src/host/takeover/mod.rs:768-776 | which pairs those are |
| Landing.UpstreamPathReads | src/host/takeover/mod.rs:754-766 | what follows the panel's own path reaches the display, made to begin with a slash |
| Landing.CredentialsForwarded | src/host/takeover/mod.rs:768-776 | a credential of this host reaches the display iff its name was not spelled out raw; whatever is dropped was a credential |
| Landing.TokenWithEscape | src/host/listener/mod.rs:1186-1191 | a whole query whose host token reaches the display |
| Landing.JoinOfSplit | src/host/takeover/mod.rs:768-779 | splitting at `&` and joining again gives the query back |

## Left out

- Process launch, sockets, HTTP routing, TLS, tokens and origins, container setup, the CLI, output emission, retry loops, ring buffers and error tables: external effects, finite tables or thin wrappers.
- Closes outside the anchor protocol: a human closing windows, a page closing itself, a driver sending its own close. Anchor pages keep their URL, target ids are not reused, and nobody asks a closer to close an anchor (the reaper cannot, since it closes web pages only).
- WindowAnchor.LastPageSurvives: does not speak for a browser that holds a single page and refuses a second (`session.rs:92-94`); there the code closes that one page on purpose. The single closer's behaviour in that case is in CloseTargetPreservingBrowser.
- A connection task dropped by runtime shutdown before it releases what it held.
- IdleReaper.IdleTabIsReclaimed: promises nothing for a span in which a sweep lists without the tab; the prune can drop an orphan born after the listing.
- CdpClient.RunKeepsInv: holds while at most 2^64 ids have been issued; beyond that ids repeat.
- CdpClient.NoReplyIsLost: aborting the reader when the connection itself is dropped is not an event; no caller can be waiting on a dropped connection. Subscriptions to CDP events are not modelled.
- The recent-requests ring and its subscriber during a profile switch.
- TakeoverCredentials.DeadStaysDead: a secret is not minted twice; the access token library is not part of this model. Its tokens are values here: an idle lease is extended by use, a fixed one is not, and revoking one handle revokes the credential.
- PanelExchange.TwoLeasesExactlyByOverlap: clocks do not go back and no secret is minted twice. A cancelled request is one that takes no further step.
- The lifetimes of takeover cookies, and the readiness check before an exchange.
- Observation details read off one element (role, name, actions, selectors, box, visibility): single-branch readings. The page does not change during the walk.
- StageRecorder.ExecStands: the runs inside a body come one after another; runs interleaved in parallel are covered by EveryPushIsAccountedOnce and InProgressMeansOpen. A serial number stands for the instant a stage started; durations are not modelled.
- DomFingerprint.DomTextIsInjective: a tag has no `>` and does not begin with `/`, as the HTML parser guarantees. That no listed attribute seems to open in it holds for every HTML element, whose tag an HTML document upper-cases; for foreign elements it is an assumption, and that every tag breaking it makes a collision is shown for those that end there. Strings are sequences of Unicode characters, not UTF-16 units, so an unpaired surrogate is not modelled. The 32-bit hash of the text, which may collide, is not modelled.
- JsonPath.SetJsonPath: the mutable cursor is a trail of the objects passed; aliasing inside the tree is not captured. A file that is not JSON is an error before any write and is not modelled.
- UrlRedaction.RedactUrlFieldsInPlace: works on values rather than through references. How one URL or one sentence is rewritten is a parameter; headers and `_secret` fields are not modelled.
- Landing.BootstrapsAtMostOnce: `encodeURIComponent` is a parameter whose result has no `&`; the browser's own normalisation of a URL's characters is not modelled. The panel's icon and sockets' origin check come before and after the modelled decision.
- Observation and object keys: JSON objects are unordered maps, so key order is not captured.
