# Verified models of the mochiOS services

This project models the state machines, caches and file formats of the mochiOS user services in Dafny and proves
what they keep over every input and every run. Kernel answers, peers, clocks, random tokens and storage failures are
parameters with arbitrary values. Every statement below is proved by the Dafny verifier (`dafny verify dfyconfig.toml`).

The parts, in the system's own terms:

- **Execution consent** (`ConsentModel`, `ConsentRuns`, `ConsentAnswers`, `ConsentController`, `TextEvidence`,
  `ExecutionRequests`, `ExecutionFrontend`, `ExecutionService`). The ticket controller is a class over its slot array,
  refined to a table of open tickets; its whole history is kept, so that each approval can be traced back to a prompt
  that was shown, an input route that was armed, and a fresh key press, and such evidence is always enough. The registry
  of held calls, the presenter handoff and the service loop are built on it, up to `ExecutionService.Serve`: in any run
  each authorization call is answered exactly once or is the single one still waiting, a call is held exactly when
  someone can be asked, each success answered later has a traced approval of its own, and everything the consent machine
  was told comes from a message of the run.
- **Compositor state** (`SurfaceTable`, `ClientLeaving`, `SurfaceRequests`, `StackOrder`, `Presentation`). The table
  of surfaces, windows and focus under create, decorate, activate, destroy, client cleanup, modal sessions, pointer,
  keys, menus and protection, as a relation that every run follows step by step; exactly what goes with a surface and
  with a client; one stacking order for drawing and hit testing; the registry of protected presentations.
- **Redraw and caches** (`SceneCulling`, `GpuScene`, `TextureUpload`, `Damage`, `Painting`, `PresentLoop`, `Tiling`).
  Cached geometry against a rebuilt scene, culled triangles against all triangles, partial texture uploads against the
  whole atlas, damage-limited painting against a full repaint, tiles against one transfer.
- **Bootstrap reads** (`BootstrapServer`, `BootstrapClient`). The client against any server, and against the real
  responder over an immutable tree.
- **Durable grants and images** (`PolicyFile`, `GrantDb`, `ExecutionGrants`, `ImageCatalog`). Crash-safe replacement,
  two on-disk formats with their lookups, and the dependency closure of a launch.

Where a promise is not kept by the code, the project states exactly when it is kept and gives a concrete failing case:

- merged damage rectangles are truncated to 32 bits (`Damage.MergeCoversIff`, `Damage.MergeCanLose`);
- a surface that loses its GPU state starts its atlas generation again, so that a kept texture may be taken for current
  (`TextureUpload.SafeIff`, `TextureUpload.RestartCanBeStale`, and `TextureUpload.ShotsAreFaithful` for whole runs);
- a software present that never reaches the display drops its damage (`PresentLoop.ForgottenIff`,
  `PresentLoop.StaleAfterUndelivered`);
- a raised window is on top only until the z counter wraps (`SurfaceRequests.RaiseTopsIff`);
- a grant whose package or developer contains a tab or newline is never found again (`GrantDb.AppendedIsFoundIff`), and
  the lookup may then also find a record that was never stored (`GrantDb.PackageCanHoldLine`, and
  `GrantDb.PackageHoldsLineIff` for the field length it takes); it is right for every request exactly when all stored
  identities are clean (`GrantDb.LookupIsExactIff`);
- destroying one decoration of a window detaches another one (`ClientLeaving.AttachmentLostIff`);
- a missing and an empty resource are one and the same in the grant file (`GrantDb.SingleGrantIsFoundIff`,
  `GrantDb.MissingResourceReadsAsEmpty`).

## Model

| member | source | states |
|---|---|---|
| `ConsentModel.Locate` | capability/src/consent.rs:325-348 | Found exactly when an open ticket has the number, challenge and display number; a ticket with the wrong display number is told from an unknown one. |
| `ConsentModel.Enter` | capability/src/consent.rs:349-357 | A ticket is handed on only before its deadline; a clock that went back changes nothing; an expired ticket is dropped, and only then does the table change. |
| `ConsentController.Controller.constructor` | capability/src/consent.rs:198-205 | A new controller has an empty table, an empty history, and 1 as its next ticket id. |
| `ConsentController.Controller.Begin` | capability/src/consent.rs:218-281 | The slot array refines the table step of `begin`: every refusal in order, else the next id is issued to a free slot. |
| `ConsentController.Controller.NextCorrelation` | capability/src/consent.rs:282-300 | The correlation announced in advance is the one the next begin will issue, and announcing changes nothing. |
| `ConsentController.Controller.BeginAt` | capability/src/consent.rs:301-324 | `begin_at` issues exactly the announced correlation or changes no ticket. |
| `ConsentController.Controller.Feedback` | capability/src/consent.rs:358-416 | The array refines the table step of feedback: presented, dismissed, denied or approved, with the ticket settled on the last three. |
| `ConsentController.Controller.Propose` | capability/src/consent.rs:417-454 | A proposal uses the recorded gesture; without armed presence it is refused and the ticket stays. |
| `ConsentController.Controller.Arm` | capability/src/consent.rs:455-481 | Arming is accepted from the bound input source on the bound route, once, after the prompt was shown. |
| `ConsentController.Controller.Input` | capability/src/consent.rs:482-518 | The array refines the table step of key input; which input is accepted, and that a press after a release with no press between becomes the gesture of its ticket, is `ConsentAnswers.InputAcceptedIff` and `ConsentAnswers.PressIsRecorded`. |
| `ConsentController.Controller.Cancel` | capability/src/consent.rs:519-533 | Cancelling settles the ticket of that peer and returns its binding. |
| `ConsentController.Controller.Expire` | capability/src/consent.rs:534-548 | The sweep over the slots reports and removes exactly the tickets past their deadline. |
| `ConsentController.Controller.Observe` | capability/src/consent.rs:556-570 | The sweep reports and removes exactly the tickets whose observed world no longer matches their binding. |
| `ConsentController.Controller.NextDeadline` | capability/src/consent.rs:571-577 | The earliest deadline of any open ticket, and none when there is no ticket. |
| `ConsentController.Controller.Handle` | capability/src/consent.rs:197-577 | Each operation is one step of the ticket table, and the history grows by exactly that step. |
| `ConsentRuns.StepKeepsTable` | capability/src/consent.rs:218-570 | Every step keeps the table within its size, keyed by ticket id, with ids below the counter; only an issue adds a ticket, under the next id. |
| `ConsentRuns.RunsKeepTable` | capability/src/consent.rs:218-570 | The same in every state of every run. |
| `ConsentRuns.EveryStageIsExplained` | capability/src/consent.rs:218-518 | In every run, the stage of each open ticket is explained by earlier steps: begun, shown, armed, released, pressed, in this order. |
| `ConsentRuns.ApprovalIsArmed` | capability/src/consent.rs:358-454 | An approval comes from an armed ticket with a gesture, before its deadline, for an offered choice other than deny, carries its binding, and was decided by the bound presenter with an observation that still matches. |
| `ConsentRuns.ProposalApprovedIff` | capability/src/consent.rs:417-454 | A proposal is approved exactly when it comes in time from the bound presenter about an armed and freshly confirmed ticket, offers an offered choice, and the observed world matches. |
| `ConsentRuns.NoNewArms` | capability/src/consent.rs:455-518 | In every run only arming makes a ticket armed. |
| `ConsentRuns.ApprovalIsWitnessed` | capability/src/consent.rs:218-547 | In every run an approval is preceded in order by begin, a presented report of the bound presenter, arming on the bound route, an all-released moment with no press since, and a press with a serial above the armed one; it is decided by the bound presenter while the observed world matches the binding. |
| `ConsentRuns.AnswersSettle` | capability/src/consent.rs:358-570 | A ticket leaves the table exactly in the step whose answer says so about it: decided, dismissed, cancelled, expired, changed or swept. |
| `ConsentRuns.ClockNeverGoesBack` | capability/src/consent.rs:197-577 | In every run the time the controller has seen never decreases. |
| `ConsentRuns.TicketsSettleOnce` | capability/src/consent.rs:218-570 | No ticket is settled at two different steps of a run. |
| `ConsentRuns.IdentifiersAreFresh` | capability/src/consent.rs:218-324 | No two issues of a run have the same ticket id. |
| `ConsentRuns.GoneStaysGone` | capability/src/consent.rs:218-570 | A ticket id that was issued and is no longer open never opens again. |
| `ConsentRuns.RunsAskOneQuestionEach` | capability/src/consent.rs:218-281 | In every state of every run, no two open tickets are shown by the same presenter endpoint. |
| `ConsentAnswers.PressIsRecorded` | capability/src/consent.rs:482-518 | In every run, a press accepted on the bound route after a moment with all keys released, with no press between, is recorded as the gesture of its ticket as long as the ticket is open, under a serial other than zero. |
| `ConsentAnswers.StagesAdvance` | capability/src/consent.rs:358-518 | An open ticket never goes back to an earlier stage, loses a gesture, or changes what it is bound to. |
| `ConsentAnswers.StageIsDecided` | capability/src/consent.rs:358-518 | An open ticket has been shown exactly when a display notice was accepted, and is armed exactly when an arming was. |
| `ConsentAnswers.SerialIsNewest` | capability/src/consent.rs:455-518 | The serial an armed ticket remembers is that of the newest message heard from its input authority. |
| `ConsentAnswers.NoticeAcceptedIff` | capability/src/consent.rs:358-390 | A display notice about an open ticket is accepted exactly when it is in time, from the bound presenter, in a matching world, and the first. |
| `ConsentAnswers.ArmingAcceptedIff` | capability/src/consent.rs:455-481 | Arming is accepted exactly when it is in time, from the bound source on the bound route, after the display notice, and the first. |
| `ConsentAnswers.InputAcceptedIff` | capability/src/consent.rs:482-503 | Key input is accepted exactly when the ticket is armed, it is in time, from the bound source on the bound route, and newer than everything heard before. |
| `ConsentAnswers.AttestedIsApproved` | capability/src/consent.rs:417-518 | The evidence is enough: when the run holds the begin, display notice, arming, release and fresh press of an open ticket, the proposal of its presenter, in time, of an offered choice, in a matching world, is approved. |
| `ConsentAnswers.ApprovedIffAttested` | capability/src/consent.rs:358-518 | In every run a proposal is approved if and only if the run holds that evidence and the proposal is such a one. |
| `TextEvidence.Evidence.Arm` | capability/src/text_evidence.rs:14-19 | Arming forgets all earlier evidence. |
| `TextEvidence.Evidence.Observe` | capability/src/text_evidence.rs:20-43 | The three flags after one key event. |
| `TextEvidence.ReleasedIsAllUp` | capability/src/text_evidence.rs:20-43 | The released flag means: since arming or the last press there was an all-released moment. |
| `TextEvidence.SelectedIsPattern` | capability/src/text_evidence.rs:20-43 | The selected choice is the shortcut of the last press, made with all keys up, with only releases since. |
| `TextEvidence.AcceptsIsPattern` | capability/src/text_evidence.rs:14-46 | Accepting a choice is equivalent to a pattern on the whole trace since arming: its shortcut pressed with all keys up, an all-released moment, then Enter, with nothing else between or after. |
| `TextEvidence.Evidence.Judge` | capability/src/text_evidence.rs:14-46 | Feeding a whole trace and asking gives that pattern. |
| `ExecutionRequests.WithLimits` | capability/src/execution_requests.rs:66-85 | The limits that are refused, and the empty registry otherwise. |
| `ExecutionRequests.Registry.constructor` | capability/src/execution_requests.rs:63-85 | An empty registry charges nothing. |
| `ExecutionRequests.Registry.Reserve` | capability/src/execution_requests.rs:103-136 | Which of the three errors, exactly; else one free slot is charged and retained bytes stay within the limit. |
| `ExecutionRequests.Registry.ReserveImage` | capability/src/execution_requests.rs:92-102 | Which refusal, in the order of the checks, and when none: the length of the image has its own bound. |
| `ExecutionRequests.Registry.Release` | capability/src/execution_requests.rs:150-157 | Giving bytes back never underflows and leaves the sum over the other slots. |
| `ExecutionRequests.Registry.DropReservation` | capability/src/execution_requests.rs:384-393 | Dropping a reservation takes exactly its caller out. |
| `ExecutionRequests.Registry.Begin` | capability/src/execution_requests.rs:346-383 | A reservation becomes a held call with the issued ticket, or is rolled back; registry and controller stay in step. While no ticket is open this succeeds exactly for the reserved caller and size, when the ticket can be issued. |
| `ExecutionRequests.IssuedIff` | capability/src/consent.rs:218-324 | While no ticket is open, the announced one is issued exactly to a sound request, in time, until the counter is used up. |
| `ExecutionRequests.Registry.Find` | capability/src/execution_requests.rs:137-149 | Finds the held call of a correlation if there is one. |
| `ExecutionRequests.Registry.Retire` | capability/src/execution_requests.rs:174-191 | Retiring a call closes its ticket too and answers its own caller. |
| `ExecutionRequests.Registry.RetireWhere` | capability/src/execution_requests.rs:201-269 | One pass retires exactly the due slots; callers waiting before are those waiting after plus those answered. |
| `ExecutionRequests.Registry.Cancel` | capability/src/execution_requests.rs:192-200 | Takes out the one call of the correlation, or changes nothing when there is none. |
| `ExecutionRequests.Registry.Abort` | capability/src/execution_requests.rs:201-220 | Everyone waiting is answered and nothing stays charged. |
| `ExecutionRequests.Registry.InvalidatePolicy` | capability/src/execution_requests.rs:221-234 | Retires exactly the calls bound to another policy generation. |
| `ExecutionRequests.Registry.Expire` | capability/src/execution_requests.rs:235-251 | Retires exactly the calls past their deadline, unless the clock went back. |
| `ExecutionRequests.Registry.Reap` | capability/src/execution_requests.rs:252-269 | Retires exactly the calls whose process ended or cannot be asked. |
| `ExecutionRequests.Registry.Finish` | capability/src/execution_requests.rs:270-302 | Exactly when finishing is refused; else the call is taken out, and it ends with success exactly when it is in time, the approval has its binding, and requester, session, policy, live process, user and stored grant all agree. |
| `ExecutionRequests.Registry.Tell` | capability/src/consent.rs:358-570 | A consent step that issues no ticket keeps registry and controller in step. |
| `ExecutionRequests.TotalChanges` | capability/src/execution_requests.rs:103-157 | Retained bytes are the sum over the slots: one slot changes the sum by its own size. |
| `ExecutionRequests.WaitingMeans` | capability/src/execution_requests.rs:103-136 | A caller waits exactly when some slot holds its call. |
| `ExecutionRequests.LinkedIssue` | capability/src/execution_requests.rs:346-383 | Issuing a ticket for a reserved slot keeps every open ticket tied to exactly one held call that agrees with it. |
| `ExecutionRequests.LinkedClear` | capability/src/execution_requests.rs:174-191 | Clearing a slot with its ticket keeps that tie for all others. |
| `ExecutionFrontend.NewRequest` | capability/src/execution_approval.rs:123-180 | A request that is accepted is bound to its requester and keeps its source length. |
| `ExecutionFrontend.RequestIff` | capability/src/execution_approval.rs:123-180 | A request is made exactly when the source is within the limit, the key and digest are right, requester, session and policy are set and the user, the grant key and the requirements can be found; it is bound to all of them. |
| `ExecutionFrontend.Frontends.constructor` | capability/src/execution_frontend.rs:84-90 | No presenter, no request. |
| `ExecutionFrontend.Frontends.Wait` | capability/src/execution_frontend.rs:97-116 | Exactly when a presenter is kept, and in which slot; nobody else is moved. |
| `ExecutionFrontend.Frontends.PollText` | capability/src/execution_frontend.rs:117-153 | The owner of the active terminal request gets its correlation exactly when it is the same terminal; another is put last on the list exactly when its checks are good, it does not wait already and there is room. |
| `ExecutionFrontend.Frontends.ReleaseText` | capability/src/execution_frontend.rs:154-190 | Withdrawing answers the held call with an error, or takes just that terminal off the list; no caller is lost. |
| `ExecutionFrontend.Frontends.ObserveTextInput` | capability/src/execution_frontend.rs:191-200 | Key evidence is that of the keys observed since arming, and grows only for the armed terminal request of that correlation. |
| `ExecutionFrontend.Frontends.Prepare` | capability/src/execution_frontend.rs:213-247 | A request is prepared if and only if none is active, just one terminal matches, or none does and the presenter of the requester's kind waits, every answer is good, the launch meets every check of a request, and a ticket can be announced; then with that presenter and the binding of this launch. |
| `ExecutionFrontend.StartableIff` | capability/src/execution_frontend.rs:213-262 | A prepared call gets its ticket exactly when it is its requester's own, presenter and input route can be bound, the clock has not gone back and the deadline fits. |
| `ExecutionFrontend.ChosenOnce` | capability/src/execution_frontend.rs:216-233 | At most one presenter or terminal can be chosen for a request. |
| `ExecutionFrontend.Frontends.Enlist` | capability/src/execution_frontend.rs:263-280 | The request becomes active on just the presenter or terminal chosen, which no longer waits. |
| `ExecutionFrontend.Frontends.Begin` | capability/src/execution_frontend.rs:201-281 | A call is held if and only if none is active, someone can be asked, and the ticket can be issued, each condition spelled out; then it is the single active request and just its presenter stops waiting. Otherwise its caller is answered at once, the reservation is gone and nobody is moved. |
| `ExecutionFrontend.Frontends.Cancel` | capability/src/execution_frontend.rs:292-306 | After cancelling nothing is held, and the caller of the active request got the given error, once. |
| `ExecutionFrontend.Frontends.Maintain` | capability/src/execution_frontend.rs:307-337 | An active request that stays has its presenter alive and its call in the registry; exactly the presenters and terminals that are gone are forgotten. |
| `ExecutionFrontend.Frontends.Tend` | capability/src/execution_frontend.rs:316-325 | Exactly the waiting presenters and terminals that are gone are forgotten, and the order of the rest is kept. |
| `ExecutionFrontend.Frontends.Command` | capability/src/execution_frontend.rs:349-524 | No held call is stranded: callers waiting before are those waiting after plus those answered. A decision ends with success exactly when it is made by the presenter of the armed request, the answers on the way are good, on a terminal the whole key pattern since arming was seen, the consent machine approves it, and the launch completes; the approval is then the first thing it records. What it puts to the consent machine carries its own peer, choice, observation and time. A stranger changes nothing; a denial frees the frontend. |
| `ExecutionFrontend.Frontends.Show` | capability/src/execution_frontend.rs:415-473 | The first report adds exactly a presented and an arm step to the consent history and arms the request, if and only if the ticket is offered, in time, reported by its presenter in a matching world, on its own route, and the input authority answers; any failure answers the caller with an error and frees the frontend. |
| `ExecutionFrontend.Frontends.Settle` | capability/src/execution_frontend.rs:484-524 | Success exactly when the proposal is approved and the launch of the held call completes; either way the frontend is freed, unless only the presence is still missing. |
| `ExecutionFrontend.Frontends.Act` | capability/src/execution_frontend.rs:380-524 | The same for reports and decisions of the active presenter, with the checks on the way. |
| `ExecutionFrontend.Frontends.Conclude` | capability/src/execution_frontend.rs:499-524 | An approved call is found, ended with what completing its launch gave, and the frontend is freed. |
| `ExecutionFrontend.StillKnown` | capability/src/execution_frontend.rs:349-524 | As long as nothing is armed, an armed ticket is one the frontend knows to be armed. |
| `ExecutionFrontend.ApprovalIsHeld` | capability/src/execution_frontend.rs:484-524 | An approved proposal names a ticket whose call is still held, was bound to a session, and is now settled: the error branches after approval cannot be reached. |
| `ExecutionFrontend.OneCallHeld` | capability/src/execution_frontend.rs:201-524 | When the registry holds only the active request, taking it out leaves the registry empty. |
| `ExecutionService.Service.Sweep` | capability/src/server.rs:232-253 | Housekeeping loses no caller, records nothing but closed tickets and its own clock, and fails only when the clock did or went back; then everyone is answered. |
| `ExecutionService.Service.Housekeep` | capability/src/server.rs:231-267 | The same with the presenters looked after: those that are gone are forgotten, and where nobody waits for an answer nothing stays active. |
| `ExecutionService.Service.Admit` | capability/src/server.rs:44-109 | A refused reservation is answered with its own error; a call that needs no question is answered with what was found out, success only if no consent is needed or it was remembered. Any other is held, and gets no immediate answer, if and only if nothing is active and someone can be asked; if its prompt cannot be delivered it is answered all the same, never twice. What it records is its own request. |
| `ExecutionService.Service.Dispatch` | capability/src/server.rs:374-886 | The call recorded is the sender of the message, and an immediate reply answers that call, exactly when it is not held; one message keeps the account of callers and of those who wait to show a prompt; at most one retained success, from a command of a presenter, with a new approval that passed the last checks; what is recorded is carried by the message. |
| `ExecutionService.Service.Present` | capability/src/execution_frontend.rs:97-524 | Messages of presenters and terminals answer at most the one held call. |
| `ExecutionService.Settled` | capability/src/server.rs:44-78 | Success without a question means: the image was captured, and either no consent is needed and the grant succeeded, or the requester is known and the grant was remembered. |
| `ExecutionService.Service.Round` | capability/src/server.rs:231-886 | The same for housekeeping and one message together; a turn fails exactly for a reason that is in it. |
| `ExecutionService.Service.Revoke` | capability/src/server.rs:404-440 | A session change answers every held call. |
| `ExecutionService.Service.HearKey` | capability/src/server.rs:490-530 | A key becomes terminal evidence only when the controller accepted it. |
| `ExecutionService.Service.Stop` | capability/src/server.rs:111-123 | Stopping answers every waiting caller. |
| `ExecutionService.AtMostOneWaits` | capability/src/execution_frontend.rs:201-337 | Between messages at most one caller waits. |
| `ExecutionService.GrantsAreWitnessed` | capability/src/consent.rs:218-547 | Every backed success has the whole chain begin, shown, armed, pressed in the history. |
| `ExecutionService.QuietRefusal` | capability/src/execution_requests.rs:92-136 | When nobody waits, only an empty or over-long image or a missing sender keeps a call out. |
| `ExecutionService.TurnExplained` | capability/src/server.rs:231-886 | One more turn keeps that account of replies, approvals and history. |
| `ExecutionService.ConfirmedIsDecided` | capability/src/execution_frontend.rs:349-524 | A decision approved by the consent machine about a held call that completes passes every check of the frontend. |
| `ExecutionService.GenerousGrows` | capability/src/server.rs:231-886 | One more turn keeps that every confirmed decision so far backs a success. |
| `ExecutionService.AttendedGrows` | capability/src/server.rs:231-886 | One more turn keeps that every call so far was held exactly when it could be, and that those who wait are as the turns left them. |
| `ExecutionService.PresenterStaysWaiting` | capability/src/execution_frontend.rs:97-116 | A graphical presenter that came while none waited is waiting at every later turn, as long as it is current and no call is held. |
| `ExecutionService.TerminalStaysWaiting` | capability/src/execution_frontend.rs:117-190 | A terminal that was put on the list is on it at every later turn, as long as it is current, does not withdraw and no call is held. |
| `ExecutionService.Serve` | capability/src/server.rs:225-886 | Any run: the calls are those of the turns served, and a stop happens at a turn that could not be completed. They are exactly those answered at once, answered later, or still waiting; at most one waits, none after a stop. Each immediate reply answers the call of a turn of its own, with success only if nobody had to be asked; a call that needs no question is always answered at once, and as long as no call was held, with exactly what was found out. A call is held, not answered at once, if and only if it has no fault, needs a question, nothing is shown, and someone can be asked: a presenter or terminal that waits by the turns so far, with every condition on its answers and on the ticket spelled out; while no call was held nothing is shown. Each later success has an approval of its own, given by the command of the turn that recorded it, with the last checks passed there, and witnessed in the history; and a decision that the consent machine approves at that point about a graphical prompt, whose launch completes, is given its success. Every entry of the history was recorded in a turn that carries its reason, in the order of the turns. |
| `ClientLeaving.WindowClosesIff` | compositor/src/surface.rs:305-324 | A window closes exactly when its content is destroyed, and otherwise changes only when a decoration made for it is. |
| `ClientLeaving.AttachmentLostIff` | compositor/src/surface.rs:306-311 | A window loses its attachment although the attached decoration lives on exactly when another decoration made for it is destroyed. |
| `SurfaceTable.ChildGone` | compositor/src/surface.rs:303-305 | Destroying one child removes exactly its subtree, and no survivor names a removed surface. |
| `SurfaceTable.TreeIsGone` | compositor/src/surface.rs:303-305 | Once no child is left, the whole tree below the root is gone. |
| `SurfaceTable.TreeIsYounger` | compositor/src/surface.rs:289-305 | Trees grow only towards younger surfaces, so destruction never comes back to its root. |
| `SurfaceTable.RootFalls` | compositor/src/surface.rs:289-324 | Removing the root after its children resets exactly its tree and the attached decoration. |
| `SurfaceTable.RemoveKeepsWindows` | compositor/src/surface.rs:306-323 | After that, every open window still has its content and decoration, and every content its window. |
| `SurfaceTable.ContentIsUnique` | compositor/src/surface.rs:1159-1175 | A window has one content surface. |
| `SurfaceTable.AttachedIsDecoration` | compositor/src/decoration.rs:227-309 | What is attached to a window is a live decoration made for it. |
| `SurfaceRequests.Desk.constructor` | compositor/src/state.rs:98-118 | An empty table is sound. |
| `SurfaceRequests.Desk.FindChild` | compositor/src/surface.rs:283-287 | The first live child, or none exists. |
| `SurfaceRequests.Desk.FindByHandle` | compositor/src/surface.rs:342-350 | The first live surface of a handle, or none exists. |
| `SurfaceRequests.Desk.FindOwned` | compositor/src/surface.rs:268-281 | The live surface of that handle and client, or the client owns none. |
| `SurfaceRequests.Desk.FindWindow` | compositor/src/window.rs:118-122 | The first open window of an id, or none exists. |
| `SurfaceRequests.Desk.ClearFocus` | compositor/src/input.rs:111-135 | Both focuses let go of that surface only. |
| `SurfaceRequests.Desk.DestroyTree` | compositor/src/surface.rs:289-324 | Terminates; resets exactly the surface, its descendants and the decoration attached to its window; no focus is left on a dead surface; the table stays sound. |
| `SurfaceRequests.Desk.DestroyRoot` | compositor/src/surface.rs:306-323 | The last step of that, in terms of the table before the children were removed. |
| `SurfaceRequests.Desk.RestoreFocus` | compositor/src/input.rs:493-512 | An existing focus stays; else the topmost visible window takes it, and none only when there is none. |
| `SurfaceRequests.Desk.Admit` | compositor/src/surface.rs:1059-1140 | Exactly when a create request is admitted; a popup hangs on a live top-level or popup surface of the same client. |
| `SurfaceRequests.Desk.Create` | compositor/src/surface.rs:1058-1247 | Exactly when it is granted. Then one free slot gets the new surface with the next z, a top-level one a window under a new id, and the keyboard where the role takes it; on refusal no surface, window or focus changes. |
| `SurfaceRequests.Desk.CreateDecoration` | compositor/src/decoration.rs:170-226 | Exactly when it is granted; then a decoration surface of that window is added, unattached. |
| `SurfaceRequests.Desk.AttachDecoration` | compositor/src/decoration.rs:227-309 | Granted exactly when the decoration is the client's own and was made for the window, which alone changes. |
| `SurfaceRequests.Desk.DetachDecoration` | compositor/src/decoration.rs:310-328 | Granted exactly to the decorator of the window, which alone changes. |
| `SurfaceRequests.Desk.Arrange` | compositor/src/decoration.rs:396-466 | Granted exactly to the decorator; minimizing hides, anything else shows, exactly the content and decoration of the window. |
| `SurfaceRequests.Desk.SetVisible` | compositor/src/decoration.rs:453-463 | Shows or hides exactly those two surfaces. |
| `SurfaceRequests.Desk.Raise` | compositor/src/input.rs:1082-1103 | The window's surfaces get the two next z values, the decoration the higher one, and nothing else moves. Until the counter has wrapped, the window is then on top of its layer with only its decoration above its content. |
| `SurfaceRequests.RaisedOnTop` | compositor/src/input.rs:1082-1103 | As long as the counter did not wrap, the raised surfaces are above every other surface of their layer. |
| `SurfaceRequests.RaiseTopsIff` | compositor/src/input.rs:1082-1103 | The new z values are above everything handed out before exactly until the 32-bit counter wraps. |
| `SurfaceRequests.Desk.BringUp` | compositor/src/server.rs:155-183 | A window is put in normal arrangement, shown, and then raised. |
| `SurfaceRequests.Desk.Activate` | compositor/src/surface.rs:1640-1672 | Granted exactly for an own top-level surface with a window, which is shown, raised and focused; a client behind a modal process brings up that process instead. |
| `SurfaceRequests.Desk.Frontmost` | compositor/src/input.rs:219-235 | The topmost visible window surface of a process, or of any; none only when there is none. |
| `SurfaceRequests.Desk.BlockedBy` | compositor/src/input.rs:211-217 | The modal process of the latest session of a process. |
| `SurfaceRequests.Desk.ProcessOf` | compositor/src/input.rs:193-209 | The process a surface stands for; a decoration stands for the content of its window. |
| `SurfaceRequests.Desk.ActivateProcess` | compositor/src/server.rs:155-183 | The frontmost window of a process is shown, raised and focused; without one nothing changes. |
| `SurfaceRequests.Desk.BeginProcessModal` | compositor/src/server.rs:315-365 | Exactly when a session is begun or replaced; then the pointer and the keyboard leave the owner process and the modal process comes to the front. |
| `SurfaceRequests.Desk.EndProcessModal` | compositor/src/server.rs:366-388 | Exactly when a session is ended; then the owner process comes to the front. |
| `SurfaceRequests.ModalTakesFocus` | compositor/src/server.rs:332-365 | Once a session has begun, neither the pointer nor the keyboard is on a window of its owner as the windows then stand, and the owner is blocked. |
| `SurfaceRequests.Desk.Destroy` | compositor/src/surface.rs:1673-1684 | Granted exactly to the owner; the surface and all that hangs on it go, the focuses move on, and afterwards no live surface has the handle or names it as parent. |
| `SurfaceRequests.Desk.CleanupClient` | compositor/src/client.rs:43-80 | Exactly the client's surfaces and the decorations attached to its windows are gone. A window is emptied exactly when its content was the client's; else its decoration is cleared exactly when the client had made one for it, its decorator when that was the client, and nothing else changes. The focuses move on. |
| `SurfaceRequests.Desk.DestroyOwned` | compositor/src/client.rs:43-80 | Each of the two loops ends, destroys its kind of the client's surfaces, and keeps the account of surfaces and windows lost so far. |
| `ClientLeaving.ContentStep` | compositor/src/client.rs:43-80 | Destroying one of the client's own surfaces loses exactly it, its popups, and the decoration and window that hang on it. |
| `ClientLeaving.DecorationStep` | compositor/src/client.rs:43-80 | Destroying one of its decorations then loses that surface alone and clears the decoration of its window. |
| `ClientLeaving.PassesDepart` | compositor/src/client.rs:43-80 | Both loops and the clearing of decorators together are the exact departure. |
| `SurfaceRequests.Desk.PointerMoved` | compositor/src/input.rs:323-338 | The pointer focus is the topmost accepting surface, or none when there is none or a modal process stands before it. |
| `SurfaceRequests.Desk.PointerPressed` | compositor/src/input.rs:514-623 | A press on a window behind a modal process raises and focuses that process; a press taken by a menu changes nothing; any other moves the keyboard as the surface pressed demands and raises its window, and nothing else changes. |
| `SurfaceRequests.Desk.Target` | compositor/src/input.rs:514-539 | A panel leaves the keyboard where it is, the background clears it, a decoration gives it to the content of its window, any other surface takes it; always a live one. |
| `SurfaceRequests.Desk.KeyPressed` | compositor/src/input.rs:687-766 | A key moves the keyboard only from a window behind a modal process to the front window of that process. |
| `SurfaceRequests.Desk.RefreshProtection` | compositor/src/presentation_native.rs:51-69 | Exactly the live surfaces under a protected presentation are marked as such, and nothing else changes. |
| `SurfaceRequests.Desk.MenuCompleted` | compositor/src/context_menu.rs:144-183 | The keyboard goes to the first surface of the client that asked for the menu, or nowhere when it has none. |
| `SurfaceRequests.Desk.Handle` | compositor/src/surface.rs:1056-1688 | Every request and input event has exactly its own effect, or the refusal its conditions call for; the table stays sound and at most the request's own token is issued. |
| `SurfaceRequests.Replay` | compositor/src/surface.rs:1037-1690 | Any sequence of requests and input is carried out step by step, each with its own effect; in every view on the way handles are distinct, windows have their content and attached decoration, and both focuses are on live surfaces. |
| `SurfaceRequests.HandleIsGone` | compositor/src/surface.rs:289-324 | A destroyed handle is nobody's handle and nobody's parent. |
| `SurfaceRequests.OwnerFalls` | compositor/src/surface.rs:289-324 | A tree belongs to one client. |
| `SurfaceRequests.OpenKeeps` | compositor/src/surface.rs:1159-1241 | Opening a window keeps every invariant of the table. |
| `SurfaceRequests.RestyleKeeps` | compositor/src/decoration.rs:227-466 | Changing visibility, stacking and backed decoration links keeps every invariant. |
| `StackOrder.BelowIsOrder` | compositor/src/surface.rs:66-75 | Layer, z and index form a strict total order. |
| `StackOrder.OrderIsUnique` | compositor/src/renderer.rs:426-442 | There is only one way to list given surfaces in that order. |
| `StackOrder.SelectLowest` | compositor/src/renderer.rs:427-438 | One scan finds the lowest shown surface not drawn yet. |
| `StackOrder.SelectionOrder` | compositor/src/renderer.rs:424-446 | The selection loop draws exactly the shown surfaces with pixels, in the strict order. |
| `StackOrder.Collect` | compositor/src/gpu_compositor.rs:269-276 | The shown surfaces with pixels, in table order. |
| `StackOrder.SortIsSelection` | compositor/src/gpu_compositor.rs:269-280 | Any stable sort by layer and z gives the very order of the selection loop. |
| `StackOrder.HitTest` | compositor/src/input.rs:137-191 | The accepting shown surface above all other accepting ones; none exactly when none accepts. |
| `StackOrder.HitIsLastDrawn` | compositor/src/input.rs:137-191 | Nothing drawn after the hit surface accepts the point. |
| `Presentation.ExaminedEntry` | compositor/src/presentation.rs:157-198 | One examination of a bound entry, by the fields of what was bound: it is revoked exactly when it was or the observation is missing or not of the bound image, surface and focus, focused, visible, unobscured and no older; it is presented exactly when a full present finds it so, ready and newer, and then records that content and focus. |
| `Presentation.ApplyKeeps` | compositor/src/presentation.rs:53-258 | Every request keeps registrations and correlations distinct and all entries under the current active context. |
| `Presentation.HistoryKeeps` | compositor/src/presentation.rs:53-258 | The same in every reachable registry. |
| `Presentation.EveryEntryHasAStory` | compositor/src/presentation.rs:53-223 | In every run, a presented entry was registered, then bound while focused, then seen in a later full present: same image, surface and focus, visible, unobscured, ready, with content newer than at binding. |
| `Presentation.BoundIsDecided` | compositor/src/presentation.rs:131-223 | In every run a bound registration has an entry until a change of context or its withdrawal. Until then it is revoked if and only if some examination since failed, and presented if and only if none failed and a full present showed the bound surface ready and newer; its content and focus are those of the first such present. |
| `Presentation.EntryPersists` | compositor/src/presentation.rs:53-258 | Each request examines a bound entry, leaves it alone, or drops it. |
| `Presentation.WatchAsksIff` | compositor/src/presentation.rs:199-213 | Watching asks for a full present exactly when some pending entry could be shown by it. |
| `Presentation.RevokedIsFinal` | compositor/src/presentation.rs:157-198 | Revoked is absorbing over whole runs. |
| `Presentation.BoundOnce` | compositor/src/presentation.rs:131-156 | No registration is bound twice in a run. |
| `Presentation.ContextsOnlyAdvance` | compositor/src/presentation.rs:53-66 | Generations never go back, and a deactivated generation is never active again. |
| `Presentation.WithdrawRemovesChecked` | compositor/src/presentation.rs:225-258 | The entry removed is the one whose status was checked, although it is looked up again by number alone. |
| `Presentation.Registry.UpdateContext` | compositor/src/presentation.rs:53-66 | Refused or accepted as a step of the registry's value; acceptance forgets all entries. |
| `Presentation.Registry.Register` | compositor/src/presentation.rs:67-113 | Each refusal in order, else one new entry under the next number. |
| `Presentation.Registry.Bind` | compositor/src/presentation.rs:131-156 | Binds a pending entry once, to a focused observation of its image. |
| `Presentation.Registry.Examine` | compositor/src/presentation.rs:201-223 | The loop renews every entry and reports whether a frame is wanted. |
| `Presentation.Registry.Observe` | compositor/src/presentation.rs:201-213 | Watching never marks an entry as presented. |
| `Presentation.Registry.FullPresented` | compositor/src/presentation.rs:214-223 | A full present is the only step that does. |
| `Presentation.Registry.Status` | compositor/src/presentation.rs:225-240 | The receipt for the right broker, or which error. |
| `Presentation.Registry.Cancel` | compositor/src/presentation.rs:241-258 | Removes the entry and reports it revoked, or which error; its last error cannot occur. |
| `SceneCulling.OutsideCoversNothing` | compositor/src/gpu_compositor.rs:440-447 | A triangle beyond one edge of the dirty region covers no point of it. |
| `SceneCulling.CullingKeepsPicture` | compositor/src/gpu_compositor.rs:428-456 | At every point of the dirty region the culled scene paints the same triangles with the same textures in the same order. |
| `SceneCulling.AppendPaints` | compositor/src/gpu_compositor.rs:1147-1161 | A pushed batch paints its triangles on top of everything before it. |
| `SceneCulling.Cull` | compositor/src/gpu_compositor.rs:428-456 | The culling loop computes that scene. |
| `SceneCulling.KeepTriangles` | compositor/src/gpu_compositor.rs:438-449 | The inner loop keeps exactly the triangles not beyond an edge. |
| `GpuScene.Compositor.Retain` | compositor/src/gpu_compositor.rs:306-311 | Only geometry of surfaces no longer shown is forgotten. |
| `GpuScene.Compositor.SurfaceVertices` | compositor/src/gpu_compositor.rs:333-371 | Cached or not, the vertices are those generated for the surface, and failure is not cached. |
| `GpuScene.Compositor.BuildDesktop` | compositor/src/gpu_compositor.rs:319-379 | The rebuilt desktop, surface by surface, with batches; what it paints is `GpuScene.DesktopPaints`. |
| `GpuScene.Compositor.PushOverlays` | compositor/src/gpu_compositor.rs:382-412 | Overlays are appended as batches above the desktop. |
| `GpuScene.FinishAppends` | compositor/src/gpu_compositor.rs:413-427 | Normalizing and replacing the first quad commute with appending a batch. |
| `GpuScene.DesktopPaints` | compositor/src/gpu_compositor.rs:319-379 | At every point the finished desktop paints the covering triangles of the replaced quad under the white texture, then for each layer in order those generated for it, in device coordinates, under the layer's own handle. |
| `GpuScene.OverlaysPaintAbove` | compositor/src/gpu_compositor.rs:382-412 | Each overlay is painted above, in order, under its own texture. |
| `GpuScene.WholePaints` | compositor/src/gpu_compositor.rs:319-436 | The scene exists exactly when the frame is shown, its textures are ready, its region is on the display and every layer has geometry; it paints quad, layers and overlays and nothing else. |
| `GpuScene.RebuiltPaints` | compositor/src/gpu_compositor.rs:230-468 | A frame is composed exactly when that scene exists and what is left of it after culling can be encoded; at every point of the region to replace what is sent paints the quad, the layers and the overlays, in order. |
| `GpuScene.Compositor.Stage` | compositor/src/gpu_compositor.rs:306-381 | The desktop is kept exactly when its key is unchanged, else rebuilt. |
| `GpuScene.Compositor.Compose` | compositor/src/gpu_compositor.rs:230-468 | Each call gives what a compositor with empty caches gives, failure included, and leaves the caches right. A scene that is given paints, at every point of the region, the replaced quad, then each layer, then each overlay; none is given only where the frame cannot be composed or that scene not be encoded. |
| `GpuScene.Finishing` | compositor/src/gpu_compositor.rs:413-427 | Normalizing only what is new gives the same vertices as normalizing everything, after the first quad. |
| `GpuScene.ComposeAll` | compositor/src/gpu_compositor.rs:230-468 | Any sequence of calls on one compositor, with failures anywhere, equals fresh compositors call by call, and each scene paints its own frame. |
| `TextureUpload.Patch` | compositor/src/surface.rs:449-459 | Writing rows changes those rows and no other. |
| `TextureUpload.CommitWrites` | compositor/src/surface.rs:434-459 | A commit is rejected exactly when its rows do not fit; accepted, the atlas holds the rows it carries, and elsewhere the old ones, or zeros when there was no atlas of that size. |
| `TextureUpload.CommitFollows` | compositor/src/surface.rs:408-493 | A further commit keeps the relation to every older texture: equal generations, equal rows; the next generation differs in its dirty rows only. |
| `TextureUpload.CommitsFollow` | compositor/src/surface.rs:408-493 | The same over any number of commits. |
| `TextureUpload.FollowingIsExact` | compositor/src/gpu_compositor.rs:568-596 | Along one life of a surface the display ends with the whole current atlas. |
| `TextureUpload.SafeIff` | compositor/src/gpu_compositor.rs:568-596 | What the compositor can tell from its note: whatever rows the display kept, it ends with the current atlas, exactly when the size differs or another generation calls for the whole atlas. |
| `TextureUpload.RestartCanBeStale` | compositor/src/surface.rs:1465-1479 | A rejected commit followed by a new first commit can leave old rows on the display. |
| `TextureUpload.RestartedGeneration` | compositor/src/surface.rs:483-492 | After a restart the generation counts commits from one. |
| `TextureUpload.Display.Sync` | display/src/virtio_gpu_backend/virgl_scene.rs:225-302 | A scene is taken exactly when each of its textures can be: nothing is missing and no write fails. Textures not in the scene go; each texture of an accepted scene is kept, patched or new, as sent. |
| `TextureUpload.Display.Take` | display/src/virtio_gpu_backend/virgl_scene.rs:242-300 | Exactly when one texture is taken, and what it then holds; other textures are untouched. |
| `TextureUpload.Presenter.Choose` | compositor/src/gpu_compositor.rs:249-268 | What is sent for one texture: nothing, the dirty rows, or all rows. |
| `TextureUpload.Presenter.Present` | compositor/src/renderer.rs:130-215 | Succeeds exactly when it is composed, offered and shown and no upload it needs fails: the display never refuses what the note calls for. Then the notes and the display are the renewed textures; after any failure nothing is relied on. |
| `TextureUpload.AcceptedIsDisplayed` | compositor/src/gpu_compositor.rs:568-596 | The display's reaction to the chosen upload is exactly that reuse. |
| `TextureUpload.ChosenTakes` | compositor/src/gpu_compositor.rs:249-268 | The display can take every chosen upload, unless writing it fails. |
| `TextureUpload.CommitKeepsStage` | compositor/src/surface.rs:408-493 | A commit, accepted or rejected, keeps every texture that is not in doubt an earlier state of its surface. |
| `TextureUpload.PresentKeepsStage` | compositor/src/renderer.rs:130-215 | A successful present shows every wanted texture that is not in doubt whole, and clears the doubt of those whose note is safe. |
| `TextureUpload.ShotsAreFaithful` | compositor/src/renderer.rs:130-215 | In any run of commits, rejected commits and presents: each successful present shows the current atlas of every surface whose texture is not in doubt. |
| `TextureUpload.RowsAreLastWritten` | compositor/src/surface.rs:408-493 | At every moment of any run of commits and presents, a surface has an atlas exactly when its last commit fitted, and each row of it is the one written by the last commit covering it since the atlas was last started, or zero. |
| `TextureUpload.PresentShowsWrites` | compositor/src/renderer.rs:130-215 | A successful present displays exactly those rows of every surface it asks for that is not in doubt. |
| `TextureUpload.ShotsShowWrites` | compositor/src/renderer.rs:130-215 | The same for every successful present of a run. |
| `TextureUpload.Interleave` | compositor/src/renderer.rs:130-215 | The presenter and the display carry out any such run: they end with the described surfaces and show, for each present that succeeds, the described textures, row by row what the surfaces had last written. |
| `Damage.MergeCovers` | compositor/src/geometry.rs:91-111 | While the spans fit in 32 bits nothing covered by either rectangle is lost. |
| `Damage.MergeCoversIff` | compositor/src/geometry.rs:91-111 | For non-empty rectangles nothing is lost exactly when the spans fit. |
| `Damage.MergeCanLose` | compositor/src/geometry.rs:102-107 | In any frame: the damaged corner is lost when it is merged with a far rectangle. |
| `Damage.Clip` | compositor/src/geometry.rs:125-163 | A clipped rectangle lies in the frame and is not empty. |
| `Damage.ClipIsExact` | compositor/src/geometry.rs:125-163 | Clipping keeps exactly the damaged pixels of the frame. |
| `Damage.QueueKeeps` | compositor/src/server.rs:537-548 | Queueing loses neither the old nor the new damage. |
| `Painting.BackdropHides` | compositor/src/renderer.rs:407-418 | A scene does not depend on what the frame held before. |
| `Painting.Frame.PaintRow` | compositor/src/renderer.rs:789-808 | One row: the brush on its columns, nothing else, in the flat buffer. |
| `Painting.Frame.PaintArea` | compositor/src/renderer.rs:490-525 | A rectangle: the brush on its pixels, nothing else. |
| `Painting.Frame.PaintShadow` | compositor/src/renderer.rs:717-787 | A shadow beside its window in two parts, which may overlap, pixel by pixel. |
| `Painting.Frame.Draw` | compositor/src/renderer.rs:407-562 | Every kind of stroke touches exactly the damaged pixels and gives them its own value. |
| `Painting.Frame.Paint` | compositor/src/renderer.rs:389-562 | Inside the damage every pixel gets its full-repaint colour; outside nothing changes. |
| `PresentLoop.ChangeIsQueued` | compositor/src/server.rs:537-548 | A change whose damage is queued leaves every pixel current or queued. |
| `PresentLoop.Screen.constructor` | compositor/src/renderer.rs:45-74 | A new frame is not trusted. |
| `PresentLoop.Screen.Change` | compositor/src/server.rs:537-548 | The frame and the display stay current apart from the queue. |
| `PresentLoop.Screen.Transfer` | compositor/src/renderer.rs:575-608 | The display gets the presented rectangle and nothing else. |
| `PresentLoop.Screen.Flush` | compositor/src/renderer.rs:327-630 | A transferred present leaves the display showing the scene; a rejected one makes the next full; an undelivered one leaves the display current when the damage has no visible part, and otherwise exactly when the queued pixels were already shown. |
| `PresentLoop.ForgottenIff` | compositor/src/renderer.rs:327-630 | An undelivered present is harmless for every display that was current, exactly when the queued damage has no visible part. |
| `PresentLoop.StaleAfterUndelivered` | compositor/src/renderer.rs:565-612 | A run after which the display is stale though nothing is queued. |
| `Tiling.RowsAt` | display/src/framebuffer_backend.rs:248-259 | The bytes of joined rows, one by one. |
| `Tiling.RowsContiguous` | display/src/framebuffer_backend.rs:236-246 | Contiguous rows are one slice: the fast path sends the same bytes. |
| `Tiling.TileBytes` | display/src/framebuffer_backend.rs:227-268 | A tile carries the frame's own four bytes for each of its pixels, on both paths and within bounds. |
| `Tiling.Backend.PresentMediated` | display/src/framebuffer_backend.rs:209-274 | Terminates; no pixel is sent twice or outside the rectangle, each transfer is within the limit, and success sends every pixel. It fails only below four bytes of limit or where the device failed at the next transfer. |
| `Tiling.Backend.Present` | display/src/framebuffer_backend.rs:140-207 | The same for the validated damage clipped to the display: an invalid frame is refused; a valid one fails with a size limit exactly when the limit is below four bytes and something is visible, and with a device error only where the next transfer failed. |
| `BootstrapServer.ReadRange` | filesystem/src/bootstrap_read.rs:130-149 | The asked range, exactly when no piece is empty or longer than what is left; else an error. |
| `BootstrapServer.ObligingFits` | filesystem/src/bootstrap_read.rs:130-149 | A file that hands out something whenever something is left never fails. |
| `BootstrapServer.Scan` | filesystem/src/bootstrap_read.rs:181-214 | A page ends within the directory; its only errors are bad text and a name too long for a page. |
| `BootstrapServer.ScanPage` | filesystem/src/bootstrap_read.rs:181-214 | A page respects both limits, has only text names, and ends the directory or leaves an entry and has a name. |
| `BootstrapServer.ScanSucceeds` | filesystem/src/bootstrap_read.rs:181-214 | It fails only at a name that is not text, when every name fits a page. |
| `BootstrapServer.ReadDirectory` | filesystem/src/bootstrap_read.rs:153-216 | The loop computes that page. |
| `BootstrapServer.PageFits` | filesystem/src/bootstrap_ipc.rs:84-108 | An encoded page fits the byte budget. |
| `BootstrapServer.PageHasRoom` | filesystem/src/bootstrap_ipc.rs:88-101 | A page always has room for the longest name. |
| `BootstrapServer.Answer` | filesystem/src/bootstrap_ipc.rs:34-140 | The responder's reply to any request; an I/O error only when the file below breaks off. |
| `BootstrapClient.Client.Exchange` | capability/src/bootstrap_file.rs:104-161 | A reply that passes is a success within the budget; what the client makes of any reply. |
| `BootstrapClient.Checked` | capability/src/bootstrap_file.rs:136-158 | What a checked reply satisfies. |
| `BootstrapClient.Client.ReadFile` | capability/src/bootstrap_file.rs:163-186 | Any server and any maximum: ends, at most `maximum` bytes. The responder over any file: exactly that file if it fits, else the too-large error. |
| `BootstrapClient.Client.ReadDirNames` | capability/src/bootstrap_file.rs:188-226 | Any server: ends within the limit. The responder over any directory: success exactly when all names are text and the listing fits, then every non-dot entry once in order; the no-progress error never occurs. |
| `BootstrapClient.PagePasses` | filesystem/src/bootstrap_ipc.rs:84-108 | Each page of the responder passes the client's checks and advances. |
| `BootstrapClient.FileReplyPasses` | filesystem/src/bootstrap_ipc.rs:77-83 | Each file reply of the responder passes the client's checks. |
| `PolicyFile.Disk.Recover` | capability/src/persistent_grant.rs:274-291 | Carries out `Recovering`, step by step and with every failure. |
| `PolicyFile.Disk.WriteTemporary` | capability/src/persistent_grant.rs:139-167 | Carries out `Written`, part by part. |
| `PolicyFile.Disk.Prepare` | capability/src/persistent_grant.rs:302-305 | Carries out `Preparing`. |
| `PolicyFile.Disk.Swap` | capability/src/persistent_grant.rs:306-315 | Carries out `Swapping`, with its way back. |
| `PolicyFile.Disk.Replace` | capability/src/persistent_grant.rs:297-322 | Carries out `Replacing`, step by step and with every failure. |
| `PolicyFile.RecoveryKeeps` | capability/src/persistent_grant.rs:274-291 | Finished or killed at any step, recovery never changes what a reader gets; finished, it leaves one current file; it fails only if a step does. |
| `PolicyFile.WritingTouchesOnlyTemporary` | capability/src/persistent_grant.rs:139-167 | Whatever part is written, the current and previous files are untouched. |
| `PolicyFile.PreparationKeeps` | capability/src/persistent_grant.rs:302-305 | Before the renames a reader gets the old contents. |
| `PolicyFile.SwapTurns` | capability/src/persistent_grant.rs:306-315 | A failed swap leaves the old contents in effect; a successful one turns them at its last step. |
| `PolicyFile.ReplacementTurns` | capability/src/persistent_grant.rs:297-322 | Old contents up to one moment, new ones from then on, whichever steps fail; success means the new file alone. |
| `PolicyFile.KilledRecoveriesKeep` | capability/src/persistent_grant.rs:274-291 | Any number of killed recoveries leave what a reader gets as it was. |
| `PolicyFile.CrashIsSafe` | capability/src/persistent_grant.rs:274-322 | Kill a replacement anywhere and any number of recoveries anywhere: one finished recovery leaves the old file if the replacement was killed before its turning point, else the new one, and nothing beside it. |
| `PolicyFile.Crash` | capability/src/persistent_grant.rs:274-322 | The same crashes on a disk end in that state; a recovery in which no step fails finishes. |
| `GrantDb.Hex` | capability/src/persistent_grant.rs:117-125 | Two digits for each byte. |
| `GrantDb.HexInjective` | capability/src/persistent_grant.rs:117-125 | Different keys have different hex text. |
| `GrantDb.DecimalInjective` | capability/src/persistent_grant.rs:351-362 | Different numbers have different decimal text. |
| `GrantDb.SplitJoin` | capability/src/persistent_grant.rs:396-401 | Splitting joined clean fields gives the fields back. |
| `GrantDb.Matches` | capability/src/persistent_grant.rs:378-449 | The lookup loop finds a line exactly when one grants the request. |
| `GrantDb.LineIsExact` | capability/src/persistent_grant.rs:351-375 | A clean record's line grants exactly what the record answers. |
| `GrantDb.WriteLine` | capability/src/persistent_grant.rs:351-375 | Field by field the loop writes the line of the record. |
| `GrantDb.LookupIsExact` | capability/src/persistent_grant.rs:324-449 | Over any list of clean records: granted exactly when some record has the same subject and is all-user or has the same capability and resource. |
| `GrantDb.DirtySubjectIsNeverGranted` | capability/src/persistent_grant.rs:396-440 | A subject with a tab or newline is never granted anything. |
| `GrantDb.AppendedIsFoundIff` | capability/src/persistent_grant.rs:324-449 | Whatever was stored before: an appended grant is found again exactly when its identity is clean. |
| `GrantDb.LookupIsExactIff` | capability/src/persistent_grant.rs:324-449 | The lookup is right for every request exactly when every stored identity is clean. |
| `GrantDb.PackageCanHoldLine` | capability/src/persistent_grant.rs:351-375 | A package that holds a line between newlines makes the lookup answer for a record that was never stored. |
| `GrantDb.PackageHoldsLineIff` | capability/src/requester_context.rs:8-18 | Stored identities, with names of a bounded length and keys of 32 bytes, can do that exactly when the bound is at least 84 bytes. |
| `GrantDb.SingleGrantIsFoundIff` | capability/src/persistent_grant.rs:351-440 | A grant for one resource is found for that resource only, except that a missing and an empty one are confused. |
| `GrantDb.MissingResourceReadsAsEmpty` | capability/src/persistent_grant.rs:351-440 | A grant without a resource is found for the empty one, and the other way round. |
| `GrantDb.Database.Append` | capability/src/persistent_grant.rs:324-376 | Exactly when an append is refused; else the file is that of the longer list, and its capabilities and resources stay free of separators. |
| `GrantDb.Database.IsGranted` | capability/src/persistent_grant.rs:378-449 | The lookup over everything appended: what the file says; no unclean subject; and exactly the answering records when all identities are clean. |
| `ExecutionGrants.KeyOrder` | capability/src/execution_grant.rs:26-32 | Records are strictly and totally ordered. |
| `ExecutionGrants.KeyTransitive` | capability/src/execution_grant.rs:26-32 | The order is transitive. |
| `ExecutionGrants.ParseRecord` | capability/src/execution_grant.rs:100-112 | Reading a written record gives it back. |
| `ExecutionGrants.RecordParsed` | capability/src/execution_grant.rs:100-112 | Writing a record read with clean padding gives its bytes back. |
| `ExecutionGrants.Encode` | capability/src/execution_grant.rs:119-140 | A list is encoded exactly when it is short enough and strictly ascending. |
| `ExecutionGrants.Decode` | capability/src/execution_grant.rs:81-117 | A file is accepted exactly when it is the file of some such list, and gives that list. |
| `ExecutionGrants.ImageIsInjective` | capability/src/execution_grant.rs:81-140 | Different lists have different files. |
| `ExecutionGrants.BinarySearch` | capability/src/execution_grant.rs:149-160 | Where a key is, or where it belongs. |
| `ExecutionGrants.InsertKeeps` | capability/src/execution_grant.rs:155-168 | Insertion there keeps the list canonical and adds just the key. |
| `ExecutionGrants.Store.Load` | capability/src/execution_grant.rs:142-147 | Loading gives the remembered keys in order; a file that cannot be read is an error. |
| `ExecutionGrants.Store.Contains` | capability/src/execution_grant.rs:149-151 | Membership in the set of remembered keys, or a read error. |
| `ExecutionGrants.Store.Remember` | capability/src/execution_grant.rs:155-168 | Which error and which set, exactly, for every outcome: a read failure, a known key, a full store, a stored key, a refused write, and a write that took effect but failed afterwards. |
| `ImageCatalog.AddLibraries` | capability/src/image_catalog.rs:199-219 | A package's libraries are added exactly when all are bound, no path is taken, and the limit allows it. |
| `ImageCatalog.Follow` | capability/src/image_catalog.rs:220-236 | Dependencies are found or loaded once, every edge is checked, and everything found is reachable; it fails only if no acceptable closure exists. |
| `ImageCatalog.Resolve` | capability/src/image_catalog.rs:178-243 | Ends on every graph; succeeds exactly when the root is launchable and an acceptable closure exists, having found just reachable packages, once each, with all edges met and exactly their libraries under distinct paths. |
| `ImageCatalog.FoundIsAcceptable` | capability/src/image_catalog.rs:178-243 | What a finished search found is an acceptable closure. |
| `ImageCatalog.WishAllows` | capability/src/image_catalog.rs:199-219 | An acceptable closure lets the search add the libraries of each package it meets. |
| `ImageCatalog.WishHasRoom` | capability/src/image_catalog.rs:228-230 | An acceptable closure leaves room for a package not found yet. |
| `ImageCatalog.FindBinary` | capability/src/image_catalog.rs:187-190 | The first binary of that path. |
| `ImageCatalog.Validate` | capability/src/image_catalog.rs:255-273 | Bytes are accepted for a path exactly when its one record has their size and digest. |

## Left out

- IPC transport, handle closing, process creation, kernel capability checks and the probe builds: represented by arbitrary answers.
- SHA-256, signatures, manifest parsing and the crates `mnu_abi`, `mochios_filesystem_protocol` and `mochios_viewkit_gpu_protocol`: their results and limits are parameters.
- Float geometry (triangle clipping, rounded corners, shadow coverage, blending): arbitrary functions of the pixel or vertex; culling is over real numbers.
- ext4 below the bootstrap reader: an immutable tree of files and directories.
- Memory exhaustion: allocation failures appear only where the source tests them among other refusals.
- `OP_ATTACH_BUFFER`, `OP_DAMAGE`, `OP_COMMIT` buffer bookkeeping, titles, input regions, pointer grabs and the forwarding of menus in the compositor, beyond what the modules above use; positions and sizes of surfaces are not in the surface table.
- Prompt texts (`write_prompt`), wait items and process handles of the consent service: plumbing.
- `merge_surface_vertices` in the commit path: only the atlas rows of a commit are modelled.
- Timing: batching delays, retries and liveness when a peer never answers.
- SurfaceRequests.Desk.Create: window ids count up without wrapping at 64 bits, and surface tokens are assumed never to repeat over the whole run, which the code only checks against live surfaces.
- SurfaceRequests.Desk.Handle: `OP_ATTACH_BUFFER`, `OP_DAMAGE` and `OP_COMMIT` are not among the requests; they change pixels, not the table, windows or focus.
- SurfaceRequests.Desk.KeyPressed: the keys taken by the application switcher and by an open menu are one parameter.
- The GPU panel path (`try_gpu_panel_present`): it copies the panel into the shared frame before the frame is offered, and a failed offer leaves the software contents trusted; `PresentLoop` models the software path alone.
- SceneCulling.OutsideCoversNothing: over real numbers, without the rounding of 32-bit floats.
- SceneCulling.CullingKeepsPicture: over real numbers, without the rounding of 32-bit floats.
- TextureUpload.CommitFollows: generations count up without wrapping at 64 bits.
- TextureUpload.CommitsFollow: generations count up without wrapping at 64 bits.
- TextureUpload.Interleave: generations count up without wrapping at 64 bits, and surfaces are not destroyed during the run.
- TextureUpload.ShotsShowWrites: under the same limits as `TextureUpload.Interleave`.
- GpuScene.RebuiltPaints: over real numbers, without the rounding of 32-bit floats.
- PresentLoop.Screen.Flush: the GPU panel path that shares the frame buffer is not modelled, see above.
- TextureUpload.Display.Sync: retained textures are a map by key, so their order in the display's list is not captured.
- GpuScene.Compositor.Compose: vertex counts are not truncated to 32 bits, and the fonts of the frame counter are given as overlay vertices.
- GrantDb.Matches: fields that are not valid UTF-8 are compared as bytes; the code never writes such a capability or resource.
- ExecutionService.Serve: that a confirmed decision is given its success is stated for prompts of graphical presenters; for terminals it is `ExecutionFrontend.Frontends.Command` that states it, with the key pattern. Messages that concern neither held calls nor consent are one empty message; a session change always revokes.
- Presentation.Registry.Observe: what the native state answers is a function of the registration for each call.
- PolicyFile.Disk.Step: renames and removals are atomic and reach the disk in order, as the directory syncs between them intend.
- BootstrapClient.Client.ReadFile: for the exact contents, request numbers are assumed not to run out during one read and the file to end a transfer before 2^64.
- Tiling.Backend.PresentMediated: byte offsets are unbounded; with dimensions of at most 4096 they stay far below 64 bits.
