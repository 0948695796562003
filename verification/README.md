# Lighting, telemetry and DBC tool-chain model

A Dafny model of three groups of code, with proofs of what each promises.

**The LED renderer.** Zone fills are drawn in place with machine integers and
proved against a pointwise specification over exact rationals, and that one again
against shares in plain integers (`LedZone`, `LedZoneLaws`, `ZoneShares`). A
command's effects become layers, an in-place stable insertion sort orders them
and a painter draws them; the result is proved equal to a sort-free question, who
owns this pixel, answered effect by effect in numbers (`Layers`, `LayerStack`,
`FrameLaws`). The controller class survives arbitrary driver failures: the frame
it remembers is the whole strip, and after a failed write nothing lit is sent
until a black frame was accepted and a new command arrived (`Display`,
`Transients`, `Renderer`). One-shot effects are followed from their trigger to
their last frame over all interleavings (`TransientBindings`, `TransientRuns`, `TransientProgress`), and the
controller's passes are proved to be steps of those interleavings
(`RendererRuntime`). The restart handshake is a step system of publishers, gate,
one-slot queue, worker, supervisor and owner (`RestartHandshake`); its worker
passes are the outcomes that the controller is proved to stay inside, and until
the deadline its confirmation always stays possible (`HandshakeProgress`).

**The telemetry services.** The dispatcher of the profile service is a step
system over its flags and both wake forms, with what is safe in every run
(`Dispatcher`) and what stays possible in every state (`DispatcherProgress`). The
deadline-driven freshness notifications of the vehicle service are a class
(`Notifications`).

**The DBC tool chain.** Bit coordinates, exact raw intervals and conversion
pivots, the firmware's raw domain that consumes them, order-independent
composition of sources and its agreement with profile validation, canonical
decimals, the lexer with its round trip, and atomic publication of an artifact
set (`BitCoordinates`, `RawIntervals`, `RawValues`, `PayloadNumbers`, `Compose*`,
`ProfileComposition`, `Decimal*`, `Lexer*`, `Artifacts*`).

Machine integers of the C++ code are range-checked newtypes (`Pixels`), so a
member that computes with them cannot overflow or underflow. `RawValues` is the
exception: the 64-bit raw bits and magnitudes and the 8-bit lengths of
`extract.cpp` are natural numbers there, and its contracts bound the extracted
bits and the magnitudes. Python integers and fractions are unbounded integers and
reals: every operation on them is exact.

Modelling decisions a reader should know:

- A successful strip write replaces a prefix; a failed one leaves arbitrary
  contents. The active length is constant after the start and lies between the
  default and the maximum length, as `configure_pixel_count` ensures.
- Concurrency is interleaving of atomic steps: each atomic load or store, each
  critical section and each queue operation is one step, except where a load
  is taken together with computation that no other thread sees. All atomics in
  the modelled code are sequentially consistent or guarded by a lock.
- The digest of an artifact set is the set itself, that is, an injective hash.
- Notification proofs assume that decoded observations are never older than the
  ones they replace and keep their freshness timeout; the precondition of
  `Notifications.Scheduler.Process` says so.
- The decimal pattern of the lexer is an automaton over its characters. It is
  proved to accept the same texts as the piecewise reader of `Decimals`.
- The functions that the methods and the larger theorems are stated with are
  themselves pinned by laws that name numbers, characters and fields only:
  `FrameLaws`, `ZoneShares`, `PayloadNumbers`, `DecimalReading`, `LexerTexts`,
  `ComposeOutcome` and the `*Progress` modules.

Four promises turned out to hold only under a condition, which is proved exactly:

- A one-shot effect of a rejected publication can still begin when the worker
  had received its snapshot before the rejection. It then ends at the next pass
  that takes a command (`TransientRuns.RejectedBeginsIffHeld`,
  `RejectedCanStillBegin`, `RejectedEndsAtNextCommand`). The condition asks
  whether the epoch the worker loaded is the one the trigger captured; before
  the load it only asks whether the zone fits, because the 32-bit epoch can
  come round again. `RejectedBeginsWithinBumps` counts the bumps: short of coming
  round, the epoch must still be the one the trigger captured.
- `stop` of the profile service may be retried after a timeout, but if the
  dispatcher leaves its loop after the exit wait timed out, every retry marks
  work nobody will take and times out again. A retry is safe in every
  interleaving exactly when the dispatcher is not about to leave
  (`Dispatcher.RetrySucceedsUnlessDispatcherLeft`, `AStopCanGetStuck`,
  `RetryIsSafeUnlessDispatcherLeaves`, `ASuccessfulRetryIsNotCertain`).
- A canonical decimal is a fixed point of `_decimal` only while it is at most
  1024 characters long; `1e1024` has a canonical form of 1025
  (`Decimals.CanonicalTwice`, `Decimals.CanonicalCanOutgrowItsLimit`).
- `publish` of an artifact set is documented to leave the previous index
  unchanged unless it publishes. It can raise after it replaced the index, when
  the unlinking of the renamed pointer in its cleanup fails; nothing else can
  raise after the replacement (`Artifacts.FailureLeavesTheIndex`,
  `Artifacts.APublishCanRaiseLate`).

## Model

| member | source | states |
|---|---|---|
| `LedZone.FractionOf` | components/local_argb_sink_contract/include/local_argb/lighting_zone.hpp:48-53 | A fill level is the exact ratio clamped to [0, 1]; a zero denominator is empty, not a fault |
| `LedZone.SameFraction` | components/local_argb_sink_contract/include/local_argb/lighting_zone.hpp:69-72 | The 64-bit cross multiplication does not overflow and decides equality of the two levels as rational numbers, both ways |
| `LedZone.ValidateZone` | components/local_argb/src/led_zone.cpp:96-106 | Valid exactly for a declared direction and a non-empty zone inside the active length, stated without the subtraction trick, for every machine-width start and length; which error wins when several apply |
| `LedZone.ScaleChannel` | components/local_argb/src/led_zone.cpp:17-21 | 64-bit integer scaling never overflows and equals the floor of channel times the real ratio |
| `LedZone.WritePixel` | components/local_argb/src/led_zone.cpp:43-48 | A colour that dimmed to black changes nothing; any other replaces exactly that pixel |
| `LedZone.LightRun` | components/local_argb/src/led_zone.cpp:50-63 | In place, every pixel of the frame is what its real-valued coverage in the run says, forward and backward; no index underflow |
| `LedZone.LightCenterOut` | components/local_argb/src/led_zone.cpp:65-92 | In place, centre pixel first for an odd length, then both sides by half the rest; pointwise over the reals for every pixel of the frame |
| `LedZone.FillZone` | components/local_argb/src/led_zone.cpp:108-131 | The imperative fill equals the pointwise specification `Filled` over the exact coverage of each pixel; an invalid zone leaves the frame untouched |
| `LedZoneLaws.LightIsConserved` | components/local_argb/src/led_zone.cpp:50-92 | The coverages of a valid zone sum to exactly length times fraction, in all three directions |
| `LedZoneLaws.FilledOnBlack` | components/local_argb/src/led_zone.cpp:108-131 | On a cleared frame a zone pixel is its colour scaled by its coverage and rounded down, every other pixel stays black |
| `LedZoneLaws.FillIsMonotone` | components/local_argb/src/led_zone.cpp:17-28 | A larger level, compared as a rational across different denominators, never dims any pixel |
| `LedZoneLaws.EqualFractionsFillAlike` | components/local_argb_sink_contract/include/local_argb/lighting_zone.hpp:68-72 | Fractions that compare equal fill any frame identically |
| `LedZoneLaws.CenterOutIsSymmetric` | components/local_argb_sink_contract/include/local_argb/lighting_zone.hpp:18-25 | A centred fill of a cleared frame draws a mirror-symmetric frame, for odd and even lengths |
| `LedZoneLaws.EndToStartReverses` | components/local_argb_sink_contract/include/local_argb/lighting_zone.hpp:16-17 | Filling a cleared frame from the end draws the reversal of the frame filled from the start |
| `LedZoneLaws.FullAndEmptyFills` | components/local_argb/src/led_zone.cpp:108-131 | A full level lights the whole zone in the colour over any frame, an empty one changes nothing |
| `ZoneShares.CoverageIsShare` | components/local_argb/src/led_zone.cpp:50-92 | The coverage of a pixel is what is left for it, in integers, after the pixels nearer to the end or the middle the fill starts from; the two pixels of a centred pair share what is left |
| `ZoneShares.FillShowsShares` | components/local_argb/src/led_zone.cpp:108-131 | Over any frame, a fill shows the whole colour on the pixels it fully reaches, the integer part of each channel on the one it partly reaches, and leaves the others; stated with numerator and denominator only, for all three directions |
| `Lighting.AddStart` | components/local_argb_sink_contract/include/local_argb/lighting_sink.hpp:143-152 | A start is appended exactly when the result is still a valid snapshot (valid identity, number and duration, distinct identities, capacity); otherwise nothing changes |
| `Layers.OwnerExists` | components/local_argb_sink_contract/include/local_argb/lighting_sink.hpp:19-24 | Every pixel is covered by no layer or has an owner: greatest priority, later in drawing order on ties |
| `Layers.ShownFrameIsUnique` | components/local_argb_sink_contract/include/local_argb/lighting_sink.hpp:19-24 | The ownership specification determines the frame: at most one frame shows a list of layers |
| `Layers.SortIsAPermutation` | components/local_argb/src/local_argb.cpp:101-111 | The sort orders by priority and neither loses nor invents a layer |
| `Layers.OwnerIsDrawnLast` | components/local_argb/src/local_argb.cpp:101-111 | After the stable sort the last layer drawn over a pixel is its owner, which needs stability on ties |
| `Layers.SortThenPaintShowsOwners` | components/local_argb/src/local_argb.cpp:266-281 | For every list of layers, stable sort then paint equals the sort-free ownership specification on every pixel |
| `Layers.DrawFlow` | components/local_argb/src/local_argb.cpp:33-55 | In place, a moving head with a five-step dimming tail from the inner edge outward, clipped to the turn region, each side; everything else unchanged |
| `Layers.DrawCenterOutFill` | components/local_argb/src/local_argb.cpp:57-64 | In place, a bar that grows from the inner edge; everything else unchanged |
| `Layers.Animate` | components/local_argb/src/local_argb.cpp:155-175 | The selected animation at an elapsed time, including the all-dark last phase of the bar |
| `Layers.DrawLayer` | components/local_argb/src/local_argb.cpp:123-141 | A layer over its cleared region shows exactly its own pixels there and changes nothing outside |
| `Layers.DrawOwned` | components/local_argb/src/local_argb.cpp:143-151 | A layer takes its whole region, dark pixels included, whatever the frame held before |
| `Layers.TurnsMirror` | components/local_argb/src/local_argb.cpp:33-64 | The right turn is the mirror image of the left one at every moment of either animation |
| `LayerStack.Stack.constructor` | components/local_argb/src/local_argb.cpp:82-99 | The layers in drawing order: lit valid fills, brake, left turn, right turn, transients; the fixed capacity always suffices |
| `LayerStack.Stack.Push` | components/local_argb/src/local_argb.cpp:117 | Appends one layer |
| `LayerStack.InsertFrom` | components/local_argb/src/local_argb.cpp:105-109 | Dropping a layer behind every strictly higher one is insertion after its equals |
| `LayerStack.Stack.Sink` | components/local_argb/src/local_argb.cpp:104-110 | One pass of the in-place sort inserts its layer into the sorted prefix and leaves the rest |
| `LayerStack.Stack.SortByPriority` | components/local_argb/src/local_argb.cpp:101-111 | The in-place insertion sort is the stable sort of the list |
| `Transients.ZonesStayFit` | components/local_argb/src/local_argb.cpp:188-207 | No command makes a running effect with a zone outside the active length, with or without an epoch change |
| `Transients.ActiveFillsFit` | components/local_argb/src/local_argb.cpp:209-218 | Every transient handed to the layer stack has a valid zone, which is why the stack need not check it |
| `Transients.TransientLayers.Cancel` | components/local_argb/src/local_argb.cpp:177-180 | Stops every slot and keeps its seen sequence |
| `Transients.TransientLayers.Expire` | components/local_argb/src/local_argb.cpp:182-186 | Stops exactly the slots whose elapsed time is not inside their duration |
| `Transients.TransientLayers.Apply` | components/local_argb/src/local_argb.cpp:188-207 | Per slot: an unseen sequence is admitted or recorded as refused, a seen one is not replayed, a missing identity is cancelled |
| `Transients.TransientLayers.Active` | components/local_argb/src/local_argb.cpp:209-218 | The running slots of the snapshot as full fills, in snapshot order |
| `Display.WriteKeepsMirror` | components/local_argb/src/local_argb.cpp:283-307 | A write, accepted, skipped or failed with arbitrary strip contents, keeps the recorded frame equal to the whole strip, past the active length too |
| `Display.PassKeepsMirror` | components/local_argb/src/local_argb.cpp:253-264 | Every pass a driver allows keeps the mirror invariant; a failed pass holds a fault |
| `Display.DarkIsStable` | components/local_argb/src/local_argb.cpp:253-264 | Once black is recorded under a command that cannot light, no pass touches the strip |
| `Renderer.PixelSink.Write` | components/local_argb_sink_contract/frame_include/local_argb/pixel_frame.hpp:35-42 | The driver contract: an accepted write replaces a prefix of the strip, a failed one leaves anything |
| `Renderer.DebtCountsRecovery` | components/local_argb/src/local_argb.cpp:245-249 | When the controller may light again, every earlier failed write was followed by a full-length black write and then a command |
| `Renderer.FailDarkExtends` | components/local_argb/src/local_argb.cpp:283-307 | Appending an event keeps the fail-dark property of the whole history when light is only sent without debt |
| `Renderer.CommandFrameShowsOwners` | components/local_argb/src/local_argb.cpp:266-281 | A frame is the painted result for a command if and only if each pixel shows its owner |
| `Renderer.CommandFrameIsDarkBeyond` | components/local_argb/src/local_argb.cpp:287-292 | No command lights a pixel past the active length |
| `Renderer.PaintLayers` | components/local_argb/src/local_argb.cpp:279-280 | The painting loop is the fold of the layers over the frame |
| `Renderer.RendererController.constructor` | components/local_argb/private_include/local_argb/renderer.hpp:85-87 | A new controller holds no command and no recorded frame |
| `Renderer.RendererController.ConfigurePixelCount` | components/local_argb/private_include/local_argb/renderer.hpp:93-99 | The active length changes exactly when it is in range and no frame is recorded; every invariant survives |
| `Renderer.RendererController.Start` | components/local_argb/src/local_argb.cpp:220-229 | From any state: success means a recorded black strip and no fault, failure means a fault; all invariants hold afterwards |
| `Renderer.RendererController.WriteDesired` | components/local_argb/src/local_argb.cpp:283-307 | Skips a frame already shown; otherwise accepted, or faulted with a black retry and all transients cancelled; keeps fail-dark over the whole event history; exactly what it sends and over which length |
| `Renderer.RendererController.TakeCommand` | components/local_argb/src/local_argb.cpp:231-249 | Replaces the command, drops a fault only when black is recorded, restarts the animation exactly when an on/off effect changes |
| `Renderer.RendererController.Apply` | components/local_argb/src/local_argb.cpp:231-251 | A command then a tick: keeps every invariant; on success the strip is the command’s frame when the command is actionable, not past its validity and no fault is held, and black with no effect running otherwise; the animation restarts exactly when a turn or the brake changed |
| `Renderer.RendererController.Tick` | components/local_argb/src/local_argb.cpp:253-264 | Whatever the driver does: an accepted pass shows the held command’s frame while it is actionable, not past its validity and no fault is held, and black otherwise; past the validity, or after a failure, no effect runs |
| `Renderer.RendererController.Prepare` | components/local_argb/src/local_argb.cpp:253-262 | Ages the effects, cancelling them when time ran backwards, a fault is held or the command is not actionable or past its validity, and computes the wanted frame, black in the last three cases |
| `Renderer.RendererController.DrawFrame` | components/local_argb/src/local_argb.cpp:266-281 | On the cleared buffer the drawing code produces exactly the specified command frame, dark beyond the active length |
| `FrameLaws.TopEffectShows` | components/local_argb_sink_contract/include/local_argb/lighting_sink.hpp:19-24 | Each pixel of a command’s frame shows the topmost effect there (greatest priority; then fills in order, brake, left, right, running starts in order): where every effect is, when it is on and its colour are written out in numbers, the ceiling of 16 included |
| `FrameLaws.BackgroundShows` | components/local_argb/src/local_argb.cpp:266-272 | Where no effect is the strip is black, or the generic colour limited to 16 when no turn, brake or fill is held |
| `FrameLaws.FlowShows` | components/local_argb/src/local_argb.cpp:33-55 | The flow by the clock: the head pixel of each 33333 microseconds and its four dimmer followers, in numbers |
| `FrameLaws.BarShows` | components/local_argb/src/local_argb.cpp:162-175 | The bar by the clock: one more amber pixel every 33333 microseconds, then one dark step |
| `FrameLaws.FlowMovesOutward` | components/local_argb/src/local_argb.cpp:38-53 | One step later every flow pixel is one further from the inner edge |
| `RestartHandshake.StepKeepsInv` | components/local_argb/private_include/local_argb/stall_gated_sink.hpp:22-58 | Every atomic step of publishers, owner, worker and supervisor keeps the protocol invariant |
| `RestartHandshake.ReachableInv` | components/local_argb/src/local_argb_idf.cpp:169-183 | The invariant in every reachable state, for any number of publishers, any interleaving and any driver failures |
| `RestartHandshake.ConfirmedIsFinal` | components/local_argb/src/local_argb_idf.cpp:374-378 | A confirmed restart fail-off stays confirmed |
| `RestartHandshake.ConfirmedStaysBlack` | components/local_argb/src/local_argb_idf.cpp:352-384 | When the restart fail-off returns true the strip is black, and it is black in every later state of every run |
| `RestartHandshake.DrainedGateAdmitsNothing` | components/local_argb/private_include/local_argb/stall_gated_sink.hpp:60-64 | Once the gate is shut and its count read zero, only commands that cannot light reach the queue |
| `RestartHandshake.StallLeavesNoLight` | components/local_argb/private_include/local_argb/progress_fail_off.hpp:43-47 | After a stall fail-off the newest command cannot light, or a racing publisher is still bound to write black behind it |
| `RestartHandshake.ConfirmationIsReachable` | components/local_argb/src/local_argb_idf.cpp:367-378 | The confirmation is not vacuous: a concrete interleaving reaches it |
| `HandshakeProgress.GivesUpExactlyWhenExpired` | components/local_argb/src/local_argb_idf.cpp:361-384 | The owner gives up exactly at a poll that found nothing after its deadline |
| `HandshakeProgress.PatientOwnerNeverGivesUp` | components/local_argb/src/local_argb_idf.cpp:356-384 | Over every run in which the deadline does not pass, it never gives up |
| `HandshakeProgress.ConfirmationStaysPossible` | components/local_argb/src/local_argb_idf.cpp:352-384 | From every reachable state in which the owner has not given up, some interleaving without an expired poll reaches the confirmation |
| `HandshakeProgress.OpenGateLetsThrough` | components/local_argb/private_include/local_argb/stall_gated_sink.hpp:22-28 | An undisturbed publisher at an open gate queues exactly its own command and leaves nothing else behind |
| `HandshakeProgress.ClosedGateLeavesBlack` | components/local_argb/private_include/local_argb/stall_gated_sink.hpp:26-34 | A publisher that met a closed gate or a bumped epoch after queuing leaves black; one that met it before queues nothing |
| `HandshakeProgress.StallCloses` | components/local_argb/private_include/local_argb/stall_gated_sink.hpp:42-46 | A whole stall fail-off closes an open gate, bumps the epoch and queues black |
| `HandshakeProgress.ResumeOpens` | components/local_argb/private_include/local_argb/stall_gated_sink.hpp:47-52 | A whole resume bumps the epoch and reopens a closed gate, never a shut one |
| `TransientBindings.NextSequence` | components/local_argb_actions/src/transient_bindings.cpp:37-39 | The 64-bit increment never yields zero or the same number again |
| `TransientBindings.LatestHoldsCurrentStarts` | components/local_argb_actions/src/transient_bindings.cpp:48-60 | A start is in the snapshot if and only if some slot retains it for the current epoch |
| `TransientBindings.Bindings.Bind` | components/local_argb_actions/src/transient_bindings.cpp:7-27 | Which status wins; a binding is appended exactly on success and nothing changes otherwise |
| `TransientBindings.Bindings.Contains` | components/local_argb_actions/src/transient_bindings.cpp:72-80 | Whether the action already has a binding on that region |
| `TransientBindings.Bindings.Trigger` | components/local_argb_actions/src/transient_bindings.cpp:29-46 | Renumbers, stamps and retains every binding of the action and no other |
| `TransientBindings.Bindings.Latest` | components/local_argb_actions/src/transient_bindings.cpp:48-60 | The snapshot loop equals the specified list; the append it ignores the result of never fails |
| `TransientBindings.Bindings.DiscardStarts` | components/local_argb_actions/src/transient_bindings.cpp:62-65 | Retires every start and keeps the sequence numbers |
| `TransientRuns.StepKeepsSlot` | components/local_argb_actions/src/led_action_sink.cpp:72-87 | Each step of adapter, queue, gate epoch and worker (receive, load of the epoch, draw) keeps the slot invariant: what travels to the renderer is numbered in order, and every running effect began inside its trigger’s window and epoch |
| `TransientRuns.ReachableSlot` | components/local_argb/src/local_argb_idf.cpp:169-177 | The slot invariant in every reachable state of every interleaving |
| `TransientRuns.SlotOnlyAges` | components/local_argb/src/local_argb.cpp:196-197 | Over a run a slot only moves to newer starts, and a start that is over stays over |
| `TransientRuns.ShownOnce` | components/local_argb_sink_contract/include/local_argb/lighting_sink.hpp:115-117 | A trigger is shown in one contiguous run of passes: never shown, dropped and shown again |
| `TransientRuns.ShownInWindow` | components/local_argb/src/local_argb.cpp:198-202 | Every showing lies between the trigger time and less than twice the duration later, and two showings are less than one duration apart |
| `TransientRuns.ShownInItsEpoch` | components/local_argb/private_include/local_argb/renderer_runtime.hpp:15-19 | Every showing is in the epoch the trigger captured, compared with the epoch loaded by the last pass that took a command; the gate may have moved on since that load |
| `TransientRuns.RejectionRetires` | components/local_argb_actions/src/led_action_sink.cpp:83-86 | What was triggered in a rejected publication is in no queued or future snapshot |
| `TransientRuns.RejectedBeginsIffHeld` | components/local_argb/private_include/local_argb/stall_gated_sink.hpp:27-34 | A start that was not running when its publication was rejected can begin afterwards if and only if the worker already held it in a received snapshot that it can still admit |
| `TransientRuns.RejectedBeginsWithinBumps` | components/local_argb/private_include/local_argb/stall_gated_sink.hpp:27-34 | The same within any number of epoch bumps: the start can begin if and only if it is held, its zone fits and its epoch is the one loaded or at most that many bumps away; when the bumps cannot bring the epoch round, the unloaded epoch must still be the one the trigger captured |
| `TransientRuns.RejectedCanStillBegin` | components/local_argb/private_include/local_argb/stall_gated_sink.hpp:27-34 | The failing case exists: a concrete run in which the worker has received the snapshot and loaded the epoch before a fail-off rejects the publication, and begins the start afterwards in the superseded epoch |
| `TransientRuns.RejectedEndsAtNextCommand` | components/local_argb/src/local_argb.cpp:204-206 | A rejected start that is shown after its rejection is over at the next pass that takes a command |
| `TransientProgress.SlotAfterCommand` | components/local_argb/src/local_argb.cpp:188-207 | A slot after a command, with every admission condition written out: sequence, duration bound, epoch, window and zone |
| `TransientProgress.EffectRunsItsDuration` | components/local_argb/src/local_argb.cpp:177-186 | An effect runs from its beginning for exactly its duration |
| `TransientProgress.TriggerIssues` | components/local_argb_actions/src/transient_bindings.cpp:29-60 | A trigger issues and offers exactly its own slots’ starts, with their number, effect, time and epoch; every other slot keeps its start |
| `TransientProgress.TriggerIsShown` | components/local_argb_sink_contract/include/local_argb/lighting_sink.hpp:115-117 | From every reachable state with adapter and worker idle, a trigger can be shown by the pass that takes it, at any time inside its window |
| `RendererRuntime.Runtime.Apply` | components/local_argb/private_include/local_argb/renderer_runtime.hpp:15-19 | A pass of the controller over a received command is exactly the epoch load and the drawing of `TransientRuns`, and an accepted one shows the held command with the effects that drawing names, or black; a fault bumps the epoch |
| `RendererRuntime.Runtime.Tick` | components/local_argb/private_include/local_argb/renderer_runtime.hpp:21-25 | The same for a pass without a command |
| `RendererRuntime.Runtime.InvalidateIfFaulted` | components/local_argb/private_include/local_argb/renderer_runtime.hpp:36-39 | A faulted pass, and no other, bumps the epoch once, wrapping at 32 bits |
| `Dispatcher.StepKeepsInv` | components/vehicle_profile_runtime/src/service.cpp:362-374 | Each atomic step of producers, dispatcher and owner keeps the invariant, with the semaphore and with the condition variable |
| `Dispatcher.ReachableInv` | components/vehicle_profile_runtime/src/service.cpp:578-638 | The invariant in every reachable state |
| `Dispatcher.NoPublicationIsLost` | components/vehicle_profile_runtime/src/service.cpp:441-461 | Every marked publication is pending, or covered by a dispatch that began after it; quiescence means all of them are covered |
| `Dispatcher.StoppedMeansDelivered` | components/vehicle_profile_runtime/src/service.cpp:223-264 | When stop returned Ok every publication of the session was delivered, the final fail-off included |
| `Dispatcher.StoppedRunsNoCallback` | components/vehicle_profile_runtime/src/service.cpp:463-508 | While stopped there is no dispatcher and no callback |
| `Dispatcher.NoWakeIsLost` | components/vehicle_profile_runtime/src/service.cpp:578-614 | Pending work never meets a dispatcher that sleeps without a wake-up on its way |
| `Dispatcher.OwnerIsNotStranded` | components/vehicle_profile_runtime/src/service.cpp:456-460 | The draining owner, which shares the condition variable, never sleeps through quiescence |
| `Dispatcher.RetrySucceedsUnlessDispatcherLeft` | components/vehicle_profile_runtime/src/service.cpp:234-253 | With the semaphore, a timed-out stop has an interleaving of a retry that returns Ok if and only if the dispatcher has not left its loop |
| `Dispatcher.RetryIsSafeUnlessDispatcherLeaves` | components/vehicle_profile_runtime/src/service.cpp:441-508 | With the semaphore, every interleaving of a retry without a further timeout can still be brought to Ok if and only if the dispatcher is not about to leave: with shutdown requested, its outstanding wake-ups do not reach past the pending work. After a timed-out wait for quiescence, which requests no shutdown, it always can |
| `Dispatcher.ASuccessfulRetryIsNotCertain` | components/vehicle_profile_runtime/src/service.cpp:477-487 | That second failing case exists: a timed-out stop whose retry succeeds in one interleaving and can never succeed again in another |
| `Dispatcher.AStopCanGetStuck` | components/vehicle_profile_runtime/src/service.cpp:477-487 | The failing case exists: a concrete run in which the exit wait times out and no later stop can return Ok |
| `DispatcherProgress.MarkedWorkGetsDispatched` | components/vehicle_profile_runtime/src/service.cpp:578-638 | In every reachable state with an enabled dispatcher in its loop, everything marked can still be covered by a finished dispatch, with the semaphore and with the condition variable |
| `DispatcherProgress.RunningServiceCanStop` | components/vehicle_profile_runtime/src/service.cpp:223-264 | In every reachable state a running service that no earlier stop has shut down can be stopped, with both wake forms |
| `DispatcherProgress.StoppedServiceCanStart` | components/vehicle_profile_runtime/src/service.cpp:189-221 | A stopped service can be started, with both wake forms |
| `DispatcherProgress.IdleDispatcherWaits` | components/vehicle_profile_runtime/src/service.cpp:578-638 | With nothing to do and no shutdown the dispatcher waits, on the semaphore or asleep on the condition variable |
| `DispatcherProgress.PublishAndMark` | components/vehicle_profile_runtime/src/service.cpp:271-374 | A producer’s publication and mark make everything published so far due and pending, and owe one wake-up for it |
| `Notifications.SaturatingAdd` | components/mazda_telemetry/src/vehicle_telemetry.cpp:129-134 | The sum clamped to the 64-bit clock, without wrapping |
| `Notifications.DeadlineIsExact` | components/mazda_telemetry/src/vehicle_telemetry.cpp:1225-1234 | Past the deadline if and only if the clock is greater than the exact sum of observation time and timeout: saturating changes no verdict |
| `Notifications.Scheduler.DueIdentifiers` | components/mazda_telemetry/src/vehicle_telemetry.cpp:1254-1275 | The collected identifiers are exactly the message groups with a due descriptor, and the fixed array suffices |
| `Notifications.Scheduler.PublishDescriptor` | components/mazda_telemetry/src/vehicle_telemetry.cpp:1239-1247 | One publication; its observation is recorded, exactly when it was due, and was not recorded before |
| `Notifications.Scheduler.PublishNotifications` | components/mazda_telemetry/src/vehicle_telemetry.cpp:1249-1308 | One pass publishes exactly the selected descriptors in order, records exactly the due observations, and leaves nothing due at that time |
| `Notifications.Scheduler.ServiceDueNotifications` | components/mazda_telemetry/src/vehicle_telemetry.cpp:1162-1187 | While running, the freshness pass over due groups only; otherwise nothing |
| `Notifications.Scheduler.Process` | components/mazda_telemetry/src/vehicle_telemetry.cpp:885-921 | While running, an observation past its deadline was published as stale before the frame replaces it |
| `Notifications.Scheduler.PublishCurrent` | components/mazda_telemetry/src/vehicle_telemetry.cpp:1145-1148 | Publishes the group of the frame just processed, or everything on a health transition, records exactly the due observations, leaves nothing due and clears the pending identifier |
| `Notifications.Scheduler.ServicedOnce` | components/mazda_telemetry/src/vehicle_telemetry.cpp:1235-1236 | Over any sequence of calls, a due observation of a descriptor was not recorded before in this session: each pair is recorded at most once and never due again |
| `Notifications.Scheduler.Start` | components/mazda_telemetry/src/vehicle_telemetry.cpp:630-673 | Only a stopped service starts; nothing is observed, serviced or due, and the session’s record is empty |
| `Notifications.Scheduler.Stop` | components/mazda_telemetry/src/vehicle_telemetry.cpp:752-799 | Afterwards the service is not running; a completed stop forgets every observation, a timed-out or failed one keeps them |
| `Notifications.Scheduler.Reset` | components/mazda_telemetry/src/vehicle_telemetry.cpp:850-857 | Forgets every observation, servicing and the pending identifier, and applies the freshness policy |
| `Notifications.Scheduler.DueAgain` | components/mazda_telemetry/src/vehicle_telemetry.cpp:1235-1236 | Since a pass serviced a descriptor, it is due again if and only if its observation was replaced and the replacement is past its deadline |
| `BitCoordinates.SawtoothIsInvolution` | tools/vehicle_profiles/bit_coordinates.py:12-16 | The sawtooth numbering is its own inverse, a walk step adds one in it, and it keeps the byte |
| `BitCoordinates.WalkIsCounted` | tools/vehicle_profiles/bit_coordinates.py:12-17 | The i-th step of the Motorola walk is the counted position: its sawtooth number is that of the start plus i |
| `BitCoordinates.OccupiedBits` | tools/vehicle_profiles/bit_coordinates.py:4-17 | Rejects exactly the bad coordinates; otherwise the walk visits the counted positions in significance order |
| `BitCoordinates.PositionsAreDistinct` | tools/vehicle_profiles/bit_coordinates.py:13-17 | No bit is visited twice |
| `BitCoordinates.FitsPayload` | tools/vehicle_profiles/validation.py:358-363 | All bits lie in the payload if and only if the first bit’s number plus the length is within it |
| `BitCoordinates.DecoderStartBit` | tools/compare_mazda_dbc.py:279-304 | The returned coordinate is the minimum of the occupied bits |
| `RawIntervals.RawIntervalInverts` | tools/vehicle_profiles/runtime_codegen.py:34-45 | A raw value lies in the inverted interval if and only if it fits the field and its physical value lies in the range, for both signs of scale and signedness |
| `RawIntervals.MergeIntervals` | tools/vehicle_profiles/runtime_codegen.py:67-73 | The merged list is sorted, disjoint and non-adjacent and covers exactly the same raw values |
| `RawIntervals.CanonicalIsUnique` | tools/vehicle_profiles/runtime_codegen.py:67-73 | A set of raw values has only one such list, so the order and overlap of the declared ranges do not show |
| `RawIntervals.InvalidIntervals` | tools/vehicle_profiles/runtime_codegen.py:55-73 | The generated intervals cover exactly the permitted raw values whose physical value is in an invalid range |
| `RawIntervals.AcceptedIsPhysicallyValid` | tools/vehicle_profiles/runtime_codegen.py:48-73 | Permitted and in no invalid interval, if and only if representable, in bounds and in no invalid range physically |
| `RawIntervals.PivotFormIsConversion` | tools/vehicle_profiles/runtime_codegen.py:131-139 | The pivot form equals the unit conversion composed with the field’s affine map, for every pivot and raw value |
| `RawIntervals.PivotIsNearestZero` | tools/vehicle_profiles/runtime_codegen.py:142-149 | The pivot is permitted and no permitted raw value converts closer to zero (round half to even, then clamp) |
| `RawIntervals.TiesGoToEven` | tools/vehicle_profiles/runtime_codegen.py:142-149 | Rounding takes the even integer halfway between two |
| `RawIntervals.PivotChoice` | tools/vehicle_profiles/runtime_codegen.py:142-149 | Which pivot it is: the rounded root where permitted, else the nearer end, and the lower end without a slope |
| `RawValues.ExtractRawValue` | lib/vehicle_profile_runtime/src/extract.cpp:189-220 | Fails exactly on an unsupported frame or a field outside its payload; otherwise the number its occupied bits write, below two to the length |
| `RawValues.ReadBits` | lib/vehicle_profile_runtime/src/extract.cpp:200-216 | The loop stops exactly at a bit outside the payload and otherwise collects the field’s number in either byte order |
| `RawValues.OneMoreIntel` | lib/vehicle_profile_runtime/src/extract.cpp:209-211 | Reading one more Intel bit adds it in front, shifted by the index |
| `PayloadNumbers.IntelFieldIsSlice` | lib/vehicle_profile_runtime/src/extract.cpp:200-216 | The number of any Intel field is cut out of the payload read as one little-endian number, above its start bit |
| `PayloadNumbers.MotorolaFieldIsSlice` | lib/vehicle_profile_runtime/src/extract.cpp:200-216 | The number of any Motorola field is cut out of the payload read as one big-endian number, behind the bits in front of it |
| `PayloadNumbers.WholeBytesAreRead` | lib/vehicle_profile_runtime/src/extract.cpp:200-216 | A field of whole bytes is the little-endian or big-endian number those bytes write |
| `RawValues.MagnitudeOf` | lib/vehicle_profile_runtime/src/extract.cpp:31-47 | Sign and magnitude of the two’s complement value, within 64 bits, for every width |
| `RawValues.CompareRaw` | lib/vehicle_profile_runtime/src/extract.cpp:60-72 | The comparison of magnitudes is the comparison of the values they stand for |
| `RawValues.InRange` | lib/vehicle_profile_runtime/src/extract.cpp:130-143 | Valid exactly for ordered bounds of one shape, and then membership of the value |
| `RawValues.RawDelta` | lib/vehicle_profile_runtime/src/extract.cpp:145-174 | The exact signed distance from the pivot; the overflow guard never fires for one shape |
| `RawValues.RawOfRoundTrips` | tools/vehicle_profiles/runtime_codegen.py:76-84 | The emitted masked bits stand for the integer they were made from, negative ones too |
| `RawValues.PassesRawChecks` | lib/vehicle_profile_runtime/src/extract.cpp:250-269 | The checks pass exactly when the constants are finite, the scale is not zero, value and pivot are permitted, and no invalid range contains the value or is malformed |
| `RawValues.DecodeWithGeneratedTables` | tools/vehicle_profiles/runtime_codegen.py:159-171 | Generator and firmware together: on generated tables the checks pass if and only if the emitted constants are usable and the physical value is in bounds and in no invalid range |
| `RawValues.PivotDeltaConverts` | lib/vehicle_profile_runtime/src/extract.cpp:271-275 | The firmware’s pivot distance put through the generated conversion is the converted physical value, exactly |
| `Artifacts.GenerationsAreKept` | tools/vehicle_profiles/artifact_set.py:88-122 | No step of any writer, failed or crashed, changes a whole generation |
| `Artifacts.StepKeepsInv` | tools/vehicle_profiles/artifact_set.py:77-122 | Every file operation, failure or crash of one among any number of writers keeps the invariant |
| `Artifacts.ReachableInv` | tools/vehicle_profiles/artifact_set.py:77-122 | The invariant in every reachable state |
| `Artifacts.IndexAlwaysNamesAWholeSet` | tools/vehicle_profiles/artifact_set.py:83-84 | In every state the index names a directory with exactly the bytes its digest names |
| `Artifacts.GenerationsAreImmutable` | tools/vehicle_profiles/artifact_set.py:81-82 | A generation that was whole once is the same directory in every later state |
| `Artifacts.IndexMovesOnlyByReplacing` | tools/vehicle_profiles/artifact_set.py:112-118 | The index moves only by a writer’s own replacement, to that writer’s digest, whose check then holds |
| `Artifacts.FailureLeavesTheIndex` | tools/vehicle_profiles/artifact_set.py:79 | A publish that raised left the index as it was if and only if what raised was not the unlinking of its already renamed pointer; in that case its own set was current |
| `Artifacts.ReturnMeansPublished` | tools/vehicle_profiles/artifact_set.py:90-118 | A publish that returned has had its whole set named by the index at some moment |
| `Artifacts.APublishSucceeds` | tools/vehicle_profiles/artifact_set.py:88-118 | A run from an empty root in which a publish replaces the index, returns and leaves nothing temporary |
| `Artifacts.APublishCanRaiseLate` | tools/vehicle_profiles/artifact_set.py:119-122 | The failing case exists: a run in which the unlinking in the cleanup raises out of a publish whose own set is current |
| `Artifacts.CleanupRemovesTemporaries` | tools/vehicle_profiles/artifact_set.py:119-122 | In every state after a writer finished without a crash or a failed cleanup, neither its temporary directory nor its temporary index exists |
| `ArtifactsProgress.PublishStaysPossible` | tools/vehicle_profiles/artifact_set.py:86-122 | From every reachable state a writer that has not begun can still publish all its files, unless `sets` is a link, a name is not plain or its generation has other contents; then it returned, its set is current and nothing temporary is left |
| `ArtifactsProgress.RefusedAtOnce` | tools/vehicle_profiles/artifact_set.py:87-95 | A link in place of `sets`, or a generation with other contents, raises before anything is written |
| `ArtifactsProgress.BadNamesAreNotWritten` | tools/vehicle_profiles/artifact_set.py:99-102 | A file name that is not a plain basename is never written |
| `ArtifactsProgress.NonEmptyGenerationsStay` | tools/vehicle_profiles/artifact_set.py:103-111 | No step changes or replaces a generation directory that holds anything, whole or not |
| `ComposeOrder.FieldsIgnoreOrder` | tools/vehicle_profiles/dbc_compose.py:75-108 | The same fields with all their details, the same aliases or the same conflict, down to its spans, for any order of the signals that keeps the occurrences of each identity in order |
| `ComposeOrder.CompositionIgnoresOrder` | tools/vehicle_profiles/dbc_compose.py:111-135 | The same result or the same conflict, details and spans included, for any order of inventories, messages and signals, given unique message identities and unique field identities inside a message |
| `ComposeLaws.ComposesWhenCompatible` | tools/vehicle_profiles/dbc_compose.py:60-96 | Composition succeeds if and only if any two signals say the same or share neither a bit nor a name |
| `ComposeLaws.ReasonSaysWhy` | tools/vehicle_profiles/dbc_compose.py:60-72 | Two signals conflict if and only if they share a bit or a name, and the reason given is decided by bits, last labels and names |
| `ComposeLaws.GroupedPartitions` | tools/vehicle_profiles/dbc_compose.py:80-89 | The signature groups partition the signals and stand in the order of their first identity |
| `ComposeLaws.ComposedFieldsAreDisjoint` | tools/vehicle_profiles/dbc_compose.py:97-108 | The surviving fields of a message share no bit and no name and are in strict identity order |
| `ComposeLaws.EveryOriginalHasOneSurvivor` | tools/vehicle_profiles/dbc_compose.py:106-107 | The aliases name every original identity exactly once, each pointing to a survivor with its mechanics and labels |
| `ComposeLaws.CompositionIsSound` | tools/vehicle_profiles/dbc_compose.py:111-135 | One message for each wire identity in use, in strict order, each with disjoint fields |
| `ComposeOutcome.FieldsAggregate` | tools/vehicle_profiles/dbc_compose.py:97-105 | Each composed field has exactly the names, sources and spans of the signals with its mechanics and table, and is represented by the one with the least identity |
| `ComposeOutcome.CompositionSucceedsWhenAllFit` | tools/vehicle_profiles/dbc_compose.py:111-135 | A whole composition succeeds if and only if any two messages of one wire identity have one length and any two of their signals say the same or share neither bit nor name |
| `ComposeOutcome.ConflictIsReal` | tools/vehicle_profiles/dbc_compose.py:83-96 | A reported conflict names two definitions that do disagree in the way the reason says, each by one of its spans |
| `ComposeOutcome.MessagesGather` | tools/vehicle_profiles/dbc_compose.py:119-134 | Each composed message is executable exactly when all its definitions are, gathers exactly their unsupported forms, spans and signals, and is represented by the one with the least identity |
| `ComposeOutcome.EveryMessageIsAliased` | tools/vehicle_profiles/dbc_compose.py:131-133 | Every message that went in has an alias to the message that represents its wire identity |
| `ProfileComposition.Compare` | tools/vehicle_profiles/validation.py:394-401 | The inner loop: the first contradiction, or an overlapping survivor if there is one |
| `ProfileComposition.OverlapIsASharedBit` | tools/vehicle_profiles/validation.py:394-401 | Fields overlap if and only if some bit position belongs to both |
| `ProfileComposition.ComposeGroup` | tools/vehicle_profiles/validation.py:390-408 | Fails if and only if two fields of the message overlap with different mechanics, although it compares with survivors only; otherwise keeps the first of each overlapping family with the family’s sources and maps every member to it |
| `ProfileComposition.SurvivorsDecide` | tools/vehicle_profiles/validation.py:395-401 | Comparing a field with the survivors decides compatibility with all earlier fields |
| `ProfileComposition.IdentityWhenDisjoint` | tools/vehicle_profiles/validation.py:392-407 | Composition changes nothing if and only if no two fields overlap, and composing twice is composing once |
| `ProfileComposition.ValidationKeepsComposedFields` | tools/vehicle_profiles/validation.py:383-411 | On what the source composer wrote, validation’s own composition is the identity: order, fields and aliases |
| `Decimals.CanonicalKeepsValue` | tools/vehicle_profiles/canonical.py:16-36 | The canonical text has exactly the value of the text it came from |
| `Decimals.CanonicalDecidesEquality` | tools/vehicle_profiles/canonical.py:16-36 | Two accepted texts have one canonical form if and only if they have one value |
| `Decimals.SpellingIsFixed` | tools/vehicle_profiles/canonical.py:25-36 | Every canonical spelling is its own canonical form, unless it is longer than the input limit |
| `Decimals.CanonicalTwice` | tools/vehicle_profiles/canonical.py:22-24 | Canonicalising twice succeeds and is canonicalising once if and only if the first result is at most 1024 characters |
| `Decimals.CanonicalCanOutgrowItsLimit` | tools/vehicle_profiles/canonical.py:22-30 | The failing case exists: an accepted six-character text whose canonical form is refused as input |
| `DecimalReading.ScanInverts` | tools/vehicle_profiles/canonical.py:18-20 | Scanning finds pieces if and only if the text is written from those pieces: sign, digits, point, digits, exponent |
| `DecimalReading.CanonicalAccepts` | tools/vehicle_profiles/canonical.py:18-24 | The canonical form exists if and only if the text is an identity decimal of at most 1024 characters with an exponent of at most four digits and 1024 |
| `DecimalReading.ParseAccepts` | tools/vehicle_profiles/dbc_lexer.py:97-109 | The reader takes a literal if and only if it has a digit and is within its three bounds, in numbers |
| `DecimalReading.LiteralsReadAsNumbers` | tools/vehicle_profiles/dbc_lexer.py:101-111 | The value read, and the value of the canonical text, is the number the digits write with sign, point and exponent applied by powers of ten |
| `DecimalReading.ExponentsShift` | tools/vehicle_profiles/dbc_lexer.py:107-110 | An exponent behind a literal shifts its value down with a minus sign and up with a plus or no sign, for both readers |
| `DecimalReading.ExampleReads` | tools/vehicle_profiles/canonical.py:16-36 | -12.5e-3 reads as that number and its canonical text is -0.0125 |
| `DecimalText.DecimalText` | tools/vehicle_profiles/dbc_mapping.py:105-119 | None exactly when no power of ten is a multiple of the denominator; otherwise the canonical spelling of exactly the fraction, with its scaled numerator and its number of places named |
| `DecimalText.FiniteWhenOneIsLeft` | tools/vehicle_profiles/dbc_mapping.py:107-114 | Dividing out all twos and fives leaves one if and only if a finite decimal exists |
| `DecimalText.LastDigit` | tools/vehicle_profiles/dbc_mapping.py:115-118 | In lowest terms the last digit after the point is never zero, so nothing is left to strip |
| `DecimalText.SpellingIsCanonical` | tools/vehicle_profiles/dbc_mapping.py:105-119 | The spelling is a fixed point of the canonical form |
| `DecimalText.SpellThenRead` | tools/vehicle_profiles/dbc_mapping.py:105-119 | On the result itself: reading the spelled fraction gives it back exactly when its digits and places are within the reader’s bounds, is refused as too large otherwise, and canonicalising the text changes nothing |
| `DecimalText.ParsingInvertsSpelling` | tools/vehicle_profiles/dbc_lexer.py:97-111 | Reading the spelling gives the fraction back exactly when its digits and places are within the reader’s bounds, and is refused as too large otherwise |
| `Lexer.LineStarts` | tools/vehicle_profiles/dbc_lexer.py:114-116 | The line starts are exactly the positions after CR LF, lone CR and LF, and zero |
| `Lexer.LocateInverts` | tools/vehicle_profiles/dbc_lexer.py:118-120 | The located line and column give the offset back |
| `Lexer.LocateIsOrdered` | tools/vehicle_profiles/dbc_lexer.py:118-120 | Later offsets have later positions, both ways |
| `Lexer.ReadQuoted` | tools/vehicle_profiles/dbc_lexer.py:151-168 | The string loop finds the closing quote and the decoded value, or the failing escape, as specified |
| `Lexer.Tokenize` | tools/vehicle_profiles/dbc_lexer.py:123-203 | The loop returns exactly the tokens of the text with their spans, or the first failure with its span; it terminates because every step consumes text |
| `LexerLaws.LiteralsAreDecimals` | tools/vehicle_profiles/dbc_lexer.py:16 | The prefix the loop matches and the token the decimal reader accepts are the same pattern, both ways |
| `LexerLaws.TokenIsRead` | tools/vehicle_profiles/dbc_lexer.py:143-202 | Before a blank, any well-formed token is read back whole, with its kind and value |
| `LexerLaws.EmittedIsWellFormed` | tools/vehicle_profiles/dbc_lexer.py:138-141 | Every token the loop emits is well formed: its spelling determines its kind and value |
| `LexerLaws.NothingIsSkipped` | tools/vehicle_profiles/dbc_lexer.py:123-150 | Accepted text is well-formed tokens with only white space and comments around them |
| `LexerLaws.FailureHasASpan` | tools/vehicle_profiles/dbc_lexer.py:124 | Every failure names at least one character of the text |
| `LexerLaws.JoinedTokensLexBack` | tools/vehicle_profiles/dbc_lexer.py:123-203 | Any well-formed tokens joined with single spaces lex to exactly themselves |
| `LexerLaws.RoundTrip` | tools/vehicle_profiles/dbc_lexer.py:123-203 | Accepted text respelled with single spaces lexes to the same kinds, spellings and values |
| `LexerLaws.JoinedDecides` | tools/vehicle_profiles/dbc_lexer.py:123-203 | Two token lists are equal if and only if their joined texts are |
| `LexerLaws.SpansLocateTokens` | tools/vehicle_profiles/dbc_lexer.py:129-141 | Token spans are not empty, locate exactly their spellings, and follow each other in the text |
| `LexerTexts.IntegersAreRead` | tools/vehicle_profiles/dbc_lexer.py:182-189 | The spelling of any integer within the digit bound, with or without a plus, is read as exactly that integer |
| `LexerTexts.IntegersAreDecimals` | tools/vehicle_profiles/dbc_lexer.py:182-189 | On integer literals, leading zeros included, the decimal reader gives the same integer within the same bound |
| `LexerTexts.IntegerTokensAreDecimals` | tools/vehicle_profiles/dbc_lexer.py:182-189 | Every integer token has the value the decimal reader gives its spelling |
| `LexerTexts.WordsAreRead` | tools/vehicle_profiles/dbc_lexer.py:197-202 | Letters, digits and underscores that do not start with a digit are one word up to the next other character |
| `LexerTexts.PunctuationIsRead` | tools/vehicle_profiles/dbc_lexer.py:171-174 | Each separator is a token of its own; a sign is one unless a digit, a point or another sign follows |
| `LexerTexts.StringsAreRead` | tools/vehicle_profiles/dbc_lexer.py:151-168 | Any value between quotes, with quotes and backslashes escaped, is read back as that value |
| `LexerTexts.GapsAreSkipped` | tools/vehicle_profiles/dbc_lexer.py:146-150 | Blanks are skipped one by one, a comment up to the end of its line |
| `LexerTexts.OpenStringFails` | tools/vehicle_profiles/dbc_lexer.py:154-155 | A string that does not close fails from its quote to the end of the text |
| `LexerTexts.BadEscapeFails` | tools/vehicle_profiles/dbc_lexer.py:158-161 | A backslash before anything else than a quote or a backslash fails there |
| `LexerTexts.StrayCharactersFail` | tools/vehicle_profiles/dbc_lexer.py:169-200 | Two signs in a row, and a character no token starts with, fail with their own reasons |
| `LexerTexts.NumbersMustEnd` | tools/vehicle_profiles/dbc_lexer.py:176-181 | A number that runs into a letter or an underscore is invalid |
| `LexerTexts.Utf8OfOne` | tools/vehicle_profiles/dbc_lexer.py:133-134 | The bytes counted for a character are those of its UTF-8 form |
| `LexerTexts.LargeTokensFail` | tools/vehicle_profiles/dbc_lexer.py:132-136 | A token of more bytes than the limit fails as a whole, whatever its kind |
| `LexerTexts.LargeNumbersFail` | tools/vehicle_profiles/dbc_lexer.py:185-194 | A number beyond the reader’s bounds fails as a whole |

## Left out

- Driver, operating system and radio calls (ESP-IDF, FreeRTOS, NimBLE, GPIO, RMT, SPI), logging and profiling: clocks, driver results and scheduling are arbitrary parameters or nondeterministic steps.
- Bluetooth characteristics and link security: their deciding state is outside the modelled files.
- Watchdogs that reset the board, the on-board status pixel and the renderer's start-up retries around `start`.
- The direct black write of `fail_off` when the queue is unavailable: after the start the queue always accepts, so the handshake's fail-off bumps the epoch and queues black.
- RendererRuntime.Runtime.Apply: nothing else moves the gate's epoch between the load and the end of the pass; the interleavings in which it does are those of `TransientRuns`.
- Wrap-around of the 32-bit cancellation epoch and in-flight count in `RestartHandshake` (they are unbounded there; the pass count does wrap).
- TransientRuns.ShownOnce: excludes the wrap of a 64-bit sequence number and `clear()`, after which numbers start again.
- Fairness: `HandshakeProgress`, `DispatcherProgress`, `TransientProgress` and `ArtifactsProgress` prove that an interleaving exists, not that a scheduler takes it.
- Effect and fill bindings, levels and colours of held effects in the action sink: one-branch tables.
- Provider access, the acquisition runtime and the notification channels behind the services: `Dispatcher` knows that callbacks only come while the runtime runs, `Notifications` that a publication is recorded.
- Lifecycle-owner claims, the destructor's unbounded shutdown and the merging of process summaries in the profile service: they add only easy members.
- The threads, channels and worker joins behind starting and stopping the vehicle service: their outcomes are parameters. Lighting publication and its heartbeat.
- Dispatcher.RetrySucceedsUnlessDispatcherLeft: stated for the semaphore form, like `RetryIsSafeUnlessDispatcherLeaves`; with the condition variable the exit is joined without a bound, so a timed-out stop never finds the dispatcher gone.
- Floating point: the two-limb constants, the final conversion to `float` and `fill_level`; the exact value they approximate is modelled.
- Enum maps, catalogues, headers and report rendering in the generator.
- DBC record grammar, attribute metadata, YAML and JSON shape checks, reading and decoding source files.
- SHA-256 and JSON encoding as byte transformations.
- DecimalText.DecimalText: CPython refuses to convert integers of more than 4300 digits to text by default, so `decimal_text` raises there; the model spells them.
- ComposeOrder.FieldsIgnoreOrder: occurrences of one identity keep their order, because the first one's receivers and other uncompared details survive; one message holds each identity once and messages are sorted, so the whole composition does not need that.
- Compose.Compose: names, labels, units, identities, wire keys and spans are integers in the order of the strings or tuples they stand for; invariance under reordering a value table is not claimed, because signatures keep its order.
- ProfileComposition.ComposeGroup: sources are a set, where the code keeps them as a sorted list without repetition; the checks of a single field before composition are not modelled.
- Lexer.Tokenize: the source identity in spans and the wording of the two bounds messages of `parse_decimal` are merged away.
- Decimals.CanonicalKeepsValue: the digit groups of the platform's decimal type are modelled as one coefficient and one exponent.
