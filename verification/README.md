# Verified model of driving-assistance control logic

A Dafny model of twelve stateful components of the repository, with proofs of what they promise.
`dafny verify dfyconfig.toml` checks everything.

Each component is modelled twice, in the source's own form. Its calculation is written as functions on
values, and the laws are proved about those, mostly over whole runs. Where the source updates objects,
arrays or dictionaries in place, or loops, there is a class or a method with the same fields and branches,
proved to compute exactly those functions.

| component | files |
|---|---|
| CAN wire codec of the panda: packing, streaming parser | `Framing`, `PandaCodec`, `Panda` |
| camera calibration: block ring, spread reset, fade | `Calibration`, `Calibrator` |
| least 11-smooth FFT size | `GoodSize` |
| driver-monitoring awareness and lockout | `FilterSimple`, `DriverMonitoring`, `DriverMonitor` |
| segment logging and rotation | `Logging`, `Rotation`, `Loggerd` |
| plugin loading order | `PluginLoading`, `PluginRegistry` |
| boot-time schema and services patches | `CustomSchema`, `SchemaFragments`, `ServicesPatch` |
| engagement state machine and event table | `Events`, `StateMachine` |
| cruise set speed | `Cruise`, `VCruiseHelper` |
| running statistics | `RunningStat` |
| block averages | `BlockAverage` |
| model input history | `InputQueues` |

`Reals`, `Multiples`, `Sequences`, `Sets`, `Text` and `Wrappers` hold small facts and types the others share.

Floating-point numbers are exact reals. Frame counts, thresholds and limits are the source's constants.
Sensor values, model outputs, clock checks, files and callbacks are inputs and may be anything.
The CAN FD length codes are those of the control field of ISO 11898-1.

## Where the code departs from what one would expect

- Rotation: `ready_to_rotate` is not the number of encoders that have sent a newer packet. An encoder's mark
  is cleared only when it opens the new segment, so one that had sent a newer packet before a rotation and sends
  none of the segment this opens is not counted again and blocks every rotation but a time-out. The exact
  condition is `ReadyCountsNewerIff`; `NewerEncoderCanGoUncounted` is a run to that state in a fleet of any size.
- Logging: one packet of the segment just closed, as a time-out can leave on the way, sets the encoder's offset to
  minus the logger's segment. If the encoder then keeps in step with the logger, nothing it sends is logged again
  (`OlderIsDropped`, `LatePacketSilences`, `OneLatePacketIsEnough`). And a segment's file can hold packets of an
  earlier segment (`OwnFilesIff`, `FileHoldsEarlierSegment`).
- Plugin loading: disabling a plugin leaves plugins that depend on it loaded (`DependenciesKeptIff`), and a
  conflict declared only by the plugin loaded first is not seen (`LoadKeepsCoexistenceIff`,
  `OneSidedConflictMissedIff`). A plugin left out for a missing dependency ends with no error, since it is reset
  for a retry even on the last pass (`MissingDependencyLeavesNoError`). Plugins with no dependencies do not always
  load first, as the docstring of `load_enabled` says they do: exactly when each of them is listed before every
  plugin with dependencies that the first pass can load (`FreeLoadFirstIff`; `FreePluginCanLoadLater`).
- Custom schema: the docstring's idempotence holds in a well-formed file exactly if it declares a slot or there is
  nothing to append (`PatchIdempotentIff`), for fragments whose braces pair up; with others the patch can change
  its own result (`SchemaFragments.UnbalancedFragmentRepeats`), and `SchemaFragments.ClaimsIdempotentIff` says
  when. A slot is never given back: a disabled plugin's struct stays until another plugin claims the slot
  (`PatchForgetsIff`, `DisabledPluginStays`).
- Services patch: the docstring's idempotence holds exactly if there is nowhere to insert or no service's name or
  settings hold a line that starts with a closing brace (`ServicesPatch.PatchIdempotentIff`, `ClosingLineStays`).
- Engagement: pcmDisable, cruiseDisabled and speedTooLow do not block entry, so the machine can engage on a
  step that carries one of them (`EngagesUnderDisable`); a soft disable is ignored while pre-enabled.
- Block averages: the current mean weighs a block in progress like a full one (`CurrentMeanIsPlainIff`,
  `CurrentMeanCanDiffer`).
- Driver monitoring: the bound of 225 updates to red is exact (`NotRedAt224`). A hands-off driver who is not seen
  reaches red in 600 updates, unless the timer stood at orange in active mode: then it stays there for as long as
  nobody is seen (`UnseenRedIff`, `UnseenHoldsOrange`). From start-up that is so after 105 to 224 updates of looking
  away (`AwayThenUnseenIff`).
- Cruise: engaging does not always set a speed (`InitializationSetsIff`, `InitializedButUnset`).

## Model

| member | source | states |
|---|---|---|
| `PandaCodec.HeaderRoundTrip` | selfdrive/pandad/panda.h:28-37 | every header whose fields fit their widths survives packing into six bytes and unpacking: no field overlaps another |
| `PandaCodec.LenToDlcIsLeast` | selfdrive/pandad/panda.cc:179-188 | the code chosen is the smallest CAN FD length that holds the data |
| `PandaCodec.DlcSizedIff` | selfdrive/pandad/panda.cc:203-204 | the data lengths that pass the assertions are exactly the 16 of the table |
| `PandaCodec.ChecksumSeals` | selfdrive/pandad/panda.cc:211-216 | storing the XOR of a record in its zeroed checksum byte makes the record fold to zero |
| `PandaCodec.RecordRoundTrip` | selfdrive/pandad/panda.cc:195-216 | an encoded message, whatever bytes follow it, is read back with its own length, a zero checksum, and the same address, bus and data |
| `PandaCodec.ParseEncodeAll` | selfdrive/pandad/panda.cc:264-304 | parsing the encoding of any list of sendable messages yields exactly that list, in order, with no tail |
| `PandaCodec.RecordIsStable` | selfdrive/pandad/panda.cc:267-283 | once a record is complete, further bytes do not change how it is read |
| `PandaCodec.TailIsShort` | selfdrive/pandad/panda.h:91-92 | the undecoded tail of any stream is shorter than one maximal record of 70 bytes |
| `PandaCodec.ExtendedFlag` | selfdrive/pandad/panda.cc:207-208 | the extended flag on the wire is set exactly for addresses beyond eleven bits, and a sent record sets no other flag |
| `PandaCodec.SourceTellsFlags` | selfdrive/pandad/panda.cc:283-291 | the source number of a received frame tells its bus, and normal, returned, rejected and both apart |
| `PandaCodec.SealedIsRead` | selfdrive/pandad/panda.cc:264-297 | every sealed record, with any flags and whatever follows it, is read with its own address and data, and its bus raised by 0x80 if returned and by 0xC0 if rejected |
| `PandaCodec.RepliesAreReceived` | selfdrive/pandad/panda.cc:238-304 | end to end, messages sent back as returned or rejected and re-cut in any way are received in order, each with its own bus and marks |
| `PandaCodec.DamageIsNoticed` | selfdrive/pandad/panda.cc:275-280 | a record with any one byte behind the length code changed is reported corrupt |
| `PandaCodec.ParseStopsAtDamage` | selfdrive/pandad/panda.cc:264-304 | the messages before a damaged record are kept, nothing behind it is, and the failure is reported |
| `PandaCodec.OnePandaSends` | selfdrive/pandad/panda.cc:195-200 | of the pandas at offsets 0, 4, 8 and so on exactly one sends a given message |
| `PandaCodec.RelevantIs` | selfdrive/pandad/panda.cc:195-200 | a panda sends the messages of its four buses in the order given, and no others |
| `Framing.ParseResumes` | selfdrive/pandad/panda.cc:299-303 | parsing a + b equals parsing a and then its tail followed by b, for every stable record reader |
| `Framing.ChunkIndependence` | selfdrive/pandad/panda.cc:238-258 | however a stream is cut into pieces, carrying the tail over gives the frames, tail and verdict of parsing it whole |
| `PandaCodec.CanChunkIndependence` | selfdrive/pandad/panda.cc:238-304 | the same for the CAN record reader, from an empty buffer |
| `PandaCodec.SentIsReceived` | selfdrive/pandad/panda.cc:190-304 | the writes of any message list, re-cut in any way, are received as exactly the messages for this panda, in order, with equal address (29 bits), bus and data |
| `Panda.CalculateChecksum` | selfdrive/pandad/panda.cc:306-312 | the loop computes the XOR of the given stretch |
| `Panda.PutRecord` | selfdrive/pandad/panda.cc:207-216 | header, data and checksum land behind the bytes already in the buffer and nothing before them changes |
| `Panda.Panda.constructor` | selfdrive/pandad/panda.h:91-94 | a new panda has an empty receive buffer with room for one read and one record |
| `Panda.Panda.PackCanBuffer` | selfdrive/pandad/panda.cc:190-230 | the writes are whole records of exactly this panda's messages in order; every write but the last ends with the record that reaches the soft limit, and all fit the buffer |
| `Panda.Panda.CanReceive` | selfdrive/pandad/panda.cc:238-258 | frames, kept tail and result are those of parsing the old tail followed by the new bytes; an unhealthy link changes nothing; the space assertion never fails |
| `Panda.Panda.UnpackCanBuffer` | selfdrive/pandad/panda.cc:264-304 | decoding in place returns the frames of the buffer's parse and moves exactly its undecoded tail to the front |
| `Panda.Panda.DecodeRecords` | selfdrive/pandad/panda.cc:265-297 | the loop stops at the start of the undecoded tail, also when the unsigned bound wraps below six bytes |
| `Calibration.ValidIdxsExact` | selfdrive/locationd/calibrationd.py:131-135 | the window is duplicate-free and is exactly the indices below valid_blocks other than block_idx |
| `Calibration.WindowInReachableStates` | selfdrive/locationd/calibrationd.py:131-135 | the same in every reachable state, where block_idx never exceeds valid_blocks |
| `Calibration.StartInv` | selfdrive/locationd/calibrationd.py:88-129 | start-up, restored or not, establishes the run invariant |
| `Calibration.RunInv` | selfdrive/locationd/calibrationd.py:181-231 | every state of every run keeps it: ring contents, counters, and the weight of the fade by the number of calls since the reset |
| `Calibration.SpreadResetIsSettled` | selfdrive/locationd/calibrationd.py:163-166 | whenever the spread check fires the earlier fade is over and the block taken is the most recently completed one; index -1 is used only with the ring full |
| `Calibration.RunStatusFits` | selfdrive/locationd/calibrationd.py:150-166 | on every run the status says whether a spread reset has happened while under five blocks, and whether the mean is within limits from five on |
| `Calibration.BlocksHoldSamples` | selfdrive/locationd/calibrationd.py:60-61 | on every run since a start or a reset, each block is the weighted sum of the 100 clipped samples it was given, the j-th of n weighing (1 - j/100) times the product of i/100 over j < i < n, and the current block that of its samples so far; messages behind the gates give none |
| `Calibration.WeightsAverage` | selfdrive/locationd/calibrationd.py:60-61 | those weights are non-negative and add up to 1 |
| `Calibration.ClipIsNearest` | selfdrive/locationd/calibrationd.py:53-58 | a sample outside the sanity box is moved to the nearest point of it, and one with a NaN to zero |
| `Calibration.MeanBalances` | selfdrive/locationd/calibrationd.py:137-143 | the mean of the blocks in use is where their deviations cancel |
| `Calibration.ResetDoesNotJump` | selfdrive/locationd/calibrationd.py:160-166 | the published value is the same just before and just after a reset |
| `Calibration.PublishedAfterReset` | selfdrive/locationd/calibrationd.py:175-187 | k <= 10 calls after a reset, whatever arrived, the published value is (1 - k/10) of the mean before it plus k/10 of the newest completed block |
| `Calibration.MovedCameraResetsIff` | selfdrive/locationd/calibrationd.py:137-231 | after restoring n >= 5 blocks of v, the spread check fires on the 100th accepted observation of w exactly if w is too far from v and the mean of the window is within limits, and not before |
| `Calibration.ResetsHappen` | selfdrive/locationd/calibrationd.py:163-166 | a reachable state and a message on which it fires |
| `Calibration.MovingAvgInBox` | selfdrive/locationd/calibrationd.py:60-61 | the decaying average of two vectors in the sanity box stays in it |
| `Calibration.RunStaysInBox` | selfdrive/locationd/calibrationd.py:53-58 | from a start in the box every stored and every published vector of every run is in the box |
| `Calibration.DevicesStayInBox` | selfdrive/locationd/calibrationd.py:40-58 | and so on both devices, with their limits |
| `Calibration.ExtentBounds` | selfdrive/locationd/calibrationd.py:144-146 | the spread is attained between two of the values and bounds the distance of any two |
| `Calibration.NoBlocksNoSpread` | selfdrive/locationd/calibrationd.py:131-148 | with no block to use an update leaves the vector alone and finds no spread |
| `Calibrator.Calibrator.constructor` | selfdrive/locationd/calibrationd.py:64-89 | start-up from saved or default values |
| `Calibrator.Calibrator.DoReset` | selfdrive/locationd/calibrationd.py:91-129 | reset replaces the ring by the start value and starts or clears the fade |
| `Calibrator.Calibrator.DoUpdateStatus` | selfdrive/locationd/calibrationd.py:137-166 | mean, spread, status and the reset to the newest block, on the fields in place |
| `Calibrator.Calibrator.DoHandleCamOdom` | selfdrive/locationd/calibrationd.py:181-231 | one odometry message: the fade step, the gates, the block average and the ring |
| `GoodSize.FftNextGoodSize` | selfdrive/locationd/helpers.py:10-33 | the five loops end and return the least number at or above n whose only prime factors are 2, 3, 5, 7 and 11; below 1 the argument itself |
| `GoodSize.SmoothIsProduct` | selfdrive/locationd/helpers.py:11-14 | a number with no other prime factor is a product of the five |
| `GoodSize.ProductIsSmooth` | selfdrive/locationd/helpers.py:11-14 | and every such product has no other prime factor |
| `GoodSize.PowerOfTwoBetween` | selfdrive/locationd/helpers.py:17-17 | there is always such a number below 2n, so the initial bound is never the answer |
| `GoodSize.BoundIsLeast` | selfdrive/locationd/helpers.py:18-33 | a bound with nothing reachable below it is the least smooth number, though it began as the possibly non-smooth 2n |
| `FilterSimple.FirstOrderFilter.Update` | common/filter_simple.py:11-17 | the first sample initialises an uninitialised filter; later ones move it by alpha |
| `FilterSimple.FirstOrderFilter.UpdateAlpha` | common/filter_simple.py:8-9 | alpha is dt / (rc + dt) |
| `DriverMonitoring.SetTimersKeepsRed` | selfdrive/monitoring/helpers.py:196-224 | switching timers keeps the invariant and neither enters nor leaves red |
| `DriverMonitoring.RunInv` | selfdrive/monitoring/helpers.py:188-399 | every state of every run from start-up: ranges, positive saved timers, thresholds that match the mode |
| `DriverMonitoring.RedIsHeldWhileEngaged` | selfdrive/monitoring/helpers.py:355-399 | awareness at or below 0 stays there exactly while engaged, and is never reached while disengaged |
| `DriverMonitoring.CountersCountRed` | selfdrive/monitoring/helpers.py:394-399 | terminal_alert_cnt counts the entries into red and terminal_time the updates in red |
| `DriverMonitoring.LockoutLasts` | selfdrive/monitoring/helpers.py:343-352 | once three entries, 600 red updates or a saved lockout are reached, every later update reports tooDistracted |
| `DriverMonitoring.LockoutCondition` | selfdrive/monitoring/helpers.py:343-348 | a run from start-up is locked out exactly if it was before, or had three entries into red or 600 updates in it |
| `DriverMonitoring.UpdateEventsLaw` | selfdrive/monitoring/helpers.py:341-399 | one events update: red, both counters, the lockout flag and its event |
| `DriverMonitoring.AlertsTellTheLevel` | selfdrive/monitoring/helpers.py:393-408 | red and orange alerts are raised exactly at their level and name the timer in use |
| `DriverMonitoring.GreenAlertIff` | selfdrive/monitoring/helpers.py:374-405 | a green alert, of the timer in use, is raised exactly between its thresholds, unless the driver recovers or drives slowly with always-on monitoring |
| `DriverMonitoring.StandstillHoldsOrange` | selfdrive/monitoring/helpers.py:378-391 | at a standstill counting never reaches the orange threshold |
| `DriverMonitoring.RecoversWithin182` | selfdrive/monitoring/helpers.py:362-376 | 182 updates of a seen, certain, undistracted driver restore full awareness from every reachable state that is not red |
| `DriverMonitoring.RedWithin225` | selfdrive/monitoring/helpers.py:307-391 | 225 updates of a seen, certain, distracted, hands-off driver, engaged and moving, end in red from every reachable state |
| `DriverMonitoring.NotRedAt224` | selfdrive/monitoring/helpers.py:307-391 | and 224 from start-up do not |
| `DriverMonitoring.UnseenRedIff` | selfdrive/monitoring/helpers.py:196-224 | 600 updates of an unseen, hands-off driver, engaged and moving, end in red exactly unless the run starts at orange, but not red, on the active timer |
| `DriverMonitoring.UnseenHoldsOrange` | selfdrive/monitoring/helpers.py:196-203 | from there awareness does not move for as long as the driver is not seen |
| `DriverMonitoring.UnseenNotRedAt599` | selfdrive/monitoring/helpers.py:196-224 | and 599 updates from start-up do not end in red |
| `DriverMonitoring.AwayThenUnseenIff` | selfdrive/monitoring/helpers.py:196-391 | from start-up, distracted updates stand at active orange exactly from the 105th to the 224th; if the driver is not seen after that many no number of updates ends in red, and after any other number 600 do |
| `DriverMonitoring.ActiveTimerWaits` | selfdrive/monitoring/helpers.py:196-224 | after any number of updates without a face that do not end in red, the update that sees the face again starts from the awareness left behind |
| `DriverMonitoring.PassiveTimerWaits` | selfdrive/monitoring/helpers.py:196-224 | after any number of updates with a face, the next without one starts from the passive timer left behind plus one step for each update that ended a recovery at full awareness |
| `DriverMonitoring.HandsOnRefills` | selfdrive/monitoring/helpers.py:355-370 | touching the controls refills both timers when on the passive one or attentive, unless red |
| `DriverMonitoring.DisengagedRefills` | selfdrive/monitoring/helpers.py:355-360 | so does being disengaged, unless always-on monitoring applies and the timer is not red |
| `DriverMonitoring.MeasurementsFollow` | selfdrive/monitoring/helpers.py:306-328 | an update with model data takes its measurements and filters the distraction; one without leaves them and the mode alone |
| `DriverMonitoring.AwayRun` | selfdrive/monitoring/helpers.py:307-391 | from start-up, hands on or off, the exact awareness after k updates of looking away: k - 5 steps of 1/220, at most 99 of them at a standstill or disengaged at low speed, at most 219 disengaged |
| `DriverMonitoring.RecoversExactly` | selfdrive/monitoring/helpers.py:365-376 | an attentive driver's awareness after k updates: its distance from 4/3 shrinks by 173/176 each, up to full |
| `DriverMonitoring.UncertainRedIff` | selfdrive/monitoring/helpers.py:334-339 | a face that is seen but never certain counts as unseen from the 202nd update on: from start-up such a run is red exactly from the 801st |
| `DriverMonitor.DriverMonitor.constructor` | selfdrive/monitoring/helpers.py:149-186 | start-up, with the saved lockout |
| `DriverMonitor.DriverMonitor.DoSetTimers` | selfdrive/monitoring/helpers.py:196-224 | the timer swap on the fields in place |
| `DriverMonitor.DriverMonitor.DoUpdateStates` | selfdrive/monitoring/helpers.py:306-339 | the filter, uncertainty counter and timer part of the state update |
| `DriverMonitor.DriverMonitor.DoUpdateEvents` | selfdrive/monitoring/helpers.py:341-408 | resets, recovery, exemptions, counting and alerts |
| `PluginLoading.CheckDependencies` | selfdrive/plugins/manifest.py:94-108 | no missing dependency is named exactly when all are loaded, and the one named is the first that is not |
| `PluginLoading.CheckConflicts` | selfdrive/plugins/manifest.py:111-125 | the same for the first conflict that is loaded |
| `PluginLoading.LoadByManifest` | selfdrive/plugins/registry.py:122-183 | a plugin with all dependencies and no conflict loaded ends with what its import raises, or loads; another with the text of its first missing dependency, or else of its first loaded conflict |
| `PluginLoading.LoadedByPassIff` | selfdrive/plugins/registry.py:211-220 | a pass loads a plugin exactly if, on its turn, it is enabled, its dependencies and none of its conflicts are loaded, and its import succeeds |
| `PluginLoading.ImportErrorNeverLoads` | selfdrive/plugins/registry.py:179-222 | a plugin whose import raises is never loaded by a call |
| `PluginLoading.RoundsExact` | selfdrive/plugins/registry.py:211-222 | r passes from nothing load exactly the plugins all of whose dependency paths stay among the enabled and step fewer than r times to a plugin listed no earlier |
| `PluginLoading.FirstCallExact` | selfdrive/plugins/registry.py:197-222 | so one call loads exactly those with at most one such step; cycles and missing plugins are out |
| `PluginLoading.FreeLoadFirstIff` | selfdrive/plugins/registry.py:197-222 | a call from nothing loads its plugins without dependencies before all its others exactly if each of them is listed before every plugin with dependencies that the first pass can load |
| `PluginLoading.FreeLoadFirstByListing` | selfdrive/plugins/registry.py:197-222 | it is enough to compare with plugins all of whose dependencies have none of their own and are listed earlier |
| `PluginLoading.FreePluginCanLoadLater` | selfdrive/plugins/registry.py:197-222 | a listing whose plugin without dependencies loads after one that has some |
| `PluginLoading.CallsReachLeast` | selfdrive/plugins/registry.py:197-222 | after half as many calls as plugins the loaded set is the least one closed under loading, and stays it |
| `PluginLoading.OrderDoesNotMatter` | selfdrive/plugins/registry.py:197-222 | that set does not depend on the listing order |
| `PluginLoading.NoRetryNoChange` | selfdrive/plugins/registry.py:217-222 | leaving the loop when nothing is pending is sound: another pass would change nothing |
| `PluginLoading.LeftOutError` | selfdrive/plugins/registry.py:209-222 | an enabled plugin left out of a call keeps the reason its last load failed, or no error exactly if that reason counts as a dependency |
| `PluginLoading.OtherErrors` | selfdrive/plugins/registry.py:196-220 | a call clears the error of a plugin it loads and leaves that of a disabled or already loaded one alone |
| `PluginLoading.RetryIff` | selfdrive/plugins/registry.py:216-218 | a failed load asks for another pass for a missing dependency, and not for a conflict or a failed import, unless the other plugin's name or the error text mentions "Dependency" |
| `PluginLoading.MissingDependencyLeavesNoError` | selfdrive/plugins/registry.py:209-222 | so one left out with a dependency missing ends with no error, whatever it had before |
| `PluginLoading.DependenciesKeptIff` | selfdrive/plugins/registry.py:204-222 | a call keeps every loaded plugin's dependencies loaded exactly when no plugin that stays depends on a disabled one |
| `PluginLoading.DependencyCanBeLost` | selfdrive/plugins/registry.py:204-207 | a call that leaves a dependant loaded without its dependency |
| `PluginLoading.LoadKeepsCoexistenceIff` | selfdrive/plugins/registry.py:129-134 | loading keeps the set free of conflicts exactly when no loaded plugin objects to the new one |
| `PluginLoading.SymmetricConflictsExclude` | selfdrive/plugins/registry.py:129-134 | conflicts declared on both sides never coexist |
| `PluginLoading.OneSidedConflictMissedIff` | selfdrive/plugins/registry.py:129-134 | two otherwise loadable plugins of which only one objects to the other both end up loaded exactly if the one that objects is listed first |
| `PluginRegistry.PluginRegistry.LoadPlugin` | selfdrive/plugins/registry.py:92-183 | with its dependencies and none of its conflicts loaded a plugin loads and is enabled exactly if its import succeeds, and else keeps that error; otherwise it leaves the error of the first failed check; the other plugins keep their state |
| `PluginRegistry.PluginRegistry.UnloadPlugin` | selfdrive/plugins/registry.py:185-195 | a loaded plugin is unloaded and disabled; one that is not loaded keeps its state |
| `PluginRegistry.PluginRegistry.TakeTurn` | selfdrive/plugins/registry.py:213-220 | one plugin's turn: it is added and enabled exactly if it loads, its error is the one the laws name, a retry is asked for exactly on a dependency-like error, and no other plugin changes |
| `PluginRegistry.PluginRegistry.LoadPass` | selfdrive/plugins/registry.py:212-220 | one pass of the loop: the loaded set, the retry flag, and every plugin's error and enabled flag |
| `PluginRegistry.PluginRegistry.LoadEnabled` | selfdrive/plugins/registry.py:197-222 | the call leaves exactly the loaded set and the errors of the laws above, disables what it unloads and enables what it loads |
| `CustomSchema.CloseBraceIsFirst` | selfdrive/plugins/builder.py:151-159 | in every text the walk ends just past the first place where all open braces are closed, or fails if there is none |
| `CustomSchema.BalancedBlock` | selfdrive/plugins/builder.py:138-160 | from an opening brace it returns exactly the balanced block |
| `CustomSchema.MatchIsBlock` | selfdrive/plugins/builder.py:138-160 | in a well-formed schema file the match of a slot identifier is exactly that slot's struct |
| `CustomSchema.MatchNone` | selfdrive/plugins/builder.py:144-146 | and there is no match for a slot the file does not declare |
| `CustomSchema.ClaimedIs` | selfdrive/plugins/builder.py:194-202 | replacing a claimed slot changes that struct only |
| `CustomSchema.StrippedIs` | selfdrive/plugins/builder.py:171-178 | everything behind the last slot is cut, and nothing else |
| `CustomSchema.PatchCustomIs` | selfdrive/plugins/builder.py:163-217 | the whole patch: the last claim of each slot in place, then the standalone schemas |
| `CustomSchema.TailText` | selfdrive/plugins/builder.py:205-217 | what follows the slots is every standalone schema in order, each behind an empty line |
| `CustomSchema.PatchCustomText` | selfdrive/plugins/builder.py:167-217 | the whole patched text of a well-formed file with a slot: its slots, claimed or not, and those schemas |
| `CustomSchema.RstripIs` | selfdrive/plugins/builder.py:205-217 | stripping takes off exactly the white space at the end |
| `CustomSchema.PatchIdempotent` | selfdrive/plugins/builder.py:163-168 | patching a well-formed file with a slot twice is patching it once |
| `CustomSchema.PatchIdempotentIff` | selfdrive/plugins/builder.py:163-217 | and, slot or no slot, exactly if there is a slot or every standalone schema is missing or blank |
| `CustomSchema.PatchForgetsIff` | selfdrive/plugins/builder.py:163-217 | patching for P after Q is patching stock for P exactly when every slot claimed by Q and not by P is as it was |
| `CustomSchema.DisabledPluginStays` | selfdrive/plugins/builder.py:163-217 | a disabled plugin whose struct stays in its slot |
| `CustomSchema.WithoutSlotsIdempotentIff` | selfdrive/plugins/builder.py:171-217 | in any file without slots, well-formed or not, patching twice is patching once exactly if every standalone schema is missing or blank |
| `CustomSchema.AppendsWithoutSlots` | selfdrive/plugins/builder.py:171-217 | such a file in which a standalone schema piles up |
| `CustomSchema.MatchTopLevelStruct` | selfdrive/plugins/builder.py:138-160 | the search and the counting loop compute that match |
| `CustomSchema.PatchCustomCapnp` | selfdrive/plugins/builder.py:163-217 | the patcher's loops compute that patch |
| `SchemaFragments.ClaimsIdempotentIff` | selfdrive/plugins/builder.py:138-217 | plugins with claims to different slots, any fragments, their braces paired or not, and nothing to append: patching twice is patching once exactly if in the patched file the walk over each slot before the last ends at the slot's own brace or nowhere, and over the last one ends, unless no walk does |
| `SchemaFragments.UnclaimAll` | selfdrive/plugins/builder.py:180-202 | the way back: a text that such claims turn into a file holding them all was that file with some balanced structs in the claimed slots, and any slot it left alone was balanced or matched nowhere |
| `SchemaFragments.UnbalancedFragmentRepeats` | selfdrive/plugins/builder.py:138-217 | a claim with an unpaired brace whose patch changes its own result |
| `ServicesPatch.StripUndoesInsert` | selfdrive/plugins/builder.py:250-282 | cutting the generated block out undoes inserting it, wherever and however often the anchor occurs |
| `ServicesPatch.StripUndoesInsertIff` | selfdrive/plugins/builder.py:257-282 | for a body that does not end in a header line, it does so exactly if the text has no anchor or no closing line hides in the body |
| `ServicesPatch.PatchUndoneIff` | selfdrive/plugins/builder.py:250-282 | cutting undoes the patch of any plugins' services exactly if the text has no anchor or no service's name or settings hold a closing line |
| `ServicesPatch.ClosingLineStays` | selfdrive/plugins/builder.py:250-282 | a service name with a closing line, which the cut leaves behind and which makes the patch not idempotent |
| `ServicesPatch.TidyIff` | selfdrive/plugins/builder.py:262-271 | the inserted body holds no closing line exactly if no service's name or settings hold one |
| `ServicesPatch.PatchServices` | selfdrive/plugins/builder.py:250-282 | the patcher's loops compute cut, then insert |
| `ServicesPatch.PatchPlaces` | selfdrive/plugins/builder.py:273-279 | in a stock file with one anchor the block goes right before it, header first, and nothing else changes |
| `ServicesPatch.JoinReadsBack` | selfdrive/plugins/builder.py:274-274 | the block's lines are the entries in order |
| `ServicesPatch.EntryReadsBack` | selfdrive/plugins/builder.py:271-271 | an entry's name and settings can be read back from it |
| `ServicesPatch.EntriesInOrder` | selfdrive/plugins/builder.py:260-271 | entries come plugin by plugin |
| `ServicesPatch.PatchForgetsIff` | selfdrive/plugins/builder.py:250-282 | patching after any earlier patch is patching stock exactly if stock has no anchor or no earlier service's name or settings hold a closing line |
| `ServicesPatch.PatchIdempotentIff` | selfdrive/plugins/builder.py:250-254 | so patching twice is patching once under the same exact condition |
| `Logging.RunConserves` | system/loggerd/loggerd.cc:115-195 | over every message sequence the logged packets followed by the queued ones are the received ones, in order, minus exactly the dropped ones |
| `Logging.WriteAllDropsLeadIn` | system/loggerd/loggerd.cc:68-113 | writing a list drops exactly the packets before its first keyframe when not yet recording, and logs the rest in order |
| `Logging.OlderIsDropped` | system/loggerd/loggerd.cc:185-192 | a packet of an older segment is dropped, queue, log and files stay, and from then on a packet is older exactly if the logger is more than its present segment ahead of it |
| `Logging.WaitingIsQueued` | system/loggerd/loggerd.cc:161-184 | a packet that has to wait is queued, or dropped exactly when more than 200 wait |
| `Logging.CurrentIsWritten` | system/loggerd/loggerd.cc:149-160 | any other packet is written behind everything that waited |
| `Logging.WaitsForAudioIff` | system/loggerd/loggerd.cc:136-160 | a recorded encoder with audio: a packet of the logger's segment waits exactly if it is the first of the segment or no audio data has arrived since that one |
| `Logging.LeftBehindLogsNothing` | system/loggerd/loggerd.cc:115-195 | after one older packet at segment g nothing is logged or written until the logger is g segments ahead of what arrives; what arrives is queued, up to 201 packets, and then lost |
| `Logging.LatePacketSilences` | system/loggerd/loggerd.cc:115-195 | so an encoder in step with the logger or ahead of it after that is never logged again |
| `Logging.OneLatePacketIsEnough` | system/loggerd/loggerd.cc:115-195 | one packet of segment 0 that comes after the logger went on to segment 1 is enough, whatever follows in step |
| `Logging.RunFilesOk` | system/loggerd/loggerd.cc:68-113 | every recorded file is empty or one header, that header's keyframe, then packets, and the files hold exactly the logged packets |
| `Logging.OwnFilesIff` | system/loggerd/loggerd.cc:136-160 | on every run without older packets all files hold only their own segment's packets exactly if, each time the queue is written, what is written of it has the segment number of the packet behind it |
| `Logging.FileHoldsEarlierSegment` | system/loggerd/loggerd.cc:136-160 | a run without older packets whose file of segment 2 holds a packet of segment 1 |
| `Rotation.ReachableInv` | system/loggerd/loggerd.cc:115-195 | the run invariant of the fleet when no encoder's segment numbers decrease |
| `Rotation.ReadyBounded` | system/loggerd/loggerd.cc:32-34 | ready_to_rotate never passes max_waiting |
| `Rotation.AllReadyMeansAllPast` | system/loggerd/loggerd.cc:32-54 | a rotation without a time-out closes a segment every encoder has moved past |
| `Rotation.RotatesIff` | system/loggerd/loggerd.cc:32-54 | the logger goes on by one segment exactly on a time-out or when every encoder has been counted since the last rotation, and the count then starts over |
| `Rotation.AudioReaches` | system/loggerd/loggerd.cc:291-303 | audio data reaches every encoder that records with audio and has a file, and changes nothing else |
| `Rotation.OthersStay` | system/loggerd/loggerd.cc:105-170 | a packet changes its own encoder only |
| `Rotation.ReadyCountsNewerIff` | system/loggerd/loggerd.cc:167-173 | ready_to_rotate is the number of encoders that sent a newer packet since the last rotation exactly when each of them was unmarked at that rotation or has sent a packet of the current segment since |
| `Rotation.NewerEncoderCanGoUncounted` | system/loggerd/loggerd.cc:136-173 | for any encoder of a fleet of any size, a run after which it has sent a newer packet and is not counted |
| `Rotation.UncountedBlocksRotation` | system/loggerd/loggerd.cc:32-54 | from such a state only a time-out rotates |
| `Loggerd.LoggerdState.RotateIfNeeded` | system/loggerd/loggerd.cc:32-54 | rotation, on the logger's fields |
| `Loggerd.RemoteEncoder.DoWriteEncodeData` | system/loggerd/loggerd.cc:68-113 | one packet through the writer, on the encoder's fields |
| `Loggerd.RemoteEncoder.HandleMsg` | system/loggerd/loggerd.cc:115-195 | one message, on the encoder's and the logger's fields |
| `Events.Events.Add` | selfdrive/selfdrived/events.py:66-69 | the lists stay sorted and gain exactly the event |
| `Events.Events.Clear` | selfdrive/selfdrived/events.py:71-73 | only the static events remain, and each counter is the number of latest cycles in a row that had its event |
| `Events.Events.Contains` | selfdrive/selfdrived/events.py:75-76 | some listed event carries the type |
| `StateMachine.EngagedBy` | selfdrive/selfdrived/state.py:17-97 | a machine not disabled was engaged by a step with ENABLE and no NO_ENTRY, its last such step, with no user or immediate disable since |
| `StateMachine.PreEnabledIff` | selfdrive/selfdrived/state.py:66-71 | an engaged machine is pre-enabled exactly as long as every step since it engaged carries PRE_ENABLE |
| `StateMachine.TimerIsAge` | selfdrive/selfdrived/state.py:20-20 | the soft-disable timer tells how many steps the machine has been soft disabling |
| `StateMachine.SoftDisablingIsBounded` | selfdrive/selfdrived/state.py:54-64 | soft disabling lasts at most 300 steps in a row |
| `StateMachine.LastingSoftDisable` | selfdrive/selfdrived/state.py:44-64 | and exactly 300 under a lasting soft disable |
| `StateMachine.LetsGoIff` | selfdrive/selfdrived/state.py:25-82 | the machine becomes disabled exactly on a user or immediate disable or on a soft disable after 300 soft-disabling steps |
| `StateMachine.EngagesIff` | selfdrive/selfdrived/state.py:84-97 | a disabled machine engages exactly on ENABLE without NO_ENTRY |
| `StateMachine.OverridingIff` | selfdrive/selfdrived/state.py:48-97 | the exact condition for overriding after a step: an override while pre-enabled or soft disabling does not show |
| `StateMachine.SoftDisablingIff` | selfdrive/selfdrived/state.py:42-82 | soft disabling is entered exactly from enabled or overriding, on a soft disable without a user or immediate one |
| `StateMachine.SoftDisablingEnds` | selfdrive/selfdrived/state.py:53-64 | and left for enabled exactly when the soft disable is gone |
| `StateMachine.TimerSinceEntry` | selfdrive/selfdrived/state.py:20-46 | in every state the timer counts down from 300 since the last entry |
| `StateMachine.AlertsTellTheStep` | selfdrive/selfdrived/state.py:22-97 | each alert type is shown exactly for what happened on the step |
| `StateMachine.SoftDisableBlocksEntry` | selfdrive/selfdrived/events.py:393-1021 | every event of the table with a soft disable also has NO_ENTRY |
| `StateMachine.NeverEngagesUnderSoftDisable` | selfdrive/selfdrived/state.py:84-97 | so the machine never engages on a step with a soft-disable event |
| `StateMachine.DisableBlocksEntryIff` | selfdrive/selfdrived/events.py:674-992 | every event with a user or immediate disable has NO_ENTRY, but for pcmDisable, cruiseDisabled and speedTooLow |
| `StateMachine.EngagesUnderDisableOnly` | selfdrive/selfdrived/state.py:84-97 | engaging under a disabling event needs one of those three, and the next step undoes it if it lasts |
| `StateMachine.EngagesUnderDisable` | selfdrive/selfdrived/state.py:84-97 | with any of the three the machine does engage |
| `StateMachine.StateMachine.constructor` | selfdrive/selfdrived/state.py:12-15 | the machine starts disabled |
| `StateMachine.StateMachine.Update` | selfdrive/selfdrived/state.py:17-97 | state, timer, outputs, and alert types as told by the states before and after |
| `Cruise.Round` | selfdrive/car/cruise.py:112-112 | Python's round stays within a half, takes halves to the even number and keeps integers |
| `Cruise.SetSpeedInRange` | selfdrive/car/card.py:188-191 | over every sequence of frames the set speed is unset or between 8 and 145, in whole tenths |
| `Cruise.InitializationSetsIff` | selfdrive/car/card.py:188-191 | after any run an initialization leaves a set speed exactly unless the car state kept from the frame before asks to resume, there was none to resume, and the frame's own update makes a step |
| `Cruise.InitializedButUnset` | selfdrive/car/card.py:188-259 | three frames that the car process can make from start-up, engaging on the first and the last, that end initialized and unset |
| `Cruise.InitializedIs` | selfdrive/car/cruise.py:126-138 | on engaging, a request to resume brings back the speed before; otherwise the speed is the whole number nearest to the car's, at least 40, or 105 in experimental mode, and at most 145 |
| `Cruise.ShortIff` | selfdrive/car/cruise.py:78-98 | a frame makes a short step exactly if the first button it releases was held for at most 50 frames, pressed while enabled, and is not leaving a standstill |
| `Cruise.LongIff` | selfdrive/car/cruise.py:84-98 | and a long one exactly if it releases none and the button has been held for a multiple of 50 frames, decelerate first |
| `Cruise.TimerTold` | selfdrive/car/cruise.py:114-124 | a button's last event restarts or stops its timer and notes the car's state |
| `Cruise.GasStep` | selfdrive/car/cruise.py:108-112 | with gas a step down goes to the higher of the lowered speed and the car's, up to rounding and the limits |
| `Cruise.TimerCounts` | selfdrive/car/cruise.py:114-124 | while a lone button is held its timer is the number of frames since the press |
| `Cruise.PressAction` | selfdrive/car/cruise.py:66-104 | what each frame of a lone press does: a short step on release up to 50 frames, else a long step at each 50 held and nothing on release |
| `Cruise.PressSteps` | selfdrive/car/cruise.py:66-124 | a press of k frames makes (k-1)/50 long steps, rounded down, and a short one exactly if k <= 50 |
| `Cruise.LongStep` | selfdrive/car/cruise.py:100-106 | a long step goes to the next multiple of its interval in its direction, up to the limits |
| `Cruise.ShortStep` | selfdrive/car/cruise.py:100-112 | a short step moves by exactly its interval, up to the limits: rounding adds nothing |
| `Cruise.UpAndDown` | selfdrive/car/cruise.py:17-17 | a short press up and one down cancel out within the limits |
| `Cruise.MetricLongStepLands` | selfdrive/car/cruise.py:100-112 | a metric long step lands on a multiple of 5 or a limit |
| `Cruise.GasHoldsSpeed` | selfdrive/car/cruise.py:108-112 | decelerating with gas never leaves the set speed below the car's, but for rounding and the limit |
| `Cruise.PressEffect` | selfdrive/car/cruise.py:66-124 | the set speed after a whole press |
| `VCruiseHelper.VCruiseHelper.constructor` | selfdrive/car/cruise.py:32-38 | the set speed starts unset and the timers at 0 |
| `VCruiseHelper.VCruiseHelper.UpdateVCruise` | selfdrive/car/cruise.py:44-64 | one frame, with or without a cruise control of the car's own |
| `VCruiseHelper.VCruiseHelper.UpdateVCruiseNonPcm` | selfdrive/car/cruise.py:66-112 | the decision loops and the step |
| `VCruiseHelper.VCruiseHelper.UpdateButtonTimers` | selfdrive/car/cruise.py:114-124 | timers go on, and the last event of a button restarts or stops its own |
| `VCruiseHelper.VCruiseHelper.InitializeVCruise` | selfdrive/car/cruise.py:126-138 | the initial or resumed set speed |
| `RunningStat.PushAllExact` | common/stat_live.py:25-37 | with unlimited tracking M is the weighted mean of prior and data and S the prior S plus all squared deviations from it |
| `RunningStat.PushAllMonotone` | common/stat_live.py:25-37 | with any cap S never decreases and M stays in the hull of prior and data |
| `RunningStat.NoRoomFollowsLast` | common/stat_live.py:25-31 | with a cap of 0 the mean is the last sample, the last deviation 0, and the deviation stays |
| `RunningStat.FilterTakesIff` | common/stat_live.py:63-71 | a sample passes the filter exactly when n times its squared distance from the mean is at most n + 1 times the variance, or with one sample before it, when neither it nor the start deviates from the mean |
| `RunningStat.RunningStat.PushData` | common/stat_live.py:25-37 | the update on the fields in place |
| `RunningStat.RunningStat.GetVariance` | common/stat_live.py:42-46 | the variance, 0 below two samples |
| `RunningStat.RunningStatFilter.Update` | common/stat_live.py:63-71 | both statistics of the filter |
| `BlockAverage.StartInv` | selfdrive/locationd/lagd.py:118-125 | start-up: restored blocks count as that many samples of the initial value |
| `BlockAverage.RunInv` | selfdrive/locationd/lagd.py:127-132 | over every run the ring holds the means of the latest blocks and the counters match |
| `BlockAverage.SamplesAreCutUp` | selfdrive/locationd/lagd.py:127-132 | the blocks and the current samples are exactly the samples given, in order |
| `BlockAverage.ValidValuesAreWindow` | selfdrive/locationd/lagd.py:134-141 | the valid values are the means of the most recent completed blocks, rotated |
| `BlockAverage.ValidMeanIsPlainMean` | selfdrive/locationd/lagd.py:134-141 | the valid mean is the plain mean of all samples of the latest min(valid_blocks, num_blocks - 1) blocks |
| `BlockAverage.CurrentMeanIsPlainIff` | selfdrive/locationd/lagd.py:145-150 | the current mean, which weighs a partial block like a full one, is the plain mean exactly if the valid blocks and the block in progress have the same mean |
| `BlockAverage.CurrentMeanCanDiffer` | selfdrive/locationd/lagd.py:145-150 | a start-up and one sample after which the two differ |
| `BlockAverage.CurrentValuesAre` | selfdrive/locationd/lagd.py:134-150 | the current average also takes in the mean of the samples in the block in progress, exactly if there are any |
| `BlockAverage.VarianceIs` | selfdrive/locationd/lagd.py:139-148 | the variance is the mean of the squares minus the square of the mean, and undefined exactly without values |
| `BlockAverage.BlockAverage.constructor` | selfdrive/locationd/lagd.py:118-125 | start-up on the array |
| `BlockAverage.BlockAverage.Update` | selfdrive/locationd/lagd.py:127-132 | one sample, in place |
| `BlockAverage.BlockAverage.Get` | selfdrive/locationd/lagd.py:134-150 | the averages, the valid one as the plain mean of the window's samples |
| `InputQueues.EnqueueHolds` | selfdrive/modeld/modeld.py:109-118 | after any enqueue the queue holds the latest rows of its history |
| `InputQueues.ArangeAt` | selfdrive/modeld/modeld.py:134-134 | the index range has one index per model row, for every ratio of at least 2 |
| `InputQueues.FeatureSlot` | selfdrive/modeld/modeld.py:133-135 | slot j of N shows the row enqueued r(N-1-j) rows before the latest, and zero before the start |
| `InputQueues.PulseSlot` | selfdrive/modeld/modeld.py:130-132 | a pulse slot shows the largest of its r rows |
| `InputQueues.OneSlotEach` | selfdrive/modeld/modeld.py:130-132 | each of the last rN rows shows in exactly one slot and an older one in none |
| `InputQueues.StaysForR` | selfdrive/modeld/modeld.py:109-132 | and stays there for exactly r enqueues of one row |
| `InputQueues.InputQueues.UpdateShapes` | selfdrive/modeld/modeld.py:92-104 | each queue gets r rows per model row |
| `InputQueues.InputQueues.Reset` | selfdrive/modeld/modeld.py:106-107 | all queues start as zeros |
| `InputQueues.InputQueues.Enqueue` | selfdrive/modeld/modeld.py:109-118 | every named queue takes its rows; the others do not move |
| `InputQueues.InputQueues.Get` | selfdrive/modeld/modeld.py:120-136 | slot j of n reads the row enqueued r(n-1-j) rows before the latest, or for a pulse the largest of the r rows that end there, at every ratio r |

## Left out

- Rounding, NaN and infinities of floating-point arithmetic, other than the explicit checks for them; a
  negative variance, for which the source's square root is NaN.
- Panda: USB and SPI transport, the reset request and log line after a checksum failure, the PANDAD_MAXOUT
  read, and what is received after a checksum failure, which depends on how the stream was cut.
- Panda.Panda.PackCanBuffer: the source's assertions that this panda's messages are DLC-sized are its precondition.
- Calibration: rotations and Euler angles (any vector may come out of them), heights and the wide camera's
  angles, which the modelled fields do not depend on, the periodic write to the parameter store, and the published message.
- Calibrator.Calibrator.constructor: requires at most 50 saved blocks; with more, the source would index past the ring.
- Driver monitoring: the face, phone and pose models behind the distraction types, the wheel side, the policy from
  brake probability, the offset learning and the dashcam-uncertainty alert, none of which feeds back into awareness
  except through the inputs of a frame.
- Logging: file names, sizes and the writing of other services, audio samples, and segment preservation; the clock
  checks are one boolean per message. Packets carry a number, a segment and the keyframe flag, not their bytes.
- Rotation.ReadyCountsNewerIff: stated for encoders whose segment numbers never decrease.
- Plugin loading: discovery, hooks and modules. What importing a plugin raises is part of its manifest here.
- PluginLoading.RoundsExact: like the other laws on which plugins load and when, for plugins without conflicts and
  import errors; with conflicts the loaded set does depend on the listing order (`OneSidedConflictMissedIff`).
- Schema patch: the rename of event fields in the log schema, parameters, symbolic links and the build hash; files are texts.
  Word characters are the ASCII ones and white space the six ASCII characters.
- CustomSchema.PatchIdempotent: for fragments whose braces pair up; see the next line for the others.
- SchemaFragments.ClaimsIdempotentIff: for patches that claim no slot twice and append no standalone schema.
- CustomSchema.PatchForgetsIff: for files that declare each slot at most once, at least one slot, and whose fragments
  are brace-balanced and declare no slot; `AppendsWithoutSlots` shows the second condition is needed.
- Events: texts, priorities and delays of alerts, and the alert lists made from them. Insertion keeps the list sorted
  by the schema's numbers, which are a parameter; where equal events go is not observable.
- Cruise: interaction of several presses at once beyond the per-frame functions; the stock cruise speed is taken as given.
- Cruise.PressSteps: for a lone press while enabled and, for the accelerate button, never at standstill.
- Running statistics: the standard deviation, which is compared only through the variance it is the root of, and saving.
- BlockAverage.BlockAverage.constructor: requires at most as many valid blocks as blocks; with more, the source's
  reads would index past the ring, and its only caller with saved blocks asserts the bound
  (selfdrive/locationd/lagd.py:351).
- BlockAverage.BlockAverage.Get: gives variances where the source gives their square roots.
- InputQueues.InputQueues.Enqueue: one channel of the time axis; types, shapes of the other axes and image inputs are left out.
- Kalman filters, neural networks, correlation and plotting, user interface, network and update code: plumbing or
  foreign libraries with nothing to prove here.
