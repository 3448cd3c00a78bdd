# Breezy daemon: verified model

A Dafny model of the parts of `breezyd` that carry state, wire arithmetic or
concurrency, with proofs of what they keep. Check it with
`dafny verify dfyconfig.toml`.

- **Clock and scheduler** (`Clock`, `Schedule`, `Scheduler`, `ScheduleRuns`,
  `ScheduleSafety`, `ScheduleLimits`, `ScheduleShowings`, `CatchUp`, `NextEvent`,
  `Ops`). Minute ticks over a circular
  clock, with other calls (`Replace`, `SetEnabled`) running in every gap in
  which a tick holds no lock, a retry machine, and restarts from the state
  file. `Scheduler` is the class; each of its methods is proved equal to a
  function of `Schedule`, and the theorems are about every run of those.
- **FDFD/02** (`Blocks`, `Frames`, `FakeDevice`, `Client`, `WireStack`,
  `WireActions`, `WireSchedule`). A grammar of data blocks gives the codec an independent
  meaning; above it the retry loop over a link that loses packets, the whole
  stack against the plain parameter map of `MemDevice`, and the scheduler firing
  over that stack, one action and whole runs.
- **Cache and mutex** (`Cache`, `SharedCache`, `Poller`, `Handlers`,
  `CacheRuns`). Pollers, handlers and scheduled fires as interleaved steps,
  packet by packet. `Cache.State` works on values; `SharedCache.SharedState` is
  the same cache with its byte buffers on the heap, for the copying rules.
  `PollStepsAreTick` and `OpStepsAreOp` tie the steps to the methods.
- **Energy** (`FanCurve`, `Energy`, `EnergyTracking`, `EnergyRuns`,
  `EnergyRestart`). Three nested horizons of kilowatt-hours with rollovers,
  lost saves and restarts, over piecewise-linear interpolation.
- **Push hub** (`PushQueue`, `PushHubs`). Bounded drop-oldest queues with a
  consumer draining between any two channel operations.

Assumptions. A lost save or an unreadable state file is a Boolean given with
the call. An instant carries its local date and minute; a date determines its
month. Integers are unbounded except where the source's width shows: bytes,
16-bit parameter numbers, the 16-bit sum, two's-complement temperatures.
Floating-point quantities are reals. The link may lose any request or reply but
delivers nothing late: the protocol has no sequence number. The scheduler's
clock hypotheses (forward, less than a day per tick) appear only where a
theorem needs them, and `WindowCompleteIff` shows that limit exact. Nothing but
the modelled writes changes the device: the cache theorems do not speak of the
unit's own panel and sensors, which change parameters between polls, nor of the
test endpoints of `cmd/breezyd/handlers_test_admin.go`, which set a parameter
outside the mutex.

Where the code and the documents differ, the model follows the code:

- `SPECIFICATION-daemon.md:533-536` says an entry in the repeated hour of a
  DST change fires twice; `scheduler.go` suppresses the second fire. A
  replacement, a restart or a lost save can end the suppression
  (`ReplaceAllowsSecondFire`, `LostSaveAllowsSecondFire`); `ReplaceIsSafeIff`,
  `RestartIsSafeIff` and `LostSaveIsSafeIff` say exactly when.
- `SPECIFICATION-daemon.md:522` says editing the schedule clears a retry; an
  edit that lands inside a tick can leave one for a removed entry
  (`ReplaceDuringFireLeavesRetry`; `TickStrandsIff` is the exact condition).
- The date kept for a fire is the date it was made on, so a fire that lands past
  midnight suppresses the next evening's (`LateFireSuppressesNextEvening`;
  `CrossedIsServedIff` says exactly when a crossed entry is served, and
  `FiresIffCrossedAndUnfired` when a quiet tick fires at all).
- `scheduler.go:339-342` fires only the latest of several crossed entries because
  the earlier ones are stale; when it is "off" and an earlier one is not, an
  earlier speed is skipped (`OffSkipsEarlierSpeed`; `SkippingIsExactIff` is the
  exact condition).
- `SPECIFICATION-daemon.md:196-199` says a tick with a failed batch reuses the
  previous values; the code does so only when nothing at all was read, and
  otherwise stores the batches that succeeded (`LostBatchForgets`;
  `FailedTickForgetsIff` and `FailedPollForgetsIff` are the exact condition).
- `energy_tracker.go:98-141` reads the clock once for the day and again for the
  month; when a month ends between the two, the horizons stop nesting
  (`LoadKeepsNestingIff` is the exact condition for one load,
  `HorizonsNestIff` for a whole run).
- The wire skips zero-length writes and the in-process device stores them
  (`EmptyWritesAgreeIff` is the exact condition).
- The 16-bit sum catches every one-byte alteration but no exchange of two bytes
  (`OneByteIsAlwaysCaught`, `SwapIsNotCaught`); `ReplacedDataAcceptedIff` says
  exactly which other data passes.

## Model

| member | source | states |
|---|---|---|
| `Clock.Dist` | `cmd/breezyd/scheduler.go:429-435` | the minutes until the clock next shows a time: between 1 and 1440, and adding them reaches it |
| `Clock.WindowIsDistance` | `cmd/breezyd/scheduler.go:383-388` | the branching window test is one comparison of circular distances |
| `Clock.EveryMinuteSeenOnce` | `cmd/breezyd/scheduler.go:336-342` | over forward ticks less than a day apart, across any midnights, each showing of a time falls in exactly one window |
| `Clock.WindowCompleteIff` | `cmd/breezyd/scheduler.go:383-388` | a window misses nothing exactly when the pause was shorter than a day |
| `Schedule.SortPermutes` | `cmd/breezyd/scheduler.go:313-317` | sorting keeps exactly the entries it was given |
| `Schedule.SortAscends` | `cmd/breezyd/scheduler.go:313-317` | distinct times come out strictly ascending |
| `Schedule.SortKeepsValid` | `cmd/breezyd/scheduler.go:295-296` | a valid schedule stays valid and becomes ordered |
| `Schedule.Latest` | `cmd/breezyd/scheduler.go:436-452` | none exactly when nothing eligible was crossed, else the eligible entry the clock passed last |
| `Scheduler.Scheduler.Validate` | `cmd/breezyd/scheduler.go:142-164` | accepts exactly the valid schedules and names the first broken rule otherwise |
| `Scheduler.Scheduler.Load` | `cmd/breezyd/scheduler.go:220-246` | a missing or invalid file leaves the empty state, a valid one is restored in order |
| `Scheduler.Scheduler.Save` | `cmd/breezyd/scheduler.go:248-261` | stores the persisted part of the state, or loses it |
| `Scheduler.Scheduler.SetEnabled` | `cmd/breezyd/scheduler.go:271-282` | toggles without touching the rest, never enabling an empty schedule |
| `Scheduler.Scheduler.Replace` | `cmd/breezyd/scheduler.go:291-311` | swaps a valid schedule in, clearing alert, retry and fires; refuses an invalid one unchanged |
| `Scheduler.Scheduler.Fire` | `cmd/breezyd/scheduler.go:468-547` | ends in an authentication failure exactly when a dialled device refuses the password, leaving a failed last fire and no retry; in success exactly when nothing fails, recording the fire; otherwise a retry thirty seconds on; the device ends as the entry asks, or after some earlier packet; other calls may run before the outcome is recorded |
| `Scheduler.Scheduler.DialAndApply` | `cmd/breezyd/scheduler.go:476-487` | the unlocked half: the exact outcome from the dial, the password, the link and the contexts, and what the device got |
| `Scheduler.Scheduler.RecordOutcome` | `cmd/breezyd/scheduler.go:489-546` | success, auth failure and transient failure update alert, retry and fires as one step |
| `Scheduler.Scheduler.FindNewer` | `cmd/breezyd/scheduler.go:398-405` | finds whether another entry was crossed |
| `Scheduler.Scheduler.FindLatest` | `cmd/breezyd/scheduler.go:436-452` | the loop finds the entry crossed last |
| `Scheduler.Scheduler.HandleRetry` | `cmd/breezyd/scheduler.go:390-424` | supersede, abandon, attempt or keep a retry, and when it attempts one |
| `Scheduler.Scheduler.Tick` | `cmd/breezyd/scheduler.go:347-462` | the whole tick is its specification with calls in every lock gap; it sends exactly the entry that specification dispatches, with the outcome the device dictates, and keeps the invariant |
| `ScheduleRuns.ReachableIsSound` | `cmd/breezyd/scheduler.go:347-547` | in every reachable state the schedule is valid, ordered, never enabled while empty, and a pending retry shows as a failed last fire of the same time with retries one less than attempts |
| `ScheduleRuns.TickKeepsSound` | `cmd/breezyd/scheduler.go:347-462` | a tick keeps that invariant, whatever runs in its gaps |
| `ScheduleRuns.SaveLoadRoundTrip` | `cmd/breezyd/scheduler.go:220-261` | what a daemon saves, its restart loads back: schedule, alert and fires, without the retry and the last tick |
| `ScheduleRuns.FiresAtMostOncePerDate` | `cmd/breezyd/scheduler.go:121-127` | over ticks with saved fires, toggles and harmless replacements in and between them, and restarts, each time has at most one successful fire per local date, retries included |
| `ScheduleRuns.FreshScheduleIsCovered` | `cmd/breezyd/scheduler.go:291-311` | the first schedule of a new daemon is a start that theorem applies to |
| `ScheduleSafety.SafeIffCovered` | `cmd/breezyd/scheduler.go:121-127` | with no retry pending, no orderly run from a state fires a time twice on a date exactly when every fire of that date or later, at a time in memory or in a loadable file, is of that date and suppressed there |
| `ScheduleSafety.ReplaceIsSafeIff` | `cmd/breezyd/scheduler.go:300-310` | a replacement is safe exactly when no row's time has fired on the date or later and, if it was not saved, the old file still covers what has fired |
| `ScheduleSafety.RestartIsSafeIff` | `cmd/breezyd/scheduler.go:220-246` | a restart is safe exactly when the file suppresses the date's fires at its own times |
| `ScheduleSafety.LostSaveIsSafeIff` | `cmd/breezyd/scheduler.go:498-501` | losing the save of a fire is safe exactly when the old file would not bring its time back unsuppressed |
| `ScheduleRuns.RetriesAreBounded` | `cmd/breezyd/scheduler.go:520-533` | with ticks d apart, d * (attempts - 1) stays below ten minutes in every run, replacements in mid-fire included |
| `ScheduleRuns.TickNext` | `cmd/breezyd/scheduler.go:520-533` | a tick fires at most once and never moves the deadline of an episode it continues |
| `ScheduleLimits.RetryStaysScheduled` | `cmd/breezyd/scheduler.go:489-533` | without a replacement inside a tick, a pending retry is for an entry of the schedule |
| `ScheduleLimits.TickLeavesFinalRows` | `cmd/breezyd/scheduler.go:291-311` | the schedule a tick leaves is that of the last valid replacement among the calls it lets run, else the old one |
| `ScheduleLimits.TickStrandsIff` | `cmd/breezyd/scheduler.go:489-533` | a tick leaves a retry for an entry outside the schedule exactly when what it sends fails transiently, the calls it lets run leave rows without it, and no replacement comes after the failure is recorded |
| `ScheduleLimits.RetriesStayScheduledIff` | `cmd/breezyd/scheduler.go:300-310` | over any run, replacements between and inside ticks included, retries stay scheduled exactly when no tick strands one |
| `ScheduleLimits.FiresExactlyWhatIsSent` | `cmd/breezyd/scheduler.go:489-503` | whatever runs in its gaps, a tick adds to the fires exactly the entry it sent, when that succeeded |
| `ScheduleLimits.NewerEntrySupersedes` | `cmd/breezyd/scheduler.go:390-411` | an entry crossed during a retry is never held up by it: it, or one crossed later, is sent, and any retry left is the first of a new episode for what was sent |
| `ScheduleLimits.FailedFireIsRetried` | `cmd/breezyd/scheduler.go:390-424` | after a transient failure, a tick that crosses no entry sends the failed one again exactly from thirty seconds after the failure until ten minutes after the first failure of the episode |
| `ScheduleLimits.AuthFailureIsNotRetried` | `cmd/breezyd/scheduler.go:506-518` | after an authentication failure, such a tick sends nothing |
| `ScheduleLimits.ExpiredRetryIsDropped` | `cmd/breezyd/scheduler.go:412-419` | past its deadline a retry is not sent: what is sent was crossed, and a retry left is the first of a new episode |
| `ScheduleLimits.ReplaceDuringFireLeavesRetry` | `cmd/breezyd/scheduler.go:489-533` | a replacement during a failing fire leaves a retry for a removed entry |
| `ScheduleLimits.ReplaceAllowsSecondFire` | `cmd/breezyd/scheduler.go:306` | a concrete run: saving the same schedule again in a repeated hour lets its entry fire twice on a date |
| `ScheduleLimits.LostSaveAllowsSecondFire` | `cmd/breezyd/scheduler.go:499-501` | a concrete run: so does a restart after a lost save |
| `ScheduleLimits.FiresIffCrossedAndUnfired` | `cmd/breezyd/scheduler.go:436-461` | with nothing to retry, a tick fires exactly when an entry was crossed that has no fire on the tick's date |
| `ScheduleLimits.LateFireSuppressesNextEvening` | `cmd/breezyd/scheduler.go:443-445` | a 23:59 entry fired late, past midnight, is skipped the following evening |
| `ScheduleShowings.CrossedIsDecided` | `cmd/breezyd/scheduler.go:390-461` | a crossed entry is sent, passed over for one crossed later, or suppressed; a due retry is never in its way |
| `ScheduleShowings.CrossedIsServedIff` | `cmd/breezyd/scheduler.go:436-452` | without a due retry, a crossed entry is sent or passed over for a later one exactly when it or one crossed later has not fired on the tick's date |
| `ScheduleShowings.EveryShowingIsDecided` | `cmd/breezyd/scheduler.go:336-342` | over forward ticks of an enabled schedule each showing of an entry's time lies in exactly one tick's stretch, and that tick decides it |
| `ScheduleShowings.IdleTickFiresNothing` | `cmd/breezyd/scheduler.go:361-381` | a disabled schedule, the first tick after a start and a second tick in a minute send and fire nothing; a disabled one gives up its retry |
| `CatchUp.CrossedInOrder` | `cmd/breezyd/scheduler.go:438-451` | the crossed list holds exactly the eligible entries, in the order the clock passed them |
| `CatchUp.LatestIsLastCrossed` | `cmd/breezyd/scheduler.go:446-450` | the tick's pick is the last of that list |
| `CatchUp.SkippingStaleEntriesIsSafe` | `cmd/breezyd/scheduler.go:339-342` | firing only the latest leaves the device as firing all in order, or with the same power and timer when it is "off" |
| `CatchUp.SkippingIsExactIff` | `cmd/breezyd/scheduler.go:429-461` | firing only the latest equals firing all crossed entries in order, on every device, exactly when it is not "off" or all of them are |
| `CatchUp.OffSkipsEarlierSpeed` | `cmd/breezyd/scheduler.go:585-588` | a concrete schedule: the latest is "off", and an earlier entry's speed is skipped |
| `NextEvent.NextScheduleEvent` | `cmd/breezyd/ui_view.go:327-346` | names an entry at the least circular distance in 1..1440, none exactly for an empty schedule |
| `NextEvent.NothingBeforeNext` | `cmd/breezyd/scheduler.go:454-461` | until that time, minute ticks only advance |
| `NextEvent.IndicatedEventFiresFirst` | `cmd/breezyd/ui_view.go:317-346` | ticking minute by minute, the first fire is the indicated one, when it comes round |
| `Ops.Power` | `pkg/breezy/ops.go:45-53` | on writes 1 to 0x01; off writes 0 to it and to the timer 0x07, in one packet |
| `Ops.SetMode` | `pkg/breezy/ops.go:122-137` | ventilation, regeneration, supply, extract in any case write 0, 1, 2, 3 to 0xB7; any other name is refused before any traffic |
| `Ops.SetSpeedManual` | `pkg/breezy/ops.go:109-118` | out of 10..100 is refused; else the percentage to 0x44, 0xFF to 0x02 and 0 to the timer, in one packet |
| `Ops.SetSpeedPreset` | `pkg/breezy/ops.go:62-70` | out of 1..3 is refused; else the preset to 0x02 and 0 to the timer, in one packet |
| `Ops.SetTimer` | `pkg/breezy/ops.go:155-168` | off, night, turbo in any case write 0, 1, 2 to 0x07; any other name is refused before any traffic |
| `Ops.CaseIsFolded` | `pkg/breezy/ops.go:122-137` | a name written in any mixture of ASCII cases is recognised |
| `Ops.ActionIsMode` | `cmd/breezyd/scheduler.go:132-138` | every schedule action but "off" is a mode `SetMode` accepts as it stands |
| `Ops.TimerRunsOnlyIfStarted` | `pkg/breezy/ops.go:55-70` | over any run of operations from a stopped timer, it runs only if one was started after the last clearing operation |
| `Ops.ApplyAction` | `cmd/breezyd/scheduler.go:585-596` | in-process: the packets go out in order and stop at the first error, leaving exactly that prefix applied; an authentication error comes back exactly when the device refuses the password |
| `Ops.ActionWrites` | `cmd/breezyd/scheduler.go:585-596` | the bytes an entry sends, in order |
| `Ops.FiringLeaves` | `cmd/breezyd/scheduler.go:583-596` | firing on any device: "off" leaves power and timer 0; any other action leaves power 1, its airflow mode, the entry's percentage under manual control, and timer 0 |
| `Ops.FiringLeavesTheRest` | `cmd/breezyd/scheduler.go:583-596` | and touches nothing else |
| `Ops.RetryGivesCleanResult` | `cmd/breezyd/scheduler.go:583-596` | after any partly applied attempts, one full attempt gives the clean result |
| `WireActions.ActionOverWire` | `cmd/breezyd/scheduler.go:585-596` | over the lossy wire: the device has the acknowledged packets of the action, and possibly the next one too |
| `WireActions.RefusedWrite` | `pkg/breezy/client.go:259-263` | a refused packet ends as an authentication failure as soon as one attempt gets through, the device untouched |
| `WireActions.RetryOverWireIsClean` | `cmd/breezyd/scheduler.go:583-596` | however many attempts failed over the wire, and wherever, one acknowledged attempt leaves the clean result |
| `WireSchedule.RefusedFire` | `cmd/breezyd/scheduler.go:506-518` | over the wire a refused password ends a fire as an authentication failure, a failed dial as a transient one |
| `WireSchedule.RunTouchesOnlyActions` | `cmd/breezyd/scheduler.go:468-486` | over any run of the scheduler on the lossy wire, no parameter outside the five of an action changes |
| `WireSchedule.SuccessfulFireIsClean` | `cmd/breezyd/scheduler.go:468-503` | after any such run - fires lost, part-landed, retried, superseded, replaced - a tick whose fire succeeds leaves the device one clean fire would have left at the start; for "off", the same power and timer |
| `Ops.LastActionDecides` | `cmd/breezyd/scheduler.go:429-461` | whatever fired before, an action that is not "off" decides the device alone |
| `Params.StoreLast` | `pkg/breezy/memclient.go:89-91` | each parameter ends with its last written value |
| `Params.StoreOverrides` | `pkg/breezy/memclient.go:89-91` | writes leave no trace under later writes to the same parameters |
| `MemDevice.MemClient.ReadParams` | `pkg/breezy/memclient.go:53-73` | the stored values of the requested identifiers, absent ones left out, or the injected fault |
| `MemDevice.MemClient.WriteParams` | `pkg/breezy/memclient.go:77-93` | all writes in order, or none under a fault |
| `MemDevice.MemClient.Reset` | `pkg/breezy/memclient.go:121-131` | undoes every write and fault since construction |
| `Blocks.ParseDataBlock` | `pkg/breezy/frame.go:359-438` | the loop parses as the grammar does, malformed blocks and change-function markers included |
| `Blocks.ParseIsGrammar` | `pkg/breezy/frame.go:349-358` | a block parses completely to some entries exactly when it spells a sentence with that meaning |
| `Blocks.FuncChangeKeepsPrefix` | `pkg/breezy/frame.go:406-421` | on a change-function marker, with or without its function byte, exactly the entries of the sentence before it are returned |
| `Blocks.TokensOnWire` | `pkg/breezy/frame.go:359-438` | the four forms byte by byte, and which identifiers are reserved |
| `Blocks.BuildWriteDataBlock` | `pkg/breezy/frame.go:309-347` | builds the write block, or panics on the first reserved identifier or oversized value |
| `Blocks.WriteRoundTrip` | `pkg/breezy/frame.go:302-347` | parsing a write block gives the non-empty writes, in order, across page switches |
| `Blocks.WriteBlockOnWire` | `pkg/breezy/frame.go:309-347` | each write byte by byte: page switch when needed, then nothing, the two-byte form or the sized form |
| `Blocks.BuildReadDataBlock` | `pkg/breezy/frame.go:277-300` | builds the read block, or panics on the first reserved identifier |
| `Blocks.ReadBlockLength` | `pkg/breezy/frame.go:267-276` | its length is the identifiers plus two bytes per page change |
| `Blocks.ReadBlockOnWire` | `pkg/breezy/frame.go:277-300` | each identifier byte by byte |
| `Blocks.EveryPageCosts` | `pkg/breezy/frame.go:290-296` | in any order every distinct page costs a switch |
| `Blocks.SortedPaysOncePerPage` | `cmd/breezyd/main.go:635-638` | sorted identifiers pay one switch per distinct page |
| `Blocks.SortedBlockIsShortest` | `cmd/breezyd/main.go:635-638` | among all orderings of the same identifiers the sorted one is shortest |
| `Frames.EncodeRequest` | `pkg/breezy/frame.go:98-126` | panics on a bad identity or password length; else FD FD 02 10, identity, password length, password, function, data, and in the last two bytes, low first, the sum of all between header and trailer modulo 2^16 |
| `Frames.FrameOnWire` | `pkg/breezy/frame.go:98-126` | the model's frames are exactly the byte strings of that description |
| `Frames.DecodeResponse` | `pkg/breezy/frame.go:136-198` | decodes with the checks in their order |
| `Frames.FirstFaultIsNamed` | `pkg/breezy/frame.go:136-198` | in literal bytes: which error each defect gets, the first in frame order winning, the sum last |
| `Frames.DecodeInvertsEncode` | `pkg/breezy/frame.go:128-198` | bytes decode to a function and data exactly when they are the frame of that function and data |
| `Frames.DecodeDiscoveryResponse` | `pkg/breezy/frame.go:215-265` | the relaxed decoder, loop and checks |
| `Frames.FirstDiscoveryFaultIsNamed` | `pkg/breezy/frame.go:215-265` | the same for the relaxed decoder |
| `Frames.DiscoveryAcceptsAnyPassword` | `pkg/breezy/frame.go:200-214` | it accepts exactly the frames of some password of at most 8 bytes, and yields the frame's own identity |
| `Frames.DecodersAgree` | `pkg/breezy/frame.go:200-214` | what the strict decoder accepts the relaxed one accepts alike |
| `Frames.OneByteIsAlwaysCaught` | `pkg/breezy/frame.go:184-197` | a frame altered in one byte is never accepted and never turned into an authentication failure; the error is named for each position |
| `Frames.ReplacedDataAcceptedIff` | `pkg/breezy/frame.go:184-197` | other data of any length under the old checksum is accepted exactly when its sum agrees modulo 2^16, and otherwise reported as a checksum error |
| `Frames.SwapIsNotCaught` | `pkg/breezy/frame.go:184-192` | exchanging two data bytes is never caught |
| `FakeDevice.ParseReadDataBlock` | `pkg/breezy/fakedevice/fake.go:438-465` | the loop reads the identifiers of a request |
| `FakeDevice.RequestBytes` | `pkg/breezy/fakedevice/fake.go:438-465` | each byte of a request: page changes, skipped function changes, cut markers, identifiers |
| `FakeDevice.ReadRoundTrip` | `pkg/breezy/fakedevice/fake.go:433-465` | the device reads back the identifiers a read block was built from |
| `FakeDevice.Server.BuildResponseDataBlock` | `pkg/breezy/fakedevice/fake.go:475-519` | one answer per identifier, with page switches |
| `FakeDevice.ResponseOnWire` | `pkg/breezy/fakedevice/fake.go:475-519` | each answer byte by byte: value, sized value, or the "not supported" mark |
| `FakeDevice.ResponseRoundTrip` | `pkg/breezy/fakedevice/fake.go:467-519` | the client parses value-or-unsupported for each identifier, in order |
| `FakeDevice.Server.HandleWriteRequest` | `pkg/breezy/fakedevice/fake.go:403-431` | applies a well-formed block whole, drops a malformed one, and echoes when asked |
| `FakeDevice.MarksAreNotWritten` | `pkg/breezy/fakedevice/fake.go:412-422` | exactly the entries with a value are written |
| `FakeDevice.Server.HandleDiscoveryRequest` | `pkg/breezy/fakedevice/fake.go:335-357` | answers a wildcard read under any password with its own identity |
| `FakeDevice.Server.HandleRequest` | `pkg/breezy/fakedevice/fake.go:249-311` | dispatch: silence, discovery, forced and real authentication failures, reads, writes, drops |
| `WireStack.DeviceAnswers` | `pkg/breezy/fakedevice/fake.go:249-311` | the answer to every well-formed frame, in literal functions: silence, discovery, authentication failure 0x07, values 0x06 |
| `WireStack.WriteAnswer` | `pkg/breezy/fakedevice/fake.go:403-431` | a well-formed write is stored whole and echoed when asked, a malformed one dropped |
| `WireStack.MalformedRequests` | `pkg/breezy/fakedevice/fake.go:239-299` | a datagram for another, cut short or corrupt gets no answer; a wrong password gets one whatever the sum says |
| `WireStack.WildcardIsLiteral` | `pkg/breezy/discover.go:23` | the wildcard identity, character by character |
| `Client.Client.AttemptOnce` | `pkg/breezy/client.go:297-326` | one send and receive over the link |
| `Client.Client.ExchangeWithRetries` | `pkg/breezy/client.go:242-293` | the retry loop: stops on success, authentication failure and context end, else retries |
| `Client.Client.ReadParams` | `pkg/breezy/client.go:164-184` | supported values only, the typed error otherwise |
| `Client.Client.WriteParams` | `pkg/breezy/client.go:204-215` | read-only targets refused before any traffic, else one exchange |
| `WireStack.WriteRefusals` | `pkg/breezy/client.go:204-215` | the literal read-only list is refused before any traffic, before what the builder cannot spell; nothing to write sends nothing |
| `WireStack.ContextStopsExchange` | `pkg/breezy/client.go:249-283` | a context that has ended stops the exchange before traffic, one that ends during a wait right there |
| `WireStack.RefusalIsFinal` | `pkg/breezy/client.go:259-263` | an authentication failure ends the exchange with the first attempt that gets through, whatever retries are left |
| `WireStack.WriteRequest` | `pkg/breezy/fakedevice/fake.go:403-431` | a request is applied whole or not at all, and only an applied one is acknowledged |
| `WireStack.WriteIsAllOrNothing` | `pkg/breezy/client.go:192-215` | whatever the link loses, success leaves the writes applied once however many attempts got through, failure leaves all or nothing |
| `WireStack.ReadIsSelect` | `pkg/breezy/client.go:159-184` | a read changes nothing and a successful one returns exactly what the device holds |
| `WireStack.SucceedsIffDelivered` | `pkg/breezy/client.go:242-293` | an undisturbed exchange succeeds exactly when one of its attempts is delivered |
| `WireStack.WriteSucceedsIffDelivered` | `pkg/breezy/client.go:204-215` | so does a write to an answering device |
| `WireStack.WriteLandsIff` | `pkg/breezy/client.go:249-285` | a write to an answering device takes effect exactly when one of its requests gets through, acknowledged or not |
| `WireStack.ReadSucceedsIffDelivered` | `pkg/breezy/client.go:164-184` | and a read |
| `WireStack.EmptyWritesAgreeIff` | `pkg/breezy/frame.go:330-333` | wire and in-process device agree on a write exactly when no parameter's last write is empty |
| `WireStack.StackRefinesMap` | `pkg/breezy/client.go:164-215` | every session over the lossy stack is explained by the plain map: all successful results and the final parameters are the map's, for some choice of failed writes that took effect |
| `WireStack.SuccessfulSessionIsMap` | `pkg/breezy/memclient.go:50-93` | a session without failures gives the very results and parameters of the plain map |
| `Cache.State.Get` | `cmd/breezyd/state.go:50-58` | the snapshot, or the empty one and false |
| `Cache.State.Set` | `cmd/breezyd/state.go:63-67` | replaces one snapshot and no other |
| `Cache.State.UpdateIP` | `cmd/breezyd/state.go:73-79` | changes only the address |
| `Cache.State.WriteThrough` | `cmd/breezyd/state.go:90-120` | overlays the writes in order, keeping poll time and error |
| `Cache.State.Delete` | `cmd/breezyd/state.go:138-142` | forgets one snapshot and no other |
| `SharedCache.CloneValues` | `cmd/breezyd/state.go:147-158` | equal bytes in buffers nobody else holds |
| `SharedCache.SharedState.Get` | `cmd/breezyd/state.go:47-58` | the caller gets the cached bytes in its own buffers |
| `SharedCache.SharedState.Set` | `cmd/breezyd/state.go:60-67` | the cache keeps its own copy and none of the caller's buffers |
| `SharedCache.SharedState.WriteThrough` | `cmd/breezyd/state.go:90-120` | copy on write: the written bytes are stored, no buffer of the caller is kept |
| `SharedCache.SharedState.ReadAndScribble` | `cmd/breezyd/state.go:47-49` | a reader has overwritten every byte it was given and the cache is as it was |
| `Poller.Poller.NoticeWrite` | `cmd/breezyd/poller.go:143-153` | a fan write restarts the settle window unless the client is in-process |
| `Poller.Poller.IdsForThisTick` | `cmd/breezyd/poller.go:288-304` | inside the window the fan-sensitive parameters are left out |
| `Poller.SteadyKeepsTheRest` | `cmd/breezyd/poller.go:293-301` | and nothing else is |
| `Poller.FanReadsPause` | `cmd/breezyd/poller.go:20-52` | which writes pause the three fan-sensitive reads, and that the pause is twelve seconds |
| `Poller.Poller.ReadBatches` | `cmd/breezyd/poller.go:209-227` | the loop keeps what succeeds and the last error |
| `Poller.LastErrorIsLast` | `cmd/breezyd/poller.go:209-227` | the error kept is that of the last failed batch, none exactly when none failed |
| `Poller.BatchesAreOneRead` | `cmd/breezyd/poller.go:209-227` | without errors the batches together are one unbatched read |
| `Poller.GatherIsCurrent` | `cmd/breezyd/poller.go:209-227` | whatever fails, everything read is what the device holds |
| `Poller.FailedTickForgetsIff` | `cmd/breezyd/poller.go:229-237` | a tick that meets an error forgets a cached parameter the device holds exactly when some answered batch returned a value and the parameter was in none |
| `Poller.LostBatchForgets` | `cmd/breezyd/poller.go:209-237` | thirty-one parameters, the second batch timing out: the last cached parameter is forgotten |
| `Poller.Poller.Tick` | `cmd/breezyd/poller.go:179-263` | takes the mutex and gives it back on every path; the stored address is the poller's, the stored error none exactly when every batch was answered and otherwise that of the last failed batch, or the dial's; values and poll time on success, on failure of some or all batches, on a failed dial and an ended context; which hooks run, and that the energy tracker gets exactly a full poll's values |
| `Poller.RecordingClient.WriteParams` | `cmd/breezyd/recording_client.go:50-58` | called only under the device's mutex; records exactly on success: device, cache and settle window move together or not at all |
| `Poller.RecordingClient.RecordWrite` | `cmd/breezyd/server.go:522-529` | writes through and notices every write |
| `CacheRuns.CacheAgreesWhenFree` | `cmd/breezyd/poller.go:119-134` | in every interleaving of locking actors, whenever the mutex is free each cached parameter equals the device's, except where an unacknowledged write landed; the poll time is that of the last fully answered poll |
| `CacheRuns.ExceptionIffLanded` | `cmd/breezyd/recording_client.go:48-58` | the excepted parameters are exactly those an unacknowledged write landed on, with no record or fresh reading since |
| `CacheRuns.ExceptionsHaveCause` | `cmd/breezyd/recording_client.go:48-58` | and the step at which it landed |
| `CacheRuns.InProcessCacheAgrees` | `cmd/breezyd/poller.go:119-134` | on the in-process device there are no exceptions: no reading covers a newer written-through value |
| `CacheRuns.UnackedWriteLeavesStale` | `cmd/breezyd/recording_client.go:50-53` | over a lossy link a write that lands unacknowledged leaves a stale cached value |
| `CacheRuns.UnlockedWriterIsOverwritten` | `cmd/breezyd/poller.go:119-125` | without the mutex a poll stores its reading over a newer write |
| `CacheRuns.FullPollIsOneRead` | `cmd/breezyd/poller.go:239-251` | a fully answered poll stores what one unbatched read would return now |
| `CacheRuns.FailedPollKeepsCache` | `cmd/breezyd/poller.go:229-245` | a failed poll never empties the cache and never moves the poll time |
| `CacheRuns.FailedPollForgetsIff` | `cmd/breezyd/poller.go:229-251` | in any interleaving a poll that met an error forgets a cached parameter exactly when some answered batch returned a value and the parameter was in none |
| `CacheRuns.PollStepsAreTick` | `cmd/breezyd/poller.go:179-263` | the small steps of an uninterrupted poll store exactly the tick's snapshot |
| `Handlers.DeviceOps.Dial` | `cmd/breezyd/server.go:362-373` | takes the mutex and opens a client, or gives the mutex back |
| `Handlers.DeviceOps.SendAll` | `cmd/breezyd/server.go:395-403` | on an open client under the mutex: the packets tried, in order up to the first error, what they did to device and cache, and a settle window of twelve seconds from now if one of them wrote a fan parameter |
| `Handlers.DeviceOps.DoDeviceOp` | `cmd/breezyd/server.go:422-436` | the exact trace: lock, open, the packets tried, close, unlock - or lock, unlock when no client opens; device and cache move by the packets that succeeded |
| `Handlers.DeviceOps.ScheduledFire` | `cmd/breezyd/server.go:483-497` | the same trace for a fire, whose mutex is taken once, by the fire itself |
| `Handlers.SessionIs` | `cmd/breezyd/server.go:362-436` | the trace position by position |
| `Handlers.PacketsUnderMutex` | `cmd/breezyd/server.go:347-373` | in every disciplined trace each packet lies inside one opening inside one holding of the mutex |
| `Handlers.OpStepsAreOp` | `cmd/breezyd/server.go:422-476` | the small steps of an undisturbed operation leave what its contract says |
| `FanCurve.InterpHitsSamples` | `pkg/breezy/energy.go:30-53` | interpolation goes through every calibration sample |
| `FanCurve.InterpIsStraight` | `pkg/breezy/energy.go:43-49` | between two samples the value divides the gap as the percentage does |
| `FanCurve.CalibratedModelIs` | `pkg/breezy/energy.go:19-90` | type 17 and no other is calibrated; its airflow, heat and draw at every percentage in numbers |
| `FanCurve.InterpBoundedAndMonotone` | `pkg/breezy/energy.go:30-53` | for every strictly ascending table of non-decreasing values it stays within the samples and never falls |
| `FanCurve.WattsFollowDelta` | `pkg/breezy/energy.go:65-78` | the recovered power has the sign of the temperature difference |
| `FanCurve.FanWattsBounded` | `pkg/breezy/energy.go:80-90` | a fan's draw never falls with speed, is never negative, never above the top draw |
| `Energy.ConsumedBounded` | `cmd/breezyd/energy_tracker.go:331-335` | both fans draw between nothing and twice the top draw |
| `Energy.CountsOnlyWhileRegenerating` | `cmd/breezyd/energy_tracker.go:278-321` | power is counted exactly when the unit is on, regenerating, calibrated and every input readable |
| `Energy.FanFollowsMode` | `pkg/breezy/status.go:306-338` | which parameter each fan's percentage comes from in each speed mode |
| `Energy.TemperatureIs` | `cmd/breezyd/energy_tracker.go:362-371` | two bytes, low first, in signed tenths; a thousand degrees or more is no reading |
| `Energy.TroubleIs` | `cmd/breezyd/energy_tracker.go:278-291` | which trouble is reported, exactly when |
| `Energy.ReadingIs` | `cmd/breezyd/energy_tracker.go:323-335` | the two powers from the two percentages and temperatures, the average truncated |
| `Energy.WorkedReadings` | `cmd/breezyd/energy_tracker.go:294-335` | two polls worked out: 335 W and 18 W, 475.7 W and 36.2 W |
| `Energy.TickGain` | `cmd/breezyd/energy_tracker.go:235-352` | one tick in plain numbers: both powers for the seconds since the last tick of the date, at most 300, over 3.6 million; every counter of every kind after it, rollovers included |
| `Energy.TickWithoutPower` | `cmd/breezyd/energy_tracker.go:235-321` | a tick that counts nothing only rolls over, and shows zero powers when it gets as far as the values |
| `EnergyTracking.EnergyTracker.Load` | `cmd/breezyd/energy_tracker.go:98-159` | every counter after a load, with the clock read twice: lifetime always, day and month exactly when their dates match; without a file nothing but the date |
| `EnergyTracking.EnergyTracker.Tick` | `cmd/breezyd/energy_tracker.go:226-357` | rollovers, priming, gates, accumulation and which of the three saves happen |
| `EnergyTracking.EnergyTracker.Count` | `cmd/breezyd/energy_tracker.go:278-356` | the gates in their order and what the values are worth |
| `EnergyRuns.StepIsTick` | `cmd/breezyd/energy_tracker.go:226-357` | the steps of the runs are the tracker's tick |
| `EnergyRuns.HorizonsNest` | `cmd/breezyd/energy_tracker.go:54-67` | for each kind 0 <= today <= month <= lifetime after every run of ticks, lost saves and restarts, if each load reads the clock twice within one month |
| `EnergyRuns.HorizonsNestIff` | `cmd/breezyd/energy_tracker.go:98-159` | over any run and any clock the horizons stay nested exactly when no load restores a day without its month |
| `EnergyRuns.LoadKeepsNestingIff` | `cmd/breezyd/energy_tracker.go:126-154` | a load keeps the horizons nested exactly when it does not restore a day without its month |
| `EnergyRuns.LoadAcrossMonthEnd` | `cmd/breezyd/energy_tracker.go:99-141` | clock readings on either side of a month's end break the nesting |
| `EnergyRuns.LifetimeIsSumOfDays` | `cmd/breezyd/energy_tracker.go:235-247` | lifetime is what the closed days ended with plus today, for every kind and run |
| `EnergyRuns.ConsumedTodayBounded` | `cmd/breezyd/energy_tracker.go:206-209` | on a non-decreasing clock, today's consumption is at most twice the top draw times the time since the day's first tick, restarts included |
| `EnergyRuns.TickClaimIsCapped` | `cmd/breezyd/energy_tracker.go:206-276` | one tick claims at most five minutes at top draw, and nothing when it starts a day or follows a load |
| `EnergyRuns.NetIsSignedSum` | `cmd/breezyd/energy_tracker.go:337-352` | heating minus cooling gains the signed sum of power times capped time between ticks of one date, over any clock |
| `EnergyRestart.NetSurvivesRestarts` | `cmd/breezyd/energy_tracker.go:91-97` | with saves and loads succeeding and dates moving forward, heating minus cooling is that signed sum over all ticks, however often the daemon restarted |
| `EnergyRestart.TickSaves` | `cmd/breezyd/energy_tracker.go:238-260` | after a fully saved tick the file is the tracker, unless there was nothing to save |
| `EnergyRestart.RestartLosesNothing` | `cmd/breezyd/energy_tracker.go:91-97` | with saves and loads succeeding and dates moving forward, loading gives what the running tracker would hold after rolling over to that moment |
| `PushQueue.PushKeepsNewest` | `cmd/breezyd/push_hub.go:113-126` | however the consumer drains meanwhile, the event just published ends up last in the queue |
| `PushQueue.DiscardsOnlyWhenFull` | `cmd/breezyd/push_hub.go:114-125` | exactly when a push discards an event, and never more than one |
| `PushQueue.SubscriberIsSound` | `cmd/breezyd/push_hub.go:14-17` | under every interleaving the queue is a contiguous suffix, at most 16 long, of what was published since joining; events arrive in order, once; received, discarded and waiting add up |
| `PushHubs.Subscriber.TrySend` | `cmd/breezyd/push_hub.go:114-116` | only an open channel is sent to; a full one refuses |
| `PushHubs.PushHub.Subscribe` | `cmd/breezyd/push_hub.go:80-86` | a new open subscriber joins with nothing published |
| `PushHubs.PushHub.Unsubscribe` | `cmd/breezyd/push_hub.go:90-99` | removes and closes once; a second call changes nothing |
| `PushHubs.PushHub.Notify` | `cmd/breezyd/push_hub.go:105-127` | every registered subscriber gets the event, none of them closed; a failed rendering changes nothing |

## Left out

- Sockets, deadlines, name resolution, discovery broadcast: a lost request or reply is all that remains of them.
- Late replies: the protocol cannot tell them from the expected one, so the link model excludes them.
- HTTP routing, JSON, SSE, templates, HomeKit, Prometheus gauges, status building and command-line rendering: they copy fields.
- File contents and file modes: the state file is a value that is stored, lost, missing or unreadable. A hand-edited file that passes validation but enables an empty schedule is not among the starts of `ReachableIsSound`.
- Calendar and time-zone arithmetic: dates and minutes come with the instant.
- Floating-point rounding: energy is computed over the reals.
- Goroutine scheduling, tickers, `alignToNextMinute` and the timing of RTC syncs: any sequence of steps stands for them.
- A crash between a device write and the record of its outcome: restarts happen between operations.
- A handler for a device without a poller: it takes no mutex (`lockDevice` in `server.go`), which happens only in tests; `UnlockedWriterIsOverwritten` shows what that costs.
- `HH:MM` parsing and formatting, error texts, `classifyErr`, `State.Devices`, `EnergyTracker.Snapshot` and `Scheduler.Snapshot`: easy members.
- The remaining operations of `ops.go` (heater, thresholds, timer durations, preset speeds, resets, RTC): the same shape as those modelled.
- `WriteParamsUnsafe` and `ReadParam`: variants of the modelled calls.
- Ops.ApplyAction: over the in-process device, where a failed packet has no effect; `WireActions.ActionOverWire` is the same operation over the wire.
- Scheduler.Scheduler.Fire: as for `ApplyAction`, the class drives the in-process device; over the wire the packet that failed may have landed too, and `WireSchedule` has the runs.
- WireSchedule.SuccessfulFireIsClean: only the schedule writes to the device during the run; what handlers write in between is not part of it.
- CatchUp.OffSkipsEarlierSpeed: one concrete schedule; the general statement is `SkippingIsExactIff`.
- Poller.Poller.Tick: reads the in-process device; lost reads over the wire appear as the batch errors of `CacheRuns`.
- Poller.RecordingClient.WriteParams: device and cache move together for the in-process device; a write that lands unacknowledged is a step of `CacheRuns`.
- ScheduleLimits.ReplaceAllowsSecondFire: one concrete schedule; the general statement is `ScheduleSafety.ReplaceIsSafeIff`.
- ScheduleLimits.LostSaveAllowsSecondFire: one concrete schedule; the general statements are `RestartIsSafeIff` and `LostSaveIsSafeIff`.
- ScheduleLimits.ReplaceDuringFireLeavesRetry: one gap of a tick; the general statement is `TickStrandsIff`.
- CacheRuns.FailedPollKeepsCache: says the cache is not emptied; what may be missing is `FailedPollForgetsIff`.
- EnergyRuns.HorizonsNest: requires each load's two clock readings to share a month; `HorizonsNestIff` has no such condition.
- CacheRuns.CacheAgreesWhenFree: parameters that an unacknowledged write may have changed are excepted until they are read or written again, because over a lossy link the code cannot know (`UnackedWriteLeavesStale`, `ExceptionIffLanded`).
- Poller.Poller.IdsForThisTick: nothing is claimed about fan readings that start just before a write, because the identifiers are chosen before the mutex is taken.
- WireStack.StackRefinesMap: writes are of 1 to 255 bytes and frames fit the 2048-byte buffers; for empty values `EmptyWritesAgreeIff` says when the result still holds.
