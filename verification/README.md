# Proofs about the Automate component

A Dafny model of the `autopid` component of the firmware (and of the secret
redaction of its HTTP API), with proofs of what its units promise.

* **Chip discipline.** The OBD chip is a protocol and one register per setting,
  moved by the `;`-separated AT chains of the user's tables (`ChainText`, `Chip`).
  `BusGuard` decides which protocols a bus allows. `Discipline` states each guard
  call, baseline and row as a transition of one state; `PollPass` is the imperative
  poller, each of whose methods is proved to be that transition. `GuardLicence`,
  `DisciplineSafety`, `DisciplineRuns`, `DisciplineBaseline` and `BaselineRuns` prove
  what holds over whole runs; `UnsoundTexts` and `UnseenSettings` prove that it holds
  for no other texts, each time with a run from boot.
* **DBC compiler.** A signal's bits, the reference decoder and the segments
  (`DbcSignal`, `DbcSegments`), the text the compiler prints (`DbcCompiler`), the
  evaluator's two-stack machine (`ExpressionParser`), and the exact condition under
  which compiling, printing and evaluating is decoding (`DbcFaithful`).
* **Replies.** ISO-TP frames with headers and rows without (`IsoTp`, `Reply`).
* **Trouble-code database.** From the bytes of a file through the scanners
  (`JsonScan`, `DtcFile`; `DtcWritten` for files written for them), the importer
  (`DtcText`, `DtcImport`), the stored text and its index (`DtcDb`, `DtcStore`) to the
  lookup over all databases (`DtcLookup`), and all of it over uploads, deletions and
  restarts (`DtcUpload`).
* **Scheduler.** The table of slots and its search (`Scheduler`), fairness and pacing
  over runs (`SchedulerRuns`).
* **Redaction.** The two functions on trees (`Redact`) and in place (`RedactTree`).
* **Monitor stream, report, small codecs.** `MonitorStream`, `DtcReport`,
  `ResponderTable`, `PgnCommand`.

`Wrappers`, `Seqs`, `Bits` and `Numerals` hold what the others share. Verify with
`dafny verify dfyconfig.toml`.

## Assumptions

* A register of the chip holds the last command that set it. After a reset the chip is
  at its power-on registers, on the protocol stored in it. For the runs of
  `BaselineRuns` those registers are the baseline's wherever the prelude does not write
  them. What the listener reports and when the chip is reset by others are inputs.
* A request is one command for the chip, whatever it holds; a command that starts like
  one of the rule table's sets that register to what follows. A vendor's protocol
  switch (`STP`, `VTP`) leaves the chip on a protocol of which the guard knows nothing.
* A guard call, a car activation and the poll of one row are one step each.
* A file written to the disk is read back as it was written.
* The library sort is some arrangement in the comparison's order; the results hold for
  every such arrangement.
* Double arithmetic is arithmetic on reals. `DbcFaithful.RawIsExact` says where no
  rounding can occur. Undefined C behaviour (a shift by a negative amount, a cast out
  of range) counts as failure.
* A settings tree shares no nodes, and the stored tree is not the client's.

## Where the code falls short of its comments

* The guard is asked about the protocols a chain sets, not about what the chain
  transmits before it sets one. A chain that asks something first is transmitted on the
  protocol an earlier row left, even when the bus no longer allows it
  (`UnsoundTexts.StaleAskIsReached`, `UnsoundTexts.StaleChain`).
* A request may hold a `;`: it is sanitized and judged as a chain but sent as one
  command. The guard then reads a protocol in it that the chip never sets, and the
  request (`01;ATSP6`), or a later one, goes out on a protocol the bus does not allow
  (`UnsoundTexts.DisguisedRequest`, `UnsoundTexts.DisguisedRequestBreaks`).
* The guard and the chain reader do not know the vendor's protocol switches, which the
  request engine does: behind an init `STP33` requests go out on a protocol nothing was
  asked about (`UnsoundTexts.VendorText`).
* These are the only texts that break the claim about requests
  (`UnsoundTexts.RequestMustBeSound`, `UnsoundTexts.ChainMustBeSound`).
* A prelude sent again (after a switch of the car, or a refused standing protocol)
  clears the memory of what was moved without undoing it, and the next type meets it
  (`UnseenSettings.SwitchForgets`, `UnseenSettings.RefusalForgets`,
  `UnseenSettings.AddressIsForgotten`).
* A request with a `;` can set something as one command that the chain reader does not
  count in it (`UnseenSettings.RequestMustBeCounted`).
* Sign and offset of a single part of a byte are appended without parentheses and
  misread; negative factors are refused by the evaluator; signed 64-bit signals differ
  from the reference (`DbcFaithful.FaithfulIsExact`).
* A gap of sixteen rows, or any multiple, is not noticed when the row behind it is the
  first out of place, and moves bytes (`Reply.PrefixExactly`).

## Model

| member | source | states |
|---|---|---|
| `ChainText.ReadSets` | components/autopid/autopid_chain.c:144-193 | The character loop with its 31-character buffer finds exactly the settings that the elements between the separators set, each read blank-free and in upper case; an overlong element sets nothing. |
| `ChainText.StripPrint` | components/autopid/autopid_chain.c:271-337 | In place, with write pointer and separators moved: the text left is split, print commands dropped, joined; and the number dropped is counted. |
| `ChainText.StripIsClean` | components/autopid/autopid_chain.c:246-337 | Stripping twice is stripping once; what is left sets nothing new and never turns the echo on. |
| `ChainText.ElementBody` | components/autopid/autopid_chain.c:246-269 | One element without blanks in upper case, or nothing when the buffer is too small. |
| `ChainText.SplitJoin` | components/autopid/autopid_chain.c:195-242 | Elements joined with separators are found again one by one. |
| `RestoreChain.Build` | components/autopid/autopid_chain.c:195-242 | The bounded buffer ends up with the prelude and the undo command of every moved setting, in table order, cut where the buffer ends; the count is of what was written. |
| `RestoreChain.RestoreAlwaysFits` | components/autopid/autopid_private.h:555 | Whatever was moved and whatever protocol is in effect, the 128-byte restore buffer holds the whole chain. |
| `BusGuard.ReadCmdProto` | components/autopid/autopid_bus_guard.c:123-168 | The seven-byte reader returns the protocol of an ATSP or ATTP command in any of its forms, and nothing for any other text. |
| `BusGuard.ReadCmdResets` | components/autopid/autopid_bus_guard.c:170-202 | Exactly ATZ, ATD and ATWS, blanks and case aside, are resets. |
| `BusGuard.ChainAllowed` | components/autopid/autopid_bus_guard.c:204-257 | The loop over a chain reads what the fold over its elements says: allowed or not, the protocol it leaves behind, the first one refused. |
| `BusGuard.ReadingMeans` | components/autopid/autopid_bus_guard.c:204-257 | A chain is let through if and only if every protocol it sets is allowed; the refused one is in it and not allowed; the one left behind is allowed. |
| `BusGuard.SearchIsRefusal` | components/autopid/autopid_bus_guard.c:75-106 | A pinned protocol is allowed exactly when an unpinned one is; a search verdict means a live bus at another rate, on which the search itself is allowed. |
| `Chip.BodyIsCounted` | components/autopid/autopid_chain.c:71-142 | Every command that puts a setting anywhere but on the CAN baseline is counted under that setting by the rule table. |
| `Chip.MovesAreCounted` | components/autopid/autopid_chain.c:71-193 | A command after which a register is off its base, when it was on it before, is one whose bit the chain reader reports. |
| `Chip.ProtoIsCounted` | components/autopid/autopid_chain.c:87-89 | A command that changes the protocol is counted if and only if it is none of the vendor's switches; one of those leaves the chip on a protocol that no reader of the chains knows. |
| `PollPass.Poller.constructor` | components/autopid/autopid_guard.c:74-119 | The state before the first pass: nothing known of the bus, nothing sent, nothing remembered. |
| `PollPass.Poller.SettleOwnEcho` | components/autopid/autopid_guard.c:173-185 | Looks again at most eight times, up to the first readable look. |
| `PollPass.Poller.DecideNow` | components/autopid/autopid_guard.c:189-236 | The verdict for the protocol in effect; a search verdict makes the stored protocol give way and the baseline due again. |
| `PollPass.Poller.PollOk` | components/autopid/autopid_guard.c:260-320 | The whole new guard state and answer: a final verdict stands for its protocol, otherwise the bus is looked at again and the permission follows the protocol in effect after the verdict. |
| `PollPass.Poller.RuledForNow` | components/autopid/autopid_guard.c:250-258 | The verdict and the permission are those of the protocol in effect now. |
| `PollPass.Poller.Stand` | components/autopid/autopid_guard.c:298-316 | A verdict on a live bus becomes final; the parked flag and the transmitted flag follow the answer. |
| `PollPass.Poller.Proven` | components/autopid/autopid_guard.c:322-345 | An answer makes the permitted protocol, not the one in effect now, the proven one. |
| `PollPass.Poller.JobOk` | components/autopid/autopid_guard.c:357-395 | A job takes a permission of its own and leaves the standing verdict alone. |
| `PollPass.Poller.CandidateOk` | components/autopid/autopid_guard.c:468-504 | A probe may look and be refused without touching the permission; granted, the permission is the candidate. |
| `PollPass.Poller.Rearm` | components/autopid/autopid_guard.c:506-515 | No verdict and no permission is left. |
| `PollPass.Poller.SendOwn` | components/autopid/autopid_baseline.c:168-204 | A chain of the firmware goes out element by element, in order, nothing else changed. |
| `PollPass.Poller.SendElement` | components/autopid/autopid_baseline.c:143-166 | A print command is not sent; behind a reset comes the prelude, or the chain is cut. |
| `PollPass.Poller.SendChain` | components/autopid/autopid_baseline.c:168-199 | The loop over a chain of the tables stops where a reset met no permission and nowhere else. |
| `PollPass.Poller.AfterReset` | components/autopid/autopid_baseline.c:113-127 | The prelude of the protocol in effect behind a reset, when the permission covers it; otherwise the baseline is due and the chain cut. |
| `PollPass.Poller.SendInit` | components/autopid/autopid_baseline.c:206-210 | The chain is sent, and everything it sets is remembered as moved, on top of what a reset inside it left. |
| `PollPass.Poller.SendBaseline` | components/autopid/autopid_baseline.c:221-236 | The prelude goes out and the memory of borrowed and moved settings is cleared, only with the permission for exactly that protocol. |
| `PollPass.Poller.Ensure` | components/autopid/autopid_baseline.c:266-291 | The baseline goes out unless it was sent since the chip was last reset. |
| `PollPass.Poller.HeaderGiveBack` | components/autopid/autopid_baseline.c:303-326 | The functional header, or where there is none the whole prelude when permitted; nothing is borrowed after it. |
| `PollPass.Poller.Restore` | components/autopid/autopid_baseline.c:328-348 | The prelude and the undo commands of everything moved go out as one chain, or nothing does. |
| `PollPass.Poller.RowPinsOk` | components/autopid/autopid_runner.c:162-232 | The due chains and the request are judged, and when none sets a protocol the standing one is; refused standing protocol: baseline and inits due again. |
| `PollPass.Poller.StandingOk` | components/autopid/autopid_runner.c:208-228 | The standing protocol is judged as a chain of its own. |
| `PollPass.Poller.Reset` | components/autopid/autopid_runner.c:128-135 | Inits due again; the receive filter is forgotten without being cleared. |
| `PollPass.Poller.SetUpType` | components/autopid/autopid_runner.c:401-411 | The type init once per change of type. |
| `PollPass.Poller.SetUpFilter` | components/autopid/autopid_runner.c:427-441 | The row's own receive filter, or an earlier row's cleared. |
| `PollPass.Poller.SetUpRow` | components/autopid/autopid_runner.c:413-444 | The row's init, the borrowed header noted, and its filter, once per change of row. |
| `PollPass.Poller.Prepare` | components/autopid/autopid_runner.c:369-388 | The baseline back before another type when the tables moved the chip, else the header before a row that does not set one. |
| `PollPass.Poller.Ask` | components/autopid/autopid_runner.c:455-466 | The request out, its settings remembered, the baseline due again when it is a reset. |
| `PollPass.Poller.Perform` | components/autopid/autopid_runner.c:401-466 | Set up and requested, unless a chain was cut: then nothing is requested and the inits are due again. |
| `PollPass.Poller.Run` | components/autopid/autopid_runner.c:357-466 | One poll of one row, up to its request, is the transition the safety lemmas speak of. |
| `DisciplineSafety.ChainEffect` | components/autopid/autopid_baseline.c:143-210 | In a permitted pass any chain of the tables goes out whole; all it transmits is on cleared protocols if and only if nothing of it is exposed, that is, transmitted while the chip stands on a protocol the guard refuses or does not know. |
| `DisciplineSafety.ExposedIsEarly` | components/autopid/autopid_bus_guard.c:204-257 | A chain that the guard lets through, without a vendor's switch, is exposed exactly when it transmits before it sets a protocol, on one that is not cleared. |
| `DisciplineSafety.LastMeansEnd` | components/autopid/autopid_bus_guard.c:204-257 | Where the guard reads a protocol left behind, the chip ends on it; where it reads none, the chip is where it was or on the protocol in effect; unless the chain ends on a vendor's switch: then the chip is on the vendor's. |
| `DisciplineSafety.RestoreEffect` | components/autopid/autopid_baseline.c:328-348 | The restore leaves the chip on the protocol in effect, transmits nothing and clears the memory; refused, it changes nothing. |
| `DisciplineSafety.ProtocolAtRequest` | components/autopid/autopid_runner.c:162-232 | When the request of a permitted row with sound chains goes out and the guard reads it as the chip does, the chip stands on the protocol in effect or on the one the runner notes, which is allowed. |
| `DisciplineSafety.PerformEffect` | components/autopid/autopid_runner.c:401-466 | Any permitted row's request goes out, as one command, on the protocol its due chains end on; the protocol behind it is known exactly; all the row transmits is on cleared protocols if and only if nothing of it is exposed. |
| `DisciplineRuns.PollGrants` | components/autopid/autopid_guard.c:260-320 | An answer that lets the poller talk always covers the protocol in effect after it and an allowed one. |
| `DisciplineRuns.RowIsExact` | components/autopid/autopid_runner.c:357-466 | Any row in a permitted pass: its request is safe if and only if it sets a protocol or resets the chip itself, or is no vendor's switch and goes out on a cleared protocol; everything the row transmits is safe if and only if nothing is exposed. |
| `DisciplineRuns.EveryRowIsExact` | components/autopid/autopid_runner.c:357-466 | From boot, over every run of passes, answers, car switches, surrendered protocols and foreign resets, whatever the tables hold: a pass that may talk has the permission for the protocol in effect, and its row is exact in that sense. |
| `DisciplineRuns.SoundRowIsSafe` | components/autopid/autopid_runner.c:357-466 | A row of sound texts: its request is safe, and the runner still knows where the chip is. |
| `DisciplineRuns.EveryRequestIsAllowed` | components/autopid/autopid_runner.c:357-466 | From boot, over every such run whose texts are sound: every request goes out on an allowed protocol and, unless it resets the chip, leaves it on one, whether the baseline or a table set it. |
| `DisciplineRuns.OnlyEarlyIsExposed` | components/autopid/autopid_runner.c:162-232 | What else a sound row transmits is exposed if and only if a due chain transmits before it sets a protocol, and an earlier chain left one that the guard allows no longer. |
| `UnsoundTexts.StaleAskIsReached` | components/autopid/autopid_runner.c:357-466 | A run from boot that reaches it, for every chain that asks before it sets: a silent bus that wakes up at another rate. |
| `UnsoundTexts.StaleChain` | components/autopid/autopid_runner.c:162-232 | The same for the init `01;ATSP6` on protocol 8. |
| `UnsoundTexts.RequestMustBeSound` | components/autopid/autopid_config.c:349-390 | A request is harmless in every table and every run from boot if and only if it is sound: no vendor's switch, and read by the guard, as a chain, as the chip reads it, as one command. |
| `UnsoundTexts.ChainMustBeSound` | components/autopid/autopid_config.c:349-390 | An init is harmless in that sense if and only if it does not end on a vendor's switch. |
| `UnsoundTexts.DisguisedRequestBreaks` | components/autopid/autopid_runner.c:162-232 | For every request that the guard reads to set another protocol than the chip does, a run from boot in which a later plain request goes out on a protocol the bus does not allow. |
| `UnsoundTexts.DisguisedRequestExposed` | components/autopid/autopid_runner.c:162-232 | And one in which the request itself does, when it is transmitted. |
| `UnsoundTexts.DisguisedRequest` | components/autopid/autopid_runner.c:162-232 | The request `01;ATSP6` on a bus of 500 kbit/s goes out on protocol 8. |
| `UnsoundTexts.UnsoundInitBreaks` | components/obd_chip/obd_chip_parse.c:273-345 | Behind an init that ends on a vendor's switch a plain request goes out on a protocol the guard knows nothing of. |
| `UnsoundTexts.UnsoundTypeInitBreaks` | components/obd_chip/obd_chip_parse.c:273-345 | So it does as the init of a type. |
| `UnsoundTexts.VendorText` | components/obd_chip/obd_chip_parse.c:273-345 | The init `STP33` is one. |
| `GuardLicence.PermissionWasGranted` | components/autopid/autopid_guard.c:250-258 | Over every run of guard calls, switches and preludes, a standing permission was granted by a call for that very protocol after the last switch. |
| `GuardLicence.PreludeWasLicensed` | components/autopid/autopid_baseline.c:212-236 | Every prelude sent for a judged protocol, as baseline or restore, was preceded by a granting call for the same protocol with no switch between. |
| `GuardLicence.NothingPinnedAfterSwitch` | components/autopid/autopid_guard.c:506-515 | After a switch no judged protocol is pinned until a call grants it. |
| `DisciplineBaseline.RestoreIsComplete` | components/autopid/autopid_chain.c:103-242 | On CAN the restore chain puts every register back, whatever was moved, as long as what is off the base is remembered. |
| `BaselineRuns.ChainCovers` | components/autopid/autopid_baseline.c:113-210 | Through any chain of the tables, resets included, everything off the baseline stays remembered or set by the chain. |
| `BaselineRuns.RowCovers` | components/autopid/autopid_runner.c:357-466 | One row whose request is counted alike keeps that memory complete; and asked as the first of its type, every register off the baseline was written by its own due chains or is its own filter. |
| `BaselineRuns.EveryTypeStartsClean` | components/autopid/autopid_runner.c:357-466 | From boot, with a CAN protocol in effect on an unchanged bus, over every run of passes with requests counted alike and of foreign resets: everything off the baseline is remembered, and the first row of a type is asked with no register off it but those its own chains wrote and its own filter; the protocol too, unless it is a vendor's. |
| `UnseenSettings.RequestMustBeCounted` | components/autopid/autopid_chain.c:144-193 | In such runs a request loses no setting, whatever else is in the tables, if and only if what it sets as one command is counted in it as a chain. |
| `UnseenSettings.UncountedIsLost` | components/autopid/autopid_runner.c:455-466 | One pass from boot with a request that is not leaves a register off the baseline that nothing remembers. |
| `BaselineRuns.PreludeAloneForgets` | components/autopid/autopid_baseline.c:95-101 | A baseline sent again forgets what was moved; it puts the chip back if and only if nothing the prelude does not write was off. |
| `UnseenSettings.SentAgain` | components/autopid/autopid_runner.c:357-466 | Behind a baseline sent again a row of another type is asked with nothing remembered as moved; it meets no foreign setting if and only if no register was off but those the prelude writes. |
| `UnseenSettings.SwitchForgets` | components/autopid/autopid_baseline.c:95-101 | A run from boot over a switch of the car, for every init that sets a register the prelude does not write: the first row of another type is asked with that register off its base. |
| `UnseenSettings.RefusalForgets` | components/autopid/autopid_runner.c:208-228 | The same over a standing protocol that the guard refuses. |
| `UnseenSettings.AddressIsForgotten` | components/autopid/autopid_baseline.c:95-101 | Both for the init `ATCEA60`. |
| `BaselineRuns.NoHeaderOffCan` | components/autopid/autopid_baseline.c:303-326 | Off CAN the header and the filter stay as an earlier row left them and nothing remembers it. |
| `DbcSignal.ShiftIntel` | components/autopid/autopid_dbc_codec.c:786-794 | The shifting loop assembles the value whose bit i is payload bit start + i. |
| `DbcSignal.ShiftMotorola` | components/autopid/autopid_dbc_codec.c:795-806 | The shifting loop reads the bits downwards from the start bit, through the bytes upwards. |
| `DbcSignal.DecodeRef` | components/autopid/autopid_dbc_codec.c:782-820 | The reference decoder: two's complement below 64 bits, unsigned at 64, scaled. |
| `DbcSegments.SegmentsIntel` | components/autopid/autopid_dbc_codec.c:440-455 | One segment per payload byte, each the stretch of the signal in that byte with its position. |
| `DbcSegments.SegmentsMotorola` | components/autopid/autopid_dbc_codec.c:456-473 | The same, high byte first. |
| `DbcSegments.NineSuffice` | components/autopid/autopid_dbc_codec.c:574-575 | No signal of up to 64 bits has more than nine segments. |
| `DbcSegments.Segments` | components/autopid/autopid_dbc_codec.c:436-476 | The array of nine takes the whole list. |
| `DbcSegments.SumIsRaw` | components/autopid/autopid_dbc_codec.c:436-504 | The weighted sum of the segments' extracted bits is the reference's raw value, for every start, length, byte order and payload. |
| `ExpressionParser.EvalComputes` | components/expression_parser/expression_parser.c:358-512 | The two-stack evaluator computes every tree of up to 64 levels that is printed with the parentheses its precedences ask for. |
| `ExpressionParser.NoUnaryAfterOperator` | components/expression_parser/expression_parser.c:358-494 | A minus behind another operator is refused, whatever stands around it. |
| `DbcCompiler.SegText` | components/autopid/autopid_dbc_codec.c:479-504 | The text of a segment is the print of its extraction tree. |
| `DbcCompiler.SumText` | components/autopid/autopid_dbc_codec.c:583-611 | Terms weighted, parenthesised only in a sum. |
| `DbcCompiler.SignText` | components/autopid/autopid_dbc_codec.c:615-650 | The sign bit, picked from its byte, times two to the length. |
| `DbcCompiler.SpanText` | components/autopid/autopid_dbc_codec.c:551-571 | A byte-aligned Motorola signal is one span operand. |
| `DbcCompiler.ScaleText` | components/autopid/autopid_dbc_codec.c:653-705 | Factor and offset are written only when they do something, with the parentheses the operators found ask for. |
| `DbcCompiler.Compile` | components/autopid/autopid_dbc_codec.c:525-715 | The whole text, or the refusal of extended multiplexing and of floats. |
| `DbcCompiler.MuxCondition` | components/autopid/autopid_dbc_codec.c:717-779 | The gate of a multiplexed signal is the first switch of its message, raw, against its number; and the refusals. |
| `DbcFaithful.SpanIsRaw` | components/autopid/autopid_dbc_codec.c:551-571 | A byte-aligned span read big-endian is the raw value of the signal. |
| `DbcFaithful.ComposedIsDecoded` | components/autopid/autopid_dbc_codec.c:583-650 | Taking the sign bit off at two to the length gives the reference's value, except for a negative 64-bit signal. |
| `DbcFaithful.FaithfulDecodes` | components/autopid/autopid_dbc_codec.c:525-820 | Compiled, printed and evaluated, every faithful signal gives the reference decoder's physical value on every payload. |
| `DbcFaithful.UnfaithfulFails` | components/autopid/autopid_dbc_codec.c:607-704 | Every other signal has a payload on which the text fails or says something else. |
| `DbcFaithful.FaithfulIsExact` | components/autopid/autopid_dbc_codec.c:525-820 | So the condition is exact: no negative factor, not 64 bits signed, and a single part of a byte neither signed nor offset without a factor; with a factor of zero only an impossible shift is out. |
| `DbcFaithful.OffsetLost` | components/autopid/autopid_dbc_codec.c:681-705 | An offset behind a bare part of a byte is swallowed by its shift or mask. |
| `DbcFaithful.SignLost` | components/autopid/autopid_dbc_codec.c:638-647 | So is its sign. |
| `DbcFaithful.Wide64Lost` | components/autopid/autopid_dbc_codec.c:810-817 | A signed 64-bit signal is read signed by the text and unsigned by the reference. |
| `DbcFaithful.NegativeFactorLost` | components/autopid/autopid_dbc_codec.c:656-671 | A negative factor is always refused by the evaluator. |
| `DbcFaithful.ShiftedAwayFails` | components/autopid/autopid_dbc_codec.c:638-647 | With a factor of zero the text still fails when the swallowed sign makes the shift negative. |
| `DbcFaithful.SwitchIsRaw` | components/autopid/autopid_dbc_codec.c:758-770 | The gate's expression always evaluates to the raw value of the switch. |
| `DbcFaithful.RawIsExact` | components/autopid/autopid_dbc_codec.c:583-650 | Every partial result of the unscaled value is an integer no larger than two to the length (a byte at least), and shifts and masks touch one byte: up to 53 bits doubles make no error. |
| `IsoTp.ReadPci` | components/autopid/autopid_resp.c:190-232 | What a frame carries by its first nibble, and the length a first frame announces. |
| `IsoTp.AssembleHeaderFrames` | components/autopid/autopid_resp.c:174-240 | The buffer holds the data of that responder's frames in order, as much as fits, cut to the announced length. |
| `IsoTp.FramesFromPayload` | components/autopid/autopid_resp.c:361-425 | The buffer holds the frames of the payload: single, or first and consecutive ones numbered from 1 round to 0, padded to eight bytes. |
| `IsoTp.OnlyOwnLines` | components/autopid/autopid_resp.c:174-240 | Lines of other responders make no difference to the assembly. |
| `IsoTp.AssembledFromOwn` | components/autopid/autopid_resp.c:174-240 | Two replies with the same lines of a responder give it the same payload. |
| `IsoTp.NoFrameExtended` | components/autopid/autopid_resp_lines.c:271-280 | No frame of a rebuilt payload is taken for an extended-address one. |
| `IsoTp.FramesRoundTrip` | components/autopid/autopid_resp.c:174-425 | Every payload of 1 to 4095 bytes cut into frames and reassembled is the payload, padding removed. |
| `Reply.AssembleRows` | components/autopid/autopid_resp.c:250-285 | Rows are taken while their index is the expected one, modulo sixteen. |
| `Reply.AssembleHeaderless` | components/autopid/autopid_resp.c:244-299 | Indexed rows up to a gap and cut to the length line, or plain lines one after another. |
| `Reply.LostRowsGivePrefix` | components/autopid/autopid_resp.c:244-299 | As long as the first row out of place is printed with another index than the one due, the result is a prefix of the payload: bytes never move. |
| `Reply.AllRowsRoundTrip` | components/autopid/autopid_resp.c:244-299 | All rows of a payload give it back, however often the index wraps. |
| `Reply.PrefixExactly` | components/autopid/autopid_resp.c:244-299 | Exactly then, whatever the rows hold and in whatever order they arrive, lost or repeated: the only other case is that the bytes asked for end before the gap. |
| `Reply.InsertId` | components/autopid/autopid_resp.c:551-578 | In place: the id in its sorted place, the highest dropped when the list is full. |
| `Reply.CollectIds` | components/autopid/autopid_resp.c:540-579 | The ids of all lines inserted one by one. |
| `Reply.LowestIdsKeepsLowest` | components/autopid/autopid_resp.c:540-579 | What is kept are the lowest distinct ids up to the cap, ascending. |
| `Reply.LowestUnique` | components/autopid/autopid_resp.c:540-579 | Only one list is that. |
| `Reply.ToPayload` | components/autopid/autopid_resp.c:301-358 | The lowest responder's payload, or the headers-off one, and the error cases. |
| `Reply.ToPayloads` | components/autopid/autopid_resp.c:498-599 | One payload per kept responder, empty ones left out, and the error cases. |
| `Reply.InterleavingInvisible` | components/autopid/autopid_resp.c:498-599 | Any interleaving of the responders' lines gives the same payloads. |
| `Reply.PayloadsAreTheLowest` | components/autopid/autopid_resp.c:498-599 | The payloads are those of exactly the lowest ids up to the cap, in order, minus the empty ones, each from its own lines. |
| `Reply.FirstPayloadAgrees` | components/autopid/autopid_resp.c:301-599 | The first of them is the one payload the single form returns. |
| `DtcText.ReadCode` | components/autopid/autopid_dtc_codec.c:56-102 | The two bytes of a code's text, or none. |
| `DtcText.UnformatFormat` | components/autopid/autopid_dtc_codec.c:43-102 | Every pair of bytes is read back from its five characters. |
| `DtcText.FormatUnformat` | components/autopid/autopid_dtc_codec.c:43-102 | Every text that is a code prints as itself in upper case. |
| `DtcText.Clean` | components/autopid/autopid_dtc_db_codec.c:102-123 | A kept description has at most 95 characters and no line end. |
| `DtcText.CodeIsCanonical` | components/autopid/autopid_dtc_db_codec.c:66-87 | A normalised code is read as itself and holds neither line end nor tab. |
| `DtcImport.Importer.Emit` | components/autopid/autopid_dtc_db_codec.c:62-142 | A valid pair in room is appended, normalised, behind all earlier ones, which stay as they are; any other is counted as rejected. |
| `DtcImport.Importer.Finish` | components/autopid/autopid_dtc_db_codec.c:710-727 | In place: sorted, and the last of each run of a code kept. |
| `DtcImport.DedupStrict` | components/autopid/autopid_dtc_db_codec.c:625-727 | After it the codes are strictly ascending. |
| `DtcImport.DedupKeepsLatest` | components/autopid/autopid_dtc_db_codec.c:635-637 | The latest entry of every code survives. |
| `DtcImport.SortSorted` | components/autopid/autopid_dtc_db_codec.c:625-638 | Entries numbered as they came can be put in the comparison's order. |
| `DtcDb.Serialize` | components/autopid/autopid_dtc_db_codec.c:730-754 | The buffer holds the header and one line per row, or nothing if and only if it is too small for them; a header alone is cut and counted whole. |
| `DtcDb.Index` | components/autopid/autopid_dtc_db_codec.c:756-802 | The scanning loop finds the well-formed lines, and fails when their number is not the declared one. |
| `DtcDb.TextIsIndexed` | components/autopid/autopid_dtc_db_codec.c:730-802 | A written text is indexed as it was: every row, in order, nothing lost or split. |
| `DtcDb.Bsearch` | components/autopid/autopid_dtc_db.c:394-420 | What it finds has the code; in a strictly sorted index it finds a code that is there. |
| `DtcDb.StoredAnswersAsNaive` | components/autopid/autopid_dtc_db_codec.c:625-802 | For any arrangement in the comparison's order: deduplicated, written, indexed and searched, each code is answered as the map of last occurrences does, codes strictly sorted. |
| `DtcStore.NothingLost` | components/autopid/autopid_dtc_db.c:276-281 | With the room the caller gives, no valid entry is lost. |
| `DtcStore.ImportAll` | components/autopid/autopid_dtc_db_codec.c:640-708 | All entries of a file, normalised in order, as far as the two caps go. |
| `DtcStore.TextFits` | components/autopid/autopid_dtc_db.c:276-284 | The output buffer the caller sizes always holds the text. |
| `DtcStore.Store` | components/autopid/autopid_dtc_db.c:239-340 | The text is written unless nothing was valid, indexed it answers as the map of the kept rows, and it is no longer than a stored file may be. |
| `DtcStore.EveryEntryCounts` | components/autopid/autopid_dtc_db.c:276-281 | With the descriptions part of the file and no more entries than the limit, that map is the naive one of all entries. |
| `DtcLookup.Databases.Load` | components/autopid/autopid_dtc_db.c:118-204 | Of any text: the table as a map is updated at that name, the first free slot taken for a new one; too long, full or corrupt, it is unchanged. |
| `DtcLookup.Databases.Delete` | components/autopid/autopid_dtc_db.c:342-364 | The name, and only it, leaves the map. |
| `DtcLookup.Databases.NextByName` | components/autopid/autopid_dtc_db.c:369-392 | The used slot with the least name behind the given one. |
| `DtcLookup.Databases.Lookup` | components/autopid/autopid_dtc_db.c:422-450 | The answer is that of the first database in the order of names that has the code, and none when no database has it; one whose codes are not in order may be passed over, but what is answered is in it. |
| `JsonScan.JsonString` | components/autopid/autopid_dtc_db_codec.c:160-241 | The string loop stops at the closing quote or the end, unescaping and cutting as the buffer asks. |
| `JsonScan.Str` | components/autopid/autopid_dtc_db_codec.c:160-241 | A string read is at least its two quotes and lies within the input; its text is shorter than what was consumed and than the buffer. |
| `JsonScan.JsonSkip` | components/autopid/autopid_dtc_db_codec.c:245-299 | The skipping loop ends on every input, nested to any depth or malformed. |
| `JsonScan.SkipFrom` | components/autopid/autopid_dtc_db_codec.c:251-296 | While a value is open every round consumes something; the position never passes the end; nothing is consumed only at a comma. |
| `DtcFile.ReadPair` | components/autopid/autopid_dtc_db_codec.c:330-372 | A key, its value skipped or read, and the comma behind it. |
| `DtcFile.PairAt` | components/autopid/autopid_dtc_db_codec.c:330-372 | A pair read always moves on, within the input, and its text is shorter than what was consumed. |
| `DtcFile.ParseMap` | components/autopid/autopid_dtc_db_codec.c:315-376 | The map loop ends on every input and yields the string-valued pairs in order, or nothing when malformed. |
| `DtcFile.ElementAt` | components/autopid/autopid_dtc_db_codec.c:391-488 | An array element always moves on, and yields no more text than was consumed. |
| `DtcFile.ReadObject` | components/autopid/autopid_dtc_db_codec.c:404-475 | The last value under a code or description alias of one object. |
| `DtcFile.ParseArray` | components/autopid/autopid_dtc_db_codec.c:379-492 | The array loop ends on every input and yields the objects that carry a code. |
| `DtcFile.ParseLine` | components/autopid/autopid_dtc_db_codec.c:498-621 | A line is cut at its first delimiter outside quotes, else at a space; fields trimmed and unquoted; comments and blanks skipped. |
| `DtcFile.ParseText` | components/autopid/autopid_dtc_db_codec.c:681-694 | The entries of all lines in order. |
| `DtcFile.FileEntries` | components/autopid/autopid_dtc_db_codec.c:640-700 | Whatever the file, the descriptions found together are no longer than it. |
| `DtcFile.StoreFile` | components/autopid/autopid_dtc_db.c:239-340 | Any bytes, imported and stored: written unless nothing valid was found, no longer than a stored file may be, and indexed again every code is answered as the file says. |
| `DtcFile.MeaningIsNaive` | components/autopid/autopid_dtc_db.c:276-281 | Up to the limit of entries what a file says is the naive map of all its entries. |
| `DtcUpload.Store.Upload` | components/autopid/autopid_dtc_db.c:239-340 | Taken if and only if the name and size are good, there is a slot, and the file says something; then that file stands under its name, and what is cached and on disk answers as it does. |
| `DtcUpload.Store.Delete` | components/autopid/autopid_dtc_db.c:342-364 | The file is gone, from the disk and from the cache. |
| `DtcUpload.Store.Restart` | components/autopid/autopid_dtc_db.c:206-235 | A restart, with the directory read in any order, finds a slot for every file and answers as before. |
| `DtcUpload.Store.Lookup` | components/autopid/autopid_dtc_db.c:422-450 | Over every sequence of these a lookup answers with what the first file by name that has the code says of it, and with nothing when no file has it. |
| `DtcUpload.AnswersFromFiles` | components/autopid/autopid_dtc_db.c:422-450 | The lookup over the databases, composed with the import of the files they came from. |
| `DtcWritten.MapRoundTrip` | components/autopid/autopid_dtc_db_codec.c:315-376 | A map of codes written as JSON, quotes and backslashes escaped, is read back entry by entry, whatever stands behind it. |
| `DtcWritten.ArrayIsRead` | components/autopid/autopid_dtc_db_codec.c:379-492 | Of a written array of objects, with any string members in any order, each object that names a code gives its last code and its last description. |
| `DtcWritten.ArrayRoundTrip` | components/autopid/autopid_dtc_db_codec.c:379-492 | Rows written as such an array are read back. |
| `DtcWritten.LinesRoundTrip` | components/autopid/autopid_dtc_db_codec.c:498-621 | Rows written as lines of two quoted fields are read back, with any of the delimiters and either line end, quotes and delimiters in the fields included. |
| `Scheduler.Sched.Reset` | components/autopid/autopid_sched.c:64-81 | First polls staggered by ten milliseconds, groups at their defaults. |
| `Scheduler.Sched.Period` | components/autopid/autopid_sched.c:106-152 | The branches compute the period: group override, else own, else inherited; quadrupled after three failures; floored by class. |
| `Scheduler.Sched.NextOf` | components/autopid/autopid_sched.c:176-204 | The loop returns the entry of the search below. |
| `Scheduler.NextIsNext` | components/autopid/autopid_sched.c:176-204 | It is enabled and in the classes, no other is due earlier or equally early and run longer ago, and it is the first such; none only when no entry qualifies. |
| `Scheduler.Sched.Done` | components/autopid/autopid_sched.c:212-231 | The whole new state of the entry that ran, all others unchanged. |
| `Scheduler.Sched.SetGroup` | components/autopid/autopid_sched.c:154-163 | A group switched, its override kept when none is given. |
| `Scheduler.Sched.RestoreGroup` | components/autopid/autopid_sched.c:165-169 | A group back at its table values. |
| `SchedulerRuns.DueEntryRuns` | components/autopid/autopid_sched.c:176-231 | Over every run with a strictly advancing clock, groups and types switched at will: a due entry that stays enabled and polled runs before any other runs twice, and within as many passes as there are entries. |
| `SchedulerRuns.AskingIsPaced` | components/autopid/autopid_sched.c:128-148 | Two runs of a row that asks the network are at least a second apart, through overrides and backoff. |
| `RedactTree.RedactNode` | components/api_http/api_http_util.c:59-85 | In place, node by node: the tree ends up redacted, nothing else changed. |
| `RedactTree.UnredactNode` | components/api_http/api_http_util.c:119-166 | In place: the tree ends up with its blank secrets filled from the stored one, which is unchanged. |
| `RedactTree.StoredRow` | components/api_http/api_http_util.c:90-117 | The stored row by name, else by place, else none. |
| `Redact.RoundTrip` | components/api_http/api_http_util.c:59-166 | Redact then restore is the identity on every tree with unique keys and unique row names. |
| `Redact.ReorderedRows` | components/api_http/api_http_util.c:87-166 | Rows reordered, deleted or repeated each get their own secrets back. |
| `Redact.ClientWins` | components/api_http/api_http_util.c:151-164 | Whatever is stored, only blank secret fields are changed. |
| `Redact.NothingShows` | components/api_http/api_http_util.c:59-85 | What is shown does not depend on the secrets. |
| `MonitorStream.FilterFrame` | components/autopid/autopid_resp_filter.c:54-177 | Tokens, id in any of its three shapes, data bytes with markers skipped. |
| `MonitorStream.FrameRoundTrip` | components/autopid/autopid_resp_filter.c:54-177 | A printed frame of up to fifteen bytes is read back under its id and under no other. |
| `MonitorStream.Collector.Feed` | components/autopid/autopid_resp_filter.c:185-223 | Byte by byte up to the first frame: the frames of what was consumed are exactly the one returned, and the buffer holds the unfinished line. |
| `MonitorStream.Collector.EndLine` | components/autopid/autopid_resp_filter.c:194-210 | A finished line is filtered unless it is empty or overlong. |
| `MonitorStream.Drain` | components/autopid/autopid_filter.c:202-249 | A chunk resumed behind every frame gives all its frames in order. |
| `MonitorStream.Collect` | components/autopid/autopid_filter.c:191-250 | However the stream is cut into chunks, the frames are those of the whole stream split into lines, overlong ones discarded, each filtered. |
| `MonitorStream.FramesConcat` | components/autopid/autopid_resp_filter.c:185-223 | A stream cut in two anywhere has the frames of both parts. |
| `DtcReport.Filling.AddCode` | components/autopid/autopid_dtc_codec.c:196-270 | The new report and the answer: known codes once, the detail once per responder, full lists left alone. |
| `DtcReport.Filling.AddCodeJ1939` | components/autopid/autopid_dtc_codec.c:272-298 | The same, and the kept item marked with its count. |
| `DtcReport.Filling.AddResponder` | components/autopid/autopid_dtc_codec.c:324-366 | A responder's last word replaces the one before, and the folded lamp and count follow. |
| `DtcReport.Filling.AddController` | components/autopid/autopid_dtc_codec.c:300-322 | A controller's lamp word noted, and the union of all. |
| `DtcReport.CallsKeep` | components/autopid/autopid_dtc_codec.c:196-366 | Over every sequence of calls: categories without duplicates, items in their category and once per responder, lamp the OR, count the saturated sum, lamp word the union. |
| `DtcReport.LongCodeRepeats` | components/autopid/autopid_dtc_codec.c:227-244 | Exactly when that needs codes that fit their buffer: a longer code is cut and never found again. |
| `DtcReport.Filling.DropItems` | components/autopid/autopid_dtc.c:416-436 | Stored items whose code is gone leave the detail, in order. |
| `DtcReport.NewMeansAbsent` | components/autopid/autopid_dtc.c:339-367 | Over every run of scans and clears a stored code is announced as new if and only if the last valid scan or clear left a set without it. |
| `DtcReport.RunKeeps` | components/autopid/autopid_dtc.c:584-594 | The kept report stays consistent through scans and clears. |
| `DtcReport.MergeCodes` | components/autopid/autopid_dtc_codec.c:156-182 | The loop merges one code at a time. |
| `DtcReport.MergeMeans` | components/autopid/autopid_dtc_codec.c:156-182 | Merging keeps what was there, adds nothing twice, loses a code only when the list is full. |
| `ResponderTable.ToStr` | components/autopid/autopid_vehicle_codec.c:65-105 | The table in one line, or nothing if and only if it does not fit. |
| `ResponderTable.FromStr` | components/autopid/autopid_vehicle_codec.c:107-161 | The well-formed entries in order, up to the room. |
| `ResponderTable.RoundTrip` | components/autopid/autopid_vehicle_codec.c:65-161 | Every table printed is read back, the id that stands for all included. |
| `PgnCommand.ParseCommand` | components/autopid/autopid_j1939_core.c:62-139 | Group, source and request mark, or why not. |
| `PgnCommand.ParsedIsValid` | components/autopid/autopid_j1939_core.c:84-111 | Only groups in range, with no address in a PDU1 group (section 5.3 of SAE J1939-21), and sources up to 253 are accepted. |
| `PgnCommand.RoundTrip` | components/autopid/autopid_j1939_core.c:62-169 | Every valid command printed is read back. |

## Left out

- BaselineRuns.EveryTypeStartsClean: passes with a fixed CAN protocol on an unchanged look, since a prelude sent in between forgets what was moved (`UnseenSettings`); and requests counted alike, which is exact.
- DisciplineRuns.EveryRequestIsAllowed: sound texts, which is exact (`UnsoundTexts`); `DisciplineRuns.EveryRowIsExact` holds for all others.
- PollPass.Poller.Run: ends with the request; the reply, the published values and the log are not part of the model.
- PollPass.Poller.SendChain: the sanitizing of commands that write the chip's EEPROM, and elements longer than 95 characters, which are cut, are not modelled.
- PollPass.Poller.SendElement: neither is the refusal of a command by that guard.
- PollPass.Poller.PollOk: the guard before its initialisation, which allows everything, and the bus watch are not modelled.
- PollPass.Poller.JobOk: whether a look is young enough to be reused is an input.
- DbcCompiler.Compile: the limit on the text's length, which only refuses, and the printing of numbers are not modelled; a text is a sequence of tokens.
- DbcCompiler.MuxCondition: the refusal of a switch whose text is too long for the gate is not modelled.
- ExpressionParser.EvalComputes: begins behind the lexer; the voltage operand is not modelled.
- IsoTp.AssembleHeaderFrames: begins with parsed lines; of the line reader only the extended-address test is modelled.
- Reply.ToPayload: whether the reply showed an error or a length line is an input.
- DtcImport.Importer.Emit: the text of the first rejected code, kept for the error message, is not modelled.
- DtcStore.Store: begins with the parsed entries; the checks of name, size and slot are those of `DtcUpload.Store.Upload`.
- DtcUpload.Store.Upload: memory is never short and the file system never fails.
- DtcWritten.LinesRoundTrip: fields in quotes; unquoted fields and lines split at a space are read as `DtcFile.ParseLine` says, with no round trip of their own.
- DtcFile.ParseFile: the name of the sniffed format is not modelled.
- Redact.RoundTrip: the top of a settings tree is an object.
- MonitorStream.Drain: hands on every frame; the firmware stops when no parameter waits for one.
- MonitorStream.Collect: runs to the end of the stream; the firmware stops earlier when every parameter has its frame.
- SchedulerRuns.DueEntryRuns: no table is reloaded during the run, and the clock strictly advances.
- PgnCommand.RoundTrip: the output buffer is large enough.
- DtcReport.CallsKeep: codes that fit their buffer, as every caller prints them; `DtcReport.LongCodeRepeats` says what others do.
- The line reader `ap_resp_collect_lines` and the 29-bit id hint: text scanning without a stated law beyond its branches.
- `ap_chain_cra_id`, `ap_filter` parameter slots, the runner's test of a single row, contact probing and detection: they repeat the transitions modelled here.
- DBC file parsing and the bounds and literal tolerance of scaling: single-branch claims.
- HTTP handlers, events, tasks and locks, the chip transport, files and clocks: they appear only as inputs.
- The trouble-code services on the bus (OBD, WWH, UDS, J1939) and the clear condition: choreography over the reply codecs.
