# Detection, framing and process models of the OT security lab

This project models, in Dafny, the parts of the lab that keep state over unbounded
runs or do bit-level and real-number work, and proves what they promise.

* **Sliding-window detectors.** The C2-beacon detector (`Beacon`, `BeaconSoundness`,
  `BeaconDetection`, `BeaconAlerts`, over `IntervalStatistics`), the Modbus brute-force tracker
  (`BruteForce`), the responder and the login monitor (`Responder`, `LoginMonitor`, over
  `OffenceWindow` and `SlidingWindow`) and the detection watchdog (`Watchdog`). Each
  detector is a class with the fields of the Python object, and a ghost log of every
  event it has seen; its `Valid()` ties the fields to functions of the log projected to
  one key, so keys do not affect each other, and the theorems are about those functions
  for all histories.
* **DNP3 link codec.** The octet-wise CRC and its error detection (`Crc`,
  `CrcDetection`), its distance, exactly six in blocks of the sizes the link layer uses
  (`CrcDistance`, over the register's orbit in `ShiftOrbit` and `OrbitSums`; what slips is in
  `CrcLimit`), the framer with a receiver of the frame as built, whose header check covers
  the same six octets as the framer's (`LinkFrame`), the frame against the data link layer
  of clause 9 of IEEE Std 1815-2012, whose header check covers eight (`LinkConformance`), wrong
  bits anywhere in a frame (`FrameDistance`), and the decoder (`Dnp3Decoder`).
* **Process and shadow monitor.** The intake PLC program with 16-bit wrapping registers
  (`IntakeProgram`), the Modbus stand-in's process model (`ProcessModel`) and the registers
  it serves (`StandInServer`), Modbus payloads
  (`Modbus`; sections 6.3, 6.6 and 6.12 of MODBUS Application Protocol V1.1b3), the safety
  monitor (`SafetyMonitor`), and all three running together (`ClosedLoop`).
* **Log lines.** The logfmt printer and a reader that inverts it (`Logfmt`).

Conventions. Time is `real`; clock, liveness of scripts, parsed JSON fields and address
validity are parameters. Alerts are an append-only sequence. The beacon test
`variance ** 0.5 / mean > c` is modelled squared, as `variance > (c * mean)^2`, which is
the same for the non-negative `c` and positive `mean` that `Config.Sane` fixes. DNP3 octets
are `bv8`, Modbus bytes are integers below 256.

Where the code and what is said about it differ, the model follows the code:

* The framer's comments speak of CRC-correct link frames, but line 44 of
  `simulate_dnp3_attack.py` computes the header CRC over six octets, without the start
  octets. For every header the two CRCs differ (`HeaderCrcNeverConforms`), so a receiver
  that follows the standard rejects every frame built (`StandardReceiverRejects`); with the
  start octets under the header CRC it accepts the same header and user data
  (`StandardReceiverAccepts`). The statements of `LinkFrame` are about the frame as built.
* The decoder reads CRC octets as application octets when the application is short;
  `DecodeExactly` says exactly when.
* `server.py` announces the same controller as `intake.st`. Left alone the two agree on
  valve, level and alarm (`ControllersAgree`), but they differ on one 16-bit level
  (`StepsMatchExactly`); only the stand-in drives the pump register (`PumpMatchesExactly`,
  `PumpsAgreeExactly`); and a client's write reaches only the PLC's program, because the
  stand-in's updater copies its model out to the served registers and never back
  (`ServedWriteMatchesExactly`, `WriteDiverges`).
* The safety monitor takes the announced byte count of a read response at its word; a
  response cut before the end of the level word teaches a wrong level unless the true one
  is 0 (`TruncatedExactly`).
* The log line quotes values where required and never keys.
  If no key holds `=`, or no key holds a space, different pairs print differently; a key
  that holds a printed pair and a space prints like two pairs (`AmbiguousKeys`).
* The watchdog's first alert of an outage needs a clock at or above the repeat interval
  (`FirstDownCheck`).
* The beacon test divides by zero if the configuration lets a single event through
  (`CrashExactly`).
* The beacon test gives a mean below the minimum interval the fixed coefficient 1. With a
  coefficient limit of 1 or more, a debounce below the minimum interval and a window that
  holds enough events, it therefore alarms on events that are not steady
  (`AlarmSoundExactly`, `UnsteadyAlarm`).

## Model

| member | source | states |
|---|---|---|
| `Beacon.Detector.CheckBeacon` | detection/rules/firewall_events.py:117-155 | appends the event to the flow's own history only; every deque stays the one its own history determines, and an alert is logged exactly on an alarm |
| `Beacon.Detector.Admit` | detection/rules/firewall_events.py:119-155 | debounce, append, expiry loop, test and clear give the deque and verdict of the specification |
| `Beacon.Detector.EvaluateDeque` | detection/rules/firewall_events.py:127-132 | length test, division by zero and regularity test, in this order |
| `Beacon.KeysIndependent` | detection/rules/firewall_events.py:119-120 | in every mixed run the alerts of one key are exactly those its own events raise alone |
| `IntervalStatistics.MeanTelescopes` | detection/rules/firewall_events.py:109-110 | the mean interval is (last - first) / (n - 1) |
| `IntervalStatistics.VarianceBound` | detection/rules/firewall_events.py:113 | population variance is at most the square of half the spread |
| `IntervalStatistics.ScaledVariance` | detection/rules/firewall_events.py:113-114 | scaling the intervals scales the variance by the square |
| `BeaconSoundness.DequeInvariant` | detection/rules/firewall_events.py:119-128 | in every run, even with a clock that steps back, the deque is sorted with gaps of at least the debounce, fits the window and is a subsequence of the flow's events |
| `BeaconSoundness.DequeLength` | detection/rules/firewall_events.py:122-126 | it holds at most window / debounce + 1 entries |
| `IntervalStatistics.VarianceMeanSquares` | detection/rules/firewall_events.py:113 | the variance is the mean of the squares less the square of the mean |
| `BeaconSoundness.AlarmExactly` | detection/rules/firewall_events.py:107-132 | for every configuration and history an event alarms if and only if it is no retransmission, at least two and at least minEvents entries are kept, and the variance is at most (maxCv * mean)^2, or the mean is below minInterval and maxCv >= 1 |
| `BeaconSoundness.AlarmSound` | detection/rules/firewall_events.py:127-144 | if maxCv < 1, or minInterval <= debounce, or the least number of events an alarm needs, a debounce apart, span more than the window, every alarm is witnessed by at least minEvents events of that key, a debounce apart, inside the window, ending now, with variance at most (maxCv * mean)^2 |
| `BeaconSoundness.AlarmSoundExactly` | detection/rules/firewall_events.py:107-144 | for every configuration all alarms of all histories are so witnessed if and only if that condition on the configuration holds |
| `BeaconSoundness.UnsteadyAlarm` | detection/rules/firewall_events.py:111-112 | a history outside the condition: with maxCv 1 and no debounce the events 0, 0, 0, 0.3 alarm although their variance exceeds (maxCv * mean)^2 |
| `BeaconSoundness.NeverLowMean` | detection/rules/firewall_events.py:110-114 | with minEvents >= 2 and debounce >= minInterval > 0 the mean is never zero and the low-mean branch is never taken |
| `BeaconSoundness.CrashExactly` | detection/rules/firewall_events.py:110 | some flow divides by zero if and only if minEvents <= 1 |
| `BeaconSoundness.RegularityShift` | detection/rules/firewall_events.py:107-114 | shifting all times changes nothing |
| `BeaconSoundness.RegularityScale` | detection/rules/firewall_events.py:107-114 | positive scaling keeps the verdict of the test while both means reach minInterval |
| `BeaconDetection.SteadyAlarm` | detection/rules/firewall_events.py:127-132 | minEvents entries with gaps in [a, b], b - a <= 2 * maxCv * a, pass the regularity test |
| `BeaconDetection.FreshDetection` | detection/rules/firewall_events.py:117-155 | from an empty deque a steady beacon alarms exactly at event number minEvents |
| `BeaconDetection.GuaranteedDetection` | detection/rules/firewall_events.py:117-155 | from any reachable deque not in the flow's future, a steady beacon alarms no later than at an event more than the window after its second one |
| `BeaconDetection.RetransmissionsInvisible` | detection/rules/firewall_events.py:121-123 | inserting retransmissions of the newest accepted event anywhere changes neither the deque nor any later verdict |
| `BeaconDetection.NoisyDetection` | detection/rules/firewall_events.py:121-132 | from an empty deque a steady beacon with any retransmissions alarms at the first packet of beat number minEvents and at no earlier packet, the evidence being the beats |
| `BeaconDetection.NoisyGuaranteedDetection` | detection/rules/firewall_events.py:117-155 | from any reachable deque a steady beacon with any retransmissions, its first beat being accepted or absorbed with its retransmissions, alarms at the first packet of some beat and at no packet before it, no later than at the first beat more than the window after the second one |
| `BeaconAlerts.SilentAfterAlarm` | detection/rules/firewall_events.py:155 | after an alarm none of the next minEvents - 1 events of the flow alarms, whatever their times |
| `BeaconAlerts.AlertsUseEvents` | detection/rules/firewall_events.py:117-155 | over every run minEvents * alerts + stored entries is at most the number of events of the key |
| `BeaconAlerts.DetectorUsesEvents` | detection/rules/firewall_events.py:117-155 | the same of the alerts and the deques of every valid detector, for each key |
| `BeaconAlerts.AlertsReportAlarms` | detection/rules/firewall_events.py:133-154 | every alert of a key reports the key, the event count and the regularity of an alarm of its own history |
| `BeaconAlerts.SteadyAlertCount` | detection/rules/firewall_events.py:117-155 | from an empty deque a steady beacon of n events raises exactly n / minEvents (rounded down) alerts |
| `BruteForce.ExceptionExactly` | detection/rules/ot_brute_force.py:41-45 | a packet counts if and only if its payload has an octet 7 and that is at least 129 |
| `BruteForce.ExceptionsCounted` | detection/rules/ot_brute_force.py:42-45 | the exception answer to any request of function 1 to 127 counts |
| `BruteForce.AnswersNotCounted` | detection/rules/ot_brute_force.py:42-45 | read responses and the echoes of single and multiple writes never count |
| `BruteForce.Tracker.ProcessPacket` | detection/rules/ot_brute_force.py:39-59 | an exception packet extends its source's history and alerts as that history determines; other packets change nothing |
| `BruteForce.Conservation` | detection/rules/ot_brute_force.py:46-59 | for any clock every exception is exactly once evidence of an alert, expired or pending; each alert takes exactly the threshold; fewer than the threshold are pending |
| `BruteForce.ConservationCount` | detection/rules/ot_brute_force.py:46-59 | exceptions = threshold * alerts + expired + pending |
| `BruteForce.TrackerConservation` | detection/rules/ot_brute_force.py:46-59 | on every valid tracker a source's exceptions = threshold * its logged alerts + expired + its stored entries, every alert reporting exactly the threshold |
| `BruteForce.ExpiredIsOld` | detection/rules/ot_brute_force.py:49 | whatever expires is one of the source's exceptions and a full window older than one that came no earlier in its history |
| `BruteForce.FiresWithThreshold` | detection/rules/ot_brute_force.py:51-55 | the reported error count is exactly the threshold |
| `BruteForce.AlertSound` | detection/rules/ot_brute_force.py:46-59 | an alert has the threshold of that source's exceptions, spanning less than the window |
| `BruteForce.BurstAlerts` | detection/rules/ot_brute_force.py:46-59 | whatever came before, among any threshold successive exceptions spanning less than the window one alerts |
| `OffenceWindow.Record` | detection/rules/responder.py:34-39 | the source's list is pruned, extended by now and compared with the threshold; other sources keep theirs |
| `OffenceWindow.StoredEndsWithNow` | detection/rules/responder.py:36-38 | the offence being recorded is always stored, as the last, whatever the window |
| `OffenceWindow.StoredIsFilter` | detection/rules/responder.py:36-38 | under a non-decreasing clock incremental pruning equals filtering the full history |
| `OffenceWindow.StoredCount` | lab-environment/hmi-login-monitor/monitor.py:30-34 | the list's length counts the positions of the history inside the window |
| `OffenceWindow.CrossesExactly` | detection/rules/responder.py:39 | the threshold is reached if and only if the last threshold offences span less than the window |
| `OffenceWindow.TrippedExactly` | detection/rules/responder.py:34-39 | some offence reached it if and only if some threshold offences span less than the window |
| `Responder.GatewayResponder.ProcessLine` | detection/rules/responder.py:59-77 | a drop is applied exactly when the line makes its source trip for the first time; blocks and drops only grow; no source is dropped twice |
| `Responder.OffencesExactly` | detection/rules/responder.py:23-27 | with an address that parses and is not empty exactly the three watched alert types are offences; nothing else is |
| `Responder.BlockedExactly` | detection/rules/responder.py:67-75 | over every run the blocked sources are exactly those with threshold watched offences spanning less than the window |
| `LoginMonitor.Monitor.ProcessLine` | lab-environment/hmi-login-monitor/monitor.py:51-63 | a failed login extends its source's history and alerts as that history determines; other lines change nothing |
| `LoginMonitor.LoginFailureExactly` | lab-environment/hmi-login-monitor/monitor.py:23-27 | a line is a failure if and only if the request is "POST " and a rest, and both request and location are some text around "login.htm" |
| `LoginMonitor.NoFailures` | lab-environment/hmi-login-monitor/monitor.py:23-27 | a GET is no failure, nor is a redirect to a location that lacks a letter of the page's name; a line without a source is no attempt |
| `LoginMonitor.RedirectedPostFails` | lab-environment/hmi-login-monitor/monitor.py:23-27 | every POST of a path to the login page redirected to a path to the login page is a failure |
| `LoginMonitor.AlertExact` | lab-environment/hmi-login-monitor/monitor.py:61-63 | a failure alerts if and only if enough failures lie in the window, with that exact count |
| `Watchdog.Watch.Check` | detection/rules/watchdog.py:47-66 | one round adds one observation per script and alerts exactly the checked scripts that are down and were last alerted (or the epoch was) at least the repeat interval ago, at this time; it clears the entries of running scripts and keeps those of unchecked ones |
| `Watchdog.AlertsAreForDownScripts` | detection/rules/watchdog.py:49-54 | on every valid watch each alert is for a logged check that found that script down at that time |
| `Watchdog.FirstDownCheck` | detection/rules/watchdog.py:49-54 | after any up check the first down check alerts if and only if the clock has reached the repeat interval |
| `Watchdog.LatestAlert` | detection/rules/watchdog.py:52-54 | throughout an outage the entry is the latest alert and less than the repeat interval old |
| `Watchdog.AlertsSpaced` | detection/rules/watchdog.py:52-54 | alerts of one outage are at least the repeat interval apart |
| `Watchdog.AlertsKeepComing` | detection/rules/watchdog.py:47-66 | with checks at most G apart the next alert of a lasting outage comes less than the repeat interval + G later |
| `Crc.ComputeCrc` | lab-environment/attacker/simulate_dnp3_attack.py:27-33 | the loops over octets and bits compute the register function |
| `CrcDetection.CheckValue` | lab-environment/attacker/simulate_dnp3_attack.py:25-33 | the CRC of the ASCII digits 1 to 9 is 0xEA82, the published check value of CRC-16/DNP |
| `Crc.ShiftBijective` | lab-environment/attacker/simulate_dnp3_attack.py:32 | the shift step has a two-sided inverse |
| `Crc.FeedLinear` | lab-environment/attacker/simulate_dnp3_attack.py:29-32 | the loop is linear over exclusive or in register and data |
| `CrcDetection.SerialEquivalence` | lab-environment/attacker/simulate_dnp3_attack.py:29-32 | the octet-wise loop equals a bit-serial register on the bits, least significant first |
| `CrcDetection.ResidueTest` | lab-environment/attacker/simulate_dnp3_attack.py:44-47 | a block is followed by its own little-endian CRC if and only if the register over all of it is one constant, for every length |
| `CrcDetection.UnnoticedExactly` | lab-environment/attacker/simulate_dnp3_attack.py:44-47 | an error passes the CRC if and only if its own register value is zero |
| `CrcDetection.BurstDetected` | lab-environment/attacker/simulate_dnp3_attack.py:44-47 | every nonzero burst of at most 16 consecutive bits is detected, straddling data and CRC included |
| `CrcLimit.SeventeenBitsSlip` | lab-environment/attacker/simulate_dnp3_attack.py:27-33 | the bound is sharp: every sealed block of three octets or more has an error within 17 bits that leaves it sealed |
| `CrcDetection.OddErrorDetected` | lab-environment/attacker/simulate_dnp3_attack.py:44-47 | every error that flips an odd number of bits is detected |
| `OrbitSums.PeriodExactly` | lab-environment/attacker/simulate_dnp3_attack.py:31-32 | the register that holds 1 holds it again after n shifts if and only if n is a multiple of 151 |
| `OrbitSums.NoFourCancel` | lab-environment/attacker/simulate_dnp3_attack.py:31-32 | of the 151 values it runs through no four different ones cancel |
| `CrcDistance.TwoBitsUnnoticedExactly` | lab-environment/attacker/simulate_dnp3_attack.py:44-47 | in blocks of any length two wrong bits go unnoticed if and only if they are a multiple of 151 apart |
| `CrcDistance.FiveBitsDetected` | lab-environment/attacker/simulate_dnp3_attack.py:44-47 | in every sealed block of at most 18 octets one to five wrong bits anywhere are detected |
| `CrcLimit.SixBitsSlip` | lab-environment/attacker/simulate_dnp3_attack.py:27-33 | five is the most: every sealed block of three octets or more has an error of six bits that leaves it sealed |
| `LinkFrame.BuildFrame` | lab-environment/attacker/simulate_dnp3_attack.py:36-48 | the block loop builds the specified frame, or nothing when the length does not fit in an octet |
| `LinkFrame.BlocksLength` | lab-environment/attacker/simulate_dnp3_attack.py:45-47 | n user octets take n + 2 * ceil(n / 16) octets |
| `LinkFrame.StripBlocks` | lab-environment/attacker/simulate_dnp3_attack.py:45-47 | checking and removing the block CRCs restores the user data |
| `LinkFrame.FrameRoundTrip` | lab-environment/attacker/simulate_dnp3_attack.py:36-48 | a frame exists if and only if there are at most 250 user octets, has 10 + n + 2 * ceil(n / 16) octets, and is received as the header and user data sent |
| `LinkFrame.FrameDelivers` | lab-environment/attacker/simulate_dnp3_attack.py:36-48 | octet 10 of every frame is 0xC0, and a transport layer that demands a first and last segment delivers, with sequence 0, exactly the application |
| `LinkFrame.LengthField` | lab-environment/attacker/simulate_dnp3_attack.py:38-40 | the length octet stands for five more than the number of user octets |
| `LinkFrame.FrameBurstRejected` | lab-environment/attacker/simulate_dnp3_attack.py:36-48 | a frame hit by a nonzero burst of at most 16 bits anywhere, across any of its parts, is rejected |
| `FrameDistance.FiveWrongBitsRejected` | lab-environment/attacker/simulate_dnp3_attack.py:36-48 | a frame as built with one to five wrong bits anywhere is rejected |
| `FrameDistance.StandardFiveWrongBitsRejected` | lab-environment/attacker/simulate_dnp3_attack.py:36-48 | so is the frame whose header CRC covers the start octets, by the receiver that checks it that way |
| `LinkConformance.HeaderCrcNeverConforms` | lab-environment/attacker/simulate_dnp3_attack.py:44 | for every header the CRC over the start octets and the header differs from the CRC over the header alone |
| `LinkConformance.StandardReceiverRejects` | lab-environment/attacker/simulate_dnp3_attack.py:39-48 | a receiver whose header check covers the start octets rejects every frame built |
| `LinkConformance.StandardReceiverAccepts` | lab-environment/attacker/simulate_dnp3_attack.py:39-48 | with the start octets under the header CRC it accepts, and reads the header and user data sent |
| `LinkConformance.FramesDifferInCrcOnly` | lab-environment/attacker/simulate_dnp3_attack.py:39-48 | the frame as built and the conforming one differ in the two header CRC octets and nowhere else |
| `Dnp3Decoder.DecodeFrame` | detection/rules/otdpi/dnp3.py:48-82 | the decoder's link fields are the sender's, and its application fields are what it reads in the octets after the transport octet |
| `Dnp3Decoder.DecodeHeader` | detection/rules/otdpi/dnp3.py:53-80 | for every application of two octets or more addresses, direction, sequence and function code are as sent |
| `Dnp3Decoder.DecodeControl` | detection/rules/otdpi/dnp3.py:53-78 | a frame is a request if and only if its control octet is at least 128; link function and application sequence are the remainders by 16; the transport sequence is 0 |
| `Dnp3Decoder.DecodeObjects` | detection/rules/otdpi/dnp3.py:64-82 | for seven octets or more group, variation and count are octets 2, 3 and 5, and the control code is octet 6 for group 12 and absent otherwise |
| `Dnp3Decoder.DecodeAnyPayload` | detection/rules/otdpi/dnp3.py:48-67 | of any octets, what is refused, the transport sequence as a remainder by 64, and which object fields the length leaves absent |
| `Dnp3Decoder.DecodeExactly` | detection/rules/otdpi/dnp3.py:56-82 | the decoder recovers exactly what was sent if and only if the application has at least seven octets, or six and no control block |
| `Modbus.IterWrites` | detection/rules/process_safety_violation.py:84-106 | the parser with its early break yields the specified writes |
| `Modbus.BuiltOctets` | tests/conftest.py:10-36 | the built requests and responses octet by octet, function codes 6, 16 and 3 |
| `Modbus.ParseMultipleWrite` | tests/conftest.py:25-36 | a multiple-write request exists for exactly the lists of at most 127 values and parses to (start + i, values[i]) in order |
| `Modbus.ParseSingleWrite` | tests/conftest.py:10-16 | a single-write request parses to its register and value |
| `Modbus.ParseAnyMultipleWrite` | detection/rules/process_safety_violation.py:95-106 | any payload yields consecutive registers, exactly as many as quantity, byte count and length all allow, read inside the payload |
| `SafetyMonitor.Monitor.ProcessPacket` | detection/rules/process_safety_violation.py:108-150 | shadowing, then judging the writes, as specified, over every packet sequence |
| `SafetyMonitor.Monitor.EnforceWrites` | detection/rules/process_safety_violation.py:134-150 | the loop over parsed writes judges and shadows them in order |
| `SafetyMonitor.ProcessExactly` | detection/rules/process_safety_violation.py:122-150 | one packet alerts at most once, exactly for a command to write 1 to the valve, read off the bytes, above the threshold |
| `SafetyMonitor.ShadowExact` | detection/rules/process_safety_violation.py:122-150 | over every packet sequence the shadow holds the latest learned level and the latest valve command |
| `SafetyMonitor.AlertsExact` | detection/rules/process_safety_violation.py:133-148 | over every packet sequence a packet alerts, once, if and only if it writes 1 to the valve while the latest level exceeds the threshold |
| `SafetyMonitor.TeachesExactly` | detection/rules/process_safety_violation.py:122-131 | over every packet sequence a packet sets the shadow level if and only if the PLC sent it with function code 3 and a byte count of at least 2 * (level register + 1), then to the bytes at the register; otherwise the level stays |
| `SafetyMonitor.ShortReadKeepsLevel` | detection/rules/process_safety_violation.py:126 | a built response with too few registers leaves the latest level as it was |
| `SafetyMonitor.OtherFunctionKeepsLevel` | detection/rules/process_safety_violation.py:123 | so does a packet of any other function code |
| `SafetyMonitor.BuiltWriteAlerts` | detection/rules/process_safety_violation.py:133-148 | after every packet sequence a built single write to the PLC alerts if and only if it writes 1 to the valve above the threshold |
| `SafetyMonitor.BuiltMultipleWriteAlerts` | detection/rules/process_safety_violation.py:133-148 | the same of a built multiple write that covers the valve |
| `SafetyMonitor.BystanderIgnored` | detection/rules/process_safety_violation.py:123-133 | traffic the PLC neither sent nor receives changes neither shadow nor alerts |
| `SafetyMonitor.LearnedIsRegister` | detection/rules/process_safety_violation.py:123-131 | a complete read response teaches the value of the level register |
| `SafetyMonitor.TruncatedExactly` | detection/rules/process_safety_violation.py:127-131 | a response cut off after its byte count teaches the right level if and only if the level word is complete or zero |
| `IntakeProgram.Program.RunScan` | plc/intake.st:19-51 | the scan body, assignment by assignment, has the specified effect |
| `IntakeProgram.ScanSafe` | plc/intake.st:23-51 | from a level in 0..100 a scan moves it by at most one, never wraps, and sets alarm = 1 iff level > 95, which shuts the valve |
| `IntakeProgram.LevelInvariant` | plc/intake.st:27-41 | under arbitrary valve writes between scans the level stays in 0..100 |
| `IntakeProgram.InterlockInvariant` | plc/intake.st:43-51 | after every scan of every run alarm = 1 iff level > 95, which forces valve = 0 |
| `IntakeProgram.CommandMoves` | plc/intake.st:27-33 | in every run, between 20 and 99, a valve command 1 makes the next scan fill by one and any other drain by one |
| `ProcessModel.Model.Step` | lab-environment/modbus-sim/server.py:38-59 | the dictionary updates of the intake and treatment branches have the specified effect, register by register |
| `ProcessModel.StepsMatchExactly` | lab-environment/modbus-sim/server.py:40-49 | from equal 16-bit registers the stand-in and the PLC program agree after a step if and only if the level is not 65535 with an open valve |
| `ProcessModel.PumpMatchesExactly` | lab-environment/modbus-sim/server.py:50 | from any matched registers the pumps agree after a step if and only if the PLC's pump already was 60 where valve and level before the step drive it (level below 20, or valve 1 and level below 95, or another nonzero valve and level at most 96) and 0 elsewhere |
| `ProcessModel.PumpsAgreeExactly` | lab-environment/modbus-sim/server.py:50 | left alone from power-up the pumps agree after n scans if and only if n is 0 or at least 96 with (n - 96) mod 154 at most 77 |
| `IntakeProgram.PumpUndriven` | plc/intake.st:19-51 | no run of scans and valve writes changes the PLC's pump register |
| `ProcessModel.ControllersAgree` | lab-environment/modbus-sim/server.py:40-49 | left alone from any matched registers with level at most 100 the controllers match on valve, level and alarm after every scan |
| `ProcessModel.WriteKeepsMatchExactly` | lab-environment/modbus-sim/server.py:71-78 | after a valve write, which reaches the PLC only, the next scan matches again if and only if the level is below 20, or the written value is the stand-in's valve, or neither is 1 and the level is above 96 |
| `ProcessModel.WriteDiverges` | lab-environment/modbus-sim/server.py:71-78 | a reachable run: after 142 scans both levels are 50 and a written open command takes the PLC to 51, the stand-in to 49 |
| `StandInServer.Server.UpdateOnce` | lab-environment/modbus-sim/server.py:71-76 | one round steps the model and copies its registers, modulo 2^16, to the served ones, leaving the rest as they were |
| `StandInServer.Server.WriteRegister` | lab-environment/modbus-sim/server.py:83-89 | a client's write changes one served register and nothing of the model |
| `StandInServer.WriteServedBack` | lab-environment/modbus-sim/server.py:83-89 | after every run a client's write is served back at once and no other register changes |
| `StandInServer.UnusedRegistersKept` | lab-environment/modbus-sim/server.py:71-76 | over every run a register the process does not use serves the last client write |
| `StandInServer.ServedWriteMatchesExactly` | lab-environment/modbus-sim/server.py:71-89 | after every interleaving of rounds and client writes, a valve write to both controllers keeps them matched through the next scan and round if and only if the level is below 20, or the value is the model's valve, or neither is 1 and the level is above 96 |
| `StandInServer.UpdateOverwrites` | lab-environment/modbus-sim/server.py:71-76 | after every round the served valve, pump, level and alarm are the autonomous model's, whatever was written before |
| `ProcessModel.CycleFromPeak` | lab-environment/modbus-sim/server.py:40-50 | from the peak the run has period exactly 154 and the level stays in 19..96 |
| `ProcessModel.PeakWithinPeriod` | lab-environment/modbus-sim/server.py:40-50 | from any valve value and any level in 0..100 level 96, valve 0, alarm 1 is reached within 154 scans |
| `ProcessModel.ZeroStartNeverAbove96` | lab-environment/modbus-sim/server.py:40-50 | from the all-zero start the level never exceeds 96 |
| `ProcessModel.TreatmentConverges` | lab-environment/modbus-sim/server.py:51-59 | from any residual in 0..100 chlorine is in 20..22 from scan 78 on with the alarm clear, and no residual after a scan is 0 |
| `ProcessModel.TreatmentFromZero` | lab-environment/modbus-sim/server.py:51-59 | from all zero every scan n >= 1 has flow 40, dosing 1, rate 50, no alarm, and residual 2n + 1 up to scan 10, then the cycle 21, 20, 22 |
| `ProcessModel.TreatmentFromHundred` | lab-environment/modbus-sim/server.py:51-59 | from residual 100, whatever the other registers held, dosing and rate are 0 for 80 scans and 1 and 50 from then on, and the alarm is on for exactly the first 39 |
| `ProcessModel.DosingCommand` | lab-environment/modbus-sim/server.py:53-59 | the command changes only when the residual before dosing is below 20 (on) or at least 40 (off); the alarm is on if and only if more than 60 is left |
| `ProcessModel.SeventyEightIsTight` | lab-environment/modbus-sim/server.py:53-58 | from 100 the band is missed at scan 77 and met at scan 78 |
| `ClosedLoop.ShadowLag` | detection/rules/process_safety_violation.py:122-131 | in every interleaving of scans, complete reads and requests, k scans after the last read the shadow level is within k of the true level |
| `ClosedLoop.CommandCoverage` | detection/rules/process_safety_violation.py:133-148 | an open command above threshold + k always alerts, and every alert is above threshold - k |
| `ClosedLoop.BuiltCommandMoves` | plc/intake.st:27-33 | in every interleaving a built write of the valve register decides whether the next scan fills or drains |
| `ClosedLoop.AnswerCarries` | plc/intake.st:6-18 | a read answer carries valve, pump, level and alarm at registers 0, 1, 5 and 6 |
| `ClosedLoop.InterlockCovered` | plc/intake.st:43-51 | with threshold 90, reads at most five scans old cover every open command above the 95% interlock |
| `ClosedLoop.SixScansMiss` | detection/rules/process_safety_violation.py:138-140 | five is sharp: a run with a read six scans old reaches level 96 and no packet alerts |
| `Logfmt.Logfmt` | detection/rules/otdpi/common.py:32-42 | the loop prints the specified line |
| `Logfmt.ReplacementsEscape` | detection/rules/otdpi/common.py:40 | the two successive replacements are one per-character escape |
| `Logfmt.PlainExactly` | detection/rules/otdpi/common.py:38-40 | a value is printed as it is if and only if it is not empty and holds no space, quote, `=` or newline |
| `Logfmt.FieldsPrinted` | detection/rules/otdpi/common.py:35-37 | a field without a value is left out of the line; any other appears in its place |
| `Logfmt.ReadLinePrinted` | detection/rules/otdpi/common.py:32-42 | for keys without `=` a reader recovers exactly the printed pairs |
| `Logfmt.PrintsAlikeExactly` | detection/rules/otdpi/common.py:32-42 | field lists without `=` in their keys print alike if and only if they show the same pairs |
| `Logfmt.SpaceFreeKeysPrintAlike` | detection/rules/otdpi/common.py:32-42 | so do field lists without a space in their keys, `=` in keys included |
| `Logfmt.AmbiguousKeys` | detection/rules/otdpi/common.py:41-42 | for all pairs (k, v) and (k2, w), the one pair whose key is the print of (k, v), a space and k2, with value w, prints like the two |
| `Logfmt.MixedKeysAmbiguous` | detection/rules/otdpi/common.py:41-42 | for all k, a, b, c, k2 and w (a, b, c plain, b unquoted) two lists that show different pairs print alike; if k and a hold no space and c and k2 no `=`, every key is free of one of the two, so the two kinds may not be mixed |

## Left out

- Packet capture, Loki pushes, alert files, iptables, process listing and HTTP are not modelled; alerts and drops are sequences.
- JSON, IP-address and environment parsing are not modelled: parsed fields, address validity and configuration are parameters. A JSON line that is not an object is not modelled.
- IEEE rounding is not modelled: coefficients are exact reals and the rounding of reported figures is dropped.
- Beacon.Detector.CheckBeacon: configurations outside `Config.Sane` (a negative tolerance, debounce or window, or a non-positive minimum interval) are not modelled.
- The zone and conduit tables that decide which flows reach the beacon detector are table lookups and are not modelled.
- The decoder's `function_name` text is not modelled.
- LinkFrame.FrameBurstRejected: the receivers are independent definitions, since the lab's outstation is a library; they check start octets and CRCs and not the length octet, so a stricter receiver rejects at least as much.
- BeaconDetection.NoisyGuaranteedDetection: a first beat that is itself taken for a retransmission of older traffic is covered only if its own retransmissions are too, since one of them can otherwise be accepted in its place.
- StandInServer.Server.UpdateOnce: the intake asset only; the copy-out is one atomic step, so a client write between two copied registers is not modelled.
- ClosedLoop.ShadowLag: every read starts at register 0. The monitor never sees the start address, so a read from s teaches the value of register 5 + s as the level.
- ClosedLoop.CommandCoverage: requests that write the level register, which the register map declares read-only, are excluded, and writes to registers other than the valve are not carried out.
- ProcessModel.Model.Step: the distribution branch is not modelled; `treatment.st` and `distribution.st` are not compared with the stand-in.
- Watchdog.Watch.Check: which scripts run is a parameter of each round.
- S7comm and OPC UA decoding, the stateless cross-zone, Modbus and DNP3 rules, scoring, metrics and provisioning would only add table lookups and slices.
