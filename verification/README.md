# A verified model of PPSi

PPSi is an IEEE 1588 (PTP) daemon with the White Rabbit extensions. This project models the parts of it
that carry its promises and proves them with Dafny: the arithmetic of time stamps and of the
fixed-point asymmetry correction, the best master clock algorithm over a foreign master table and over
all ports of a clock, the pairing of messages and the correction fields on the wire, the White Rabbit
link handshake between two ports, its phase servo, the sequence lock of the shared memory, and the
event queue of the simulator.

`dafny verify dfyconfig.toml` verifies all of it.

| file | what it models |
|---|---|
| `CInt.dfy`, `Arith.dfy` | C integer types with their ranges; integer facts |
| `Div64.dfy` | the 64 by 32 bit division |
| `TimeArith.dfy`, `TimeOps.dfy` | `pp_time` as a value with its meaning, and as the struct updated in place |
| `RelDiff.dfy`, `AsymCoeff.dfy`, `ServoDelays.dfy` | the 2^-62 multiply, the series for the asymmetry coefficient, delays and offset |
| `BmcCompare.dfy`, `ForeignMasters.dfy` | data set comparison, one port's table |
| `BmcEbest.dfy`, `BmcClock.dfy`, `BmcDecision.dfy` | the best record of the clock, all ports of a clock over every run, what is decided for each |
| `NetOrder.dfy`, `CorrectionField.dfy`, `SlavePairing.dfy` | octets in frames, stamps and corrections end to end, which messages make an update |
| `WrNode.dfy`, `WrLink.dfy`, `WrMsg.dfy` | one port of the handshake, two ports on a faulty link, its messages as octets |
| `WrhServo.dfy` | the phase servo and a clock that obeys it |
| `SeqLock.dfy` | writer and reader of the shared memory, store by store |
| `SimQueue.dfy`, `SimSockets.dfy`, `SimSchedule.dfy` | packets in flight, the sockets under them, the main loop of the simulator |

Code that updates structs and arrays is modelled by classes and methods with loops; its results are tied
to functions on values about which the lemmas speak. Timers, hardware, random numbers and the
operating system appear as inputs that may take any value.

Some results correct what the code or its comments suggest:

- The comparison of data sets is an order only if announcements of one grandmaster agree on its
  attributes (`IncoherenceCycles` gives the exact condition).
- A clock's class can change under a port that follows a master, and while another port initialises
  nothing makes that port reconsider, so a grandmaster can have a slave port (`GrandmasterFollows`).
- Ebest need not be the best record stored in the clock: the ports before its old holder are judged by
  the old Ebest (`SomeOverlooked`, with all causes in `EbestOverall`).
- The number of an announce is compared with the last one plus one in `int`, so the one after 65535 is never
  the next and does not renew the time of its source (`RenewedOnTime`, `QualifiedExactly`).
- A measured round trip that is negative can put the offset more than a picosecond off
  (`HalfExactly` gives the exact condition).
- A read that passes the sequence lock's check can be torn after exactly 2^30 sections (`TornAfterRound`).
- A Delay_Resp is taken before any Delay_Req was sent if it carries the initial sequence number
  (`UnaskedResponse`).
- The simulator's packets keep Sync before Follow_Up, but the sockets hand out messages per channel, so
  what is read can be the other way round (`ReadBeforeExactly` and `MasterCycle` give the exact condition).
- The simulator's main loop subtracts the delay that is left of a packet after time has moved on, not the
  time that has passed (`Next`, `Arrival`); with growing delays its timeout can become negative and time
  move back.
- The comment in hooks.c says that a White Rabbit slave that goes back to UNCALIBRATED starts its
  handshake again. It does not if WR mode was on: the reset on leaving SLAVE clears the parent's
  configuration before it is looked at (`StateChange`).
- `wr_servo_init` clears the servo's latencies only if `wrh_servo_init` returns non-zero, which it never
  does; they persist in the model as well.

## Model

| member | source | states |
|---|---|---|
| `Div64.Div6432` | lib/div64.c:22-53 | for every 64-bit n and every base > 0 the result is n / base and n mod base; both loops end and no doubling overflows |
| `Div64.Reduce` | lib/div64.c:30-35 | the first reduction takes whole multiples of base * 2^32 off n and leaves less than that |
| `Div64.Double` | lib/div64.c:37-40 | the divisor is doubled to at least the remainder or to the top bit, together with its weight, without losing a bit |
| `Div64.ShiftSubtract` | lib/div64.c:42-49 | subtracting and halving ends with weight 0, the remainder below base and the quotient complete |
| `TimeArith.Carried` | lib/time-arith.c:29-36 | the two carry loops keep the instant and end with 0 to 1 s of nanoseconds |
| `TimeArith.NormalizedKeepsValue` | lib/time-arith.c:14-39 | normalising denotes the same instant on every input, marked incorrect or not |
| `TimeArith.NormalizedCanonical` | lib/time-arith.c:14-39 | the result is canonical if and only if seconds and sum agree in sign or the nanoseconds are whole seconds |
| `TimeArith.NormalizedKeepsCanonical` | lib/time-arith.c:14-39 | a canonical time is left as it is, one whole second of nanoseconds included |
| `TimeArith.IncorrectExactly` | include/ppsi/pp-time.h:15-19 | the mark of an incorrect stamp is the pattern 10 in the two top bits of the 64-bit seconds |
| `TimeArith.PlusExact` | lib/time-arith.c:68-73 | addition is exact on instants, and canonical times are closed under it |
| `TimeArith.MinusExact` | lib/time-arith.c:80-85 | subtraction is exact on instants, and canonical times are closed under it |
| `TimeArith.ToPicosNearest` | lib/time-arith.c:98-114 | on every canonical time pp_time_to_picos is the nearest picosecond of the instant, wherever that fits 64 bits |
| `TimeOps.PicosThereAndBack` | lib/time-arith.c:98-146 | picos_to_pp_time, then pp_time_to_picos, on every int64 above the least: p, or one more in magnitude exactly if the magnitude is 62 modulo 125 |
| `TimeOps.PpTime.Normalize` | lib/time-arith.c:14-39 | the struct updated in place becomes the normalised time, without overflow away from the ends of int64 |
| `TimeOps.PpTime.Carry` | lib/time-arith.c:29-36 | the loops in place compute the carries and end |
| `TimeOps.PpTime.Add` | lib/time-arith.c:68-73 | the sum, normalised, in place |
| `TimeOps.PpTime.Sub` | lib/time-arith.c:80-85 | the difference, normalised, in place |
| `TimeOps.PpTime.SetPicos` | lib/time-arith.c:126-146 | the struct holds the instant of a number of picoseconds, rounded away from zero, in canonical form |
| `TimeOps.PpTime.SetFixedDelta` | lib/time-arith.c:116-124 | two words of scaled picoseconds become the instant of a thousandth of them, canonical |
| `TimeOps.PicosToInterval` | lib/time-arith.c:176-203 | picoseconds to 2^-16 ns, cut toward zero, saturated at both ends |
| `TimeOps.IntervalTruncates` | lib/time-arith.c:176-203 | the conversion is toward zero by less than a unit |
| `TimeOps.IntervalToPicos` | lib/time-arith.c:205-218 | an interval's nearest picosecond, as long as the product with 1000 fits |
| `TimeOps.IntervalRoundTrip` | lib/time-arith.c:176-218 | interval_to_picos(picos_to_interval(p)) == p for every p, and the way back does not overflow exactly up to 2^47 ps |
| `TimeOps.Hardwarize` | lib/time-arith.c:150-168 | whole clock periods in ns and the picoseconds left, with the sign; nothing is written for a period that is not positive |
| `RelDiff.MulRelativeDifference` | proto-standard/servo.c:91-126 | exactly floor(op1 * op2 / 2^62) for all operands below 2^63 with the smaller below 2^62, and no intermediate 64-bit value overflows unnoticed |
| `RelDiff.Multiply` | proto-standard/servo.c:103-126 | the four partial products with the chosen shift make up the product exactly |
| `RelDiff.Combine` | proto-standard/servo.c:108-125 | upper, middle and lower words, shifted and masked with their carries, are the product's quotient by 2^62 |
| `RelDiff.CombineWords` | proto-standard/servo.c:112-125 | the sum of shifted words is the floor of the exact product |
| `RelDiff.ShiftFits` | proto-standard/servo.c:96-108 | the shift chosen from the smaller operand keeps the shifted upper word within 64 bits |
| `AsymCoeff.DelayAsymCoefficient` | proto-standard/servo.c:157-184 | for every alpha from -1 to 1 the expansion ends and is within 66 units of 2^-62 of alpha/(alpha+2), for both signs |
| `AsymCoeff.Term` | proto-standard/servo.c:169-180 | a term is at most half the one before |
| `AsymCoeff.PosStep` | proto-standard/servo.c:172-176 | one alternating step moves the scaled error by less than 2^63 |
| `AsymCoeff.NegStep` | proto-standard/servo.c:177-179 | one step of the negative branch, with its added unit, moves the scaled error by between -x and 2^63 - x |
| `ServoDelays.CalculateDelayAsymmetry` | proto-standard/servo.c:135-148 | the constant plus coefficient * mean / 2^62, exact to less than a unit and not beyond it, whatever the signs |
| `ServoDelays.ShareExact` | proto-standard/servo.c:135-148 | for all integers the coefficient's share times 2^62 is coefficient * mean to less than 2^62, and no larger in magnitude |
| `ServoDelays.Servo.CalculateDelayMM` | proto-standard/servo.c:212-237 | the round trip is exactly (t4 - t1) - (t3 - t2), canonical |
| `ServoDelays.Servo.CalculateDelays` | proto-standard/servo.c:239-297 | mean delay, asymmetry, delayMS and offsetFromMaster as instants of the stamps, through every rounding; nothing changes on a bad stamp |
| `ServoDelays.Servo.UpdateAsymmetry` | proto-standard/servo.c:263-273 | the asymmetry is computed from the mean delay or is the configured one |
| `ServoDelays.Servo.UpdateOffset` | proto-standard/servo.c:274-280 | the offset is exactly t1 - t2 + delayMS |
| `ServoDelays.Servo.OffsetOfExchange` | proto-standard/servo.c:212-280 | with t2 = t1 + d + theta, t4 = t3 + d - theta and no asymmetry the computed offset is -theta to less than one picosecond if and only if the measured delayMM is not misrounded, which it never is for d >= 0 |
| `ServoDelays.Servo.OffsetOfConstantAsymmetry` | proto-standard/servo.c:263-280 | with delays d + c and d - c and c configured as the constant asymmetry the offset is -theta to less than two picoseconds |
| `ServoDelays.Servo.OffsetOfAsymmetricPath` | proto-standard/servo.c:239-297 | with delays dMS = (1 + alpha) * dSM for any alpha from -1 to 1, the coefficient computed from alpha and correction on, delayMS is dMS and the offset -theta to less than three picoseconds, for round trips below 274 s |
| `ServoDelays.AsymmetricPath` | proto-standard/servo.c:135-148 | why: the errors of the coefficient, of the product, of the mean delay and of the conversions add up to less than that |
| `ServoDelays.OffsetAccuracy` | proto-standard/servo.c:255-280 | the same on values, and below two picoseconds for every delay and every asymmetry |
| `ServoDelays.HalfExactly` | proto-standard/servo.c:255-276 | for every d, half of the measured round trip is within a picosecond of d if and only if it is not negative with a nearest picosecond that is odd and at least 928/65536 ps beyond it |
| `BmcCompare.DatasetCmpIsRankOrder` | proto-standard/bmc.c:369-568 | on coherent records not looped to their own port the comparison is that of numeric ranks: a total preorder, unqualified records tied below |
| `BmcCompare.StrictOnQualified` | proto-standard/bmc.c:401-568 | qualified records tie only if they agree in grandmaster, steps removed, source and receiving port |
| `BmcCompare.FullRankIdentifies` | proto-standard/bmc.c:401-545 | records of different sources never have the same rank |
| `BmcCompare.GmOrder` | proto-standard/bmc.c:401-465 | the grandmaster comparison is that of priority1, class, accuracy, variance, priority2 and identity, in this order |
| `BmcCompare.TopologyOrder` | proto-standard/bmc.c:468-545 | the topology comparison is that of steps removed, source and receiving port |
| `BmcCompare.QualifiedFirst` | proto-standard/bmc.c:369-399 | a qualified record goes before an unqualified one, two unqualified ones tie |
| `BmcCompare.IncoherenceCycles` | proto-standard/bmc.c:548-568 | two announcements of one grandmaster can be put in a circle with a third if and only if the attributes they claim order them against their topology |
| `ForeignMasters.ForeignTable.Remove` | proto-standard/bmc.c:1046-1070 | the record is taken out, the others keep their order, and the best index denotes the same record or -1 if that one went |
| `ForeignMasters.ForeignTable.AgeOne` | proto-standard/bmc.c:1083-1105 | a record goes exactly if it is not Ebest and its window is over |
| `ForeignMasters.ForeignTable.Age` | proto-standard/bmc.c:1083-1105 | ageing in place is the order-preserving filter of the records that stay; the Ebest test is not disturbed by the removals |
| `ForeignMasters.KeptExactly` | proto-standard/bmc.c:1083-1105 | in elapsed time: a record is kept if and only if it is Ebest or its last timed announce is no longer ago than the window |
| `ForeignMasters.KeptWithin` | proto-standard/bmc.c:1083-1105 | what is kept was in the table, and in the same order |
| `ForeignMasters.KeptStep` | proto-standard/bmc.c:1083-1105 | one removal or one step on commutes with the filter of the rest |
| `ForeignMasters.BestStep` | proto-standard/bmc.c:350-363 | removing a record that does not stay leaves the Ebest test and the best record alone, unless it is that record |
| `ForeignMasters.ForeignTable.FlushErbest` | proto-standard/bmc.c:1073-1081 | the best record is removed and none is held best |
| `ForeignMasters.ForeignTable.FindBest` | proto-standard/bmc.c:1193-1204 | the scan returns a record of least rank |
| `ForeignMasters.ForeignTable.UpdateErbest` | proto-standard/bmc.c:1177-1227 | no stored record is better than Erbest; there is one exactly if some record is qualified; link down, FAULTY and DISABLED empty the table |
| `ForeignMasters.BestIsErbest` | proto-standard/bmc.c:1193-1216 | a record of least rank is Erbest if it is qualified, and none is if it is not |
| `ForeignMasters.ForeignTable.FindWorst` | proto-standard/bmc.c:937-1034 | the scan returns a record of greatest rank, qualification ignored |
| `ForeignMasters.ForeignTable.InsertNew` | proto-standard/bmc.c:937-1034 | a free slot is taken; a full table keeps exactly the best of its records and the newcomer, qualification ignored |
| `ForeignMasters.ForeignTable.Add` | proto-standard/bmc.c:860-1034 | refusals; a known source's record is renewed, in elapsed time: an announce with the next number qualifies it exactly if no more than the window has passed since the last timed one, any other number leaves qualification and time alone; a new one is inserted; sources stay pairwise distinct and the count bounded |
| `ForeignMasters.RenewedOnTime` | proto-standard/bmc.c:953-965 | the renewal of a record, for all announces and times that a 32-bit counter can compare |
| `ForeignMasters.QualifiedExactly` | proto-standard/bmc.c:953-965 | over every sequence of announces of one source: it is qualified if and only if its last two timed announces, those with consecutive numbers, came within the window |
| `ForeignMasters.WorstDecides` | proto-standard/bmc.c:937-1034 | comparing the newcomer with the worst record decides what the best k of k + 1 are |
| `ForeignMasters.FindEbest` | proto-standard/bmc.c:1245-1291 | -1 exactly if no port has an Erbest; no other port's Erbest is better than the chosen one |
| `BmcClock.FollowsExactly` | proto-standard/bmc.c:574-821 | the decision is UNCALIBRATED or SLAVE if and only if the link is up, no better port is heard, the port holds Ebest, and the clock is slave-only with an Erbest or is no grandmaster and finds Ebest better |
| `BmcDecision.GrandmasterPort` | proto-standard/bmc.c:645-651 | a clock of class below 128 with an Ebest: a port is PASSIVE if and only if its Erbest is qualified and ranks before the clock's own data set; otherwise it is or becomes master |
| `BmcDecision.OrdinaryPort` | proto-standard/bmc.c:652-665 | any other clock: a port is or becomes master if Ebest does not rank before the clock; on the Ebest port it follows if it does, in SLAVE only if it was there and the parent is not new |
| `BmcDecision.OtherPort` | proto-standard/bmc.c:672-690 | Ebest is better and on another port: PASSIVE if and only if the port's Erbest is qualified, no worse by grandmaster than Ebest and worse by topology; master if Ebest is better by grandmaster or worse by topology or Erbest is not qualified |
| `BmcDecision.NobodyBetter` | proto-standard/bmc.c:617-643 | without Ebest, and on a master-only port, every port that decides is or becomes master; a clock of class 255 listens |
| `BmcDecision.Undecided` | proto-standard/bmc.c:590-611 | link down, a better port heard, FAULTY, INITIALIZING, slave-only clocks and LISTENING without Erbest: which state each is left or put in |
| `BmcDecision.SlaveOnlyClass` | proto-standard/bmc.c:692-780 | a clock of class 255 is never master or passive by decision |
| `BmcDecision.OwnOrder` | proto-standard/bmc.c:645-657 | the comparison with the clock's own data set is the order of ranks, also where a record names this clock as grandmaster |
| `BmcDecision.BetterPortExactly` | proto-standard/bmc.c:1121-1145 | a better port is heard if and only if some stored record is of this clock with a smaller port number |
| `BmcDecision.DecisionTaken` | fsm.c:313-357 | a pending decision is carried out by the next quiet call and its trigger consumed |
| `BmcDecision.NothingPending` | fsm.c:313-357 | a quiet call with nothing pending changes nothing, but that the extension may send a slave back |
| `BmcDecision.TimersLead` | fsm.c:313-320 | where an expired announce receipt or qualification timeout, a new grandmaster, readiness, a better port's announce, a fault and a failed send lead, the pending decision left pending |
| `BmcDecision.Alone` | proto-standard/bmc.c:633-643 | a clock that hears nobody has all its ports in MASTER after link up, initialisation and the announce receipt timeout, and keeps them there through any number of calculations of Ebest |
| `BmcClock.HandlerFollows` | fsm.c:313-320 | no state handler makes a port follow a master that did not |
| `BmcClock.AfterCallKeeps` | fsm.c:313-349 | a port that follows after a call followed before with trigger and last decision as they were, or was just decided to on the Ebest port with the clock's present class |
| `BmcClock.Clock.RunMachine` | fsm.c:232-357 | handler, pending decision, extension, in this order; the first to ask for another state ends the call; the invariant is kept; BmcDecision says which state results |
| `BmcClock.Clock.ChangeTable` | proto-standard/bmc.c:824-858 | an announce changes a port's table only |
| `BmcClock.Clock.CalculateEbest` | proto-standard/bmc.c:1294-1334 | the clock's quality may change and tables are aged; unless a port is initialising, Ebest moves and every port is triggered; the invariant is kept either way |
| `BmcEbest.CalculateEbest` | proto-standard/bmc.c:1237-1291 | the tables are kept but for ports without link, FAULTY or DISABLED; Erbest of all ports in turn, then the best of them: on every port of the clock no stored record beats Ebest unless Ebest moved on and the record, on a port before its old holder, was overlooked |
| `BmcEbest.EbestOverall` | proto-standard/bmc.c:350-363 | why a record can be overlooked: it counts only by the new source, or the Erbest chosen there counted only by the old one |
| `BmcEbest.SomeOverlooked` | proto-standard/bmc.c:1237-1242 | for a whole family of records this does happen |
| `BmcEbest.UpdateErbests` | proto-standard/bmc.c:1237-1242 | each port's Erbest is one by the source that counted as Ebest at its turn: the old one up to its holder, the new one after |
| `BmcClock.Clock.LinkUp` | arch-wrs/main-loop.c:142-153 | a link that comes up initialises its port |
| `BmcClock.Clock.LinkDown` | arch-wrs/main-loop.c:173-189 | a link that goes down disables its port and empties its table |
| `BmcClock.Clock.constructor` | proto-standard/open-close.c:140-149 | every clock starts with all ports disabled, where the invariant holds |
| `BmcClock.Run` | proto-standard/bmc.c:574-821 | in every run, the clock's own quality changing at will, a port with its trigger clear follows a master only if it holds Ebest, so at most one does once triggers are consumed; never a master-only port, and the clock was no grandmaster by class when the port took its last decision |
| `BmcClock.GrandmasterFollows` | proto-standard/bmc.c:1294-1316 | a run in which a port goes on following, its trigger clear, after its clock has become a grandmaster: the class changes while another port initialises |
| `BmcClock.GrandmasterLetsGo` | proto-standard/bmc.c:633-660 | a grandmaster's port that takes a decision stops following |
| `WrNode.Node.Run` | proto-ext-whiterabbit/wr-state-machine.c:51-77 | without an active extension, or in INITIALIZING, the port is led to IDLE; otherwise the next state is that of the handshake's graph, the state's message is sent exactly on entry and with every retry, the tries are counted, and the rely-guarantee invariant is kept |
| `WrNode.Node.Act` | proto-ext-whiterabbit/wr-state-machine.c:20-30 | the table of actions: each keeps the invariant and follows the graph |
| `WrNode.WaitExactly` | proto-ext-whiterabbit/state-wr-locked.c:18-62 | a waiting state is left exactly for the message its role awaits, however late, or in S_LOCK for a locked PLL, and given up exactly in silence with no time left |
| `WrNode.Node.IdleAction` | proto-ext-whiterabbit/state-wr-idle.c:14-71 | a master starts on SLAVE_PRESENT, any other port on a newly detected WR parent with the extension active; with no parent detected nothing changes, and one without WR ends the extension |
| `WrNode.Node.IdleMaster` | proto-ext-whiterabbit/state-wr-idle.c:19-36 | SLAVE_PRESENT leads to M_LOCK; any WR message enables the extension |
| `WrNode.Node.MeetWrParent` | proto-ext-whiterabbit/state-wr-idle.c:38-57 | the port becomes a WR slave bound for PRESENT, and a PTP slave is sent back to UNCALIBRATED |
| `WrNode.Node.MeetOtherParent` | proto-ext-whiterabbit/state-wr-idle.c:58-67 | a parent without WR ends the extension |
| `WrNode.Node.PresentAction` | proto-ext-whiterabbit/state-wr-present.c:20-63 | SLAVE_PRESENT is sent exactly on entry and on retries, LOCK leads to S_LOCK, the time-out to IDLE |
| `WrNode.Node.MLockAction` | proto-ext-whiterabbit/state-wr-m-lock.c:18-62 | entering makes the port a WR master; LOCK is sent exactly on entry and on retries, LOCKED leads to CALIBRATION |
| `WrNode.Node.SLockAction` | proto-ext-whiterabbit/state-wr-s-lock.c:14-51 | only a locked PLL leads to LOCKED |
| `WrNode.Node.LockedAction` | proto-ext-whiterabbit/state-wr-locked.c:18-62 | LOCKED is sent, the servo may start, CALIBRATE leads to RESP_CALIB_REQ |
| `WrNode.Node.CalibrationAction` | proto-ext-whiterabbit/state-wr-calibration.c:18-55 | the port's own latencies are published and handed to the servo exactly |
| `WrNode.Node.CalibratedAction` | proto-ext-whiterabbit/state-wr-calibrated.c:18-69 | the port's latencies are sent; CALIBRATE takes a master on, WR_MODE_ON a slave |
| `WrNode.Node.ReceiveCalibrated` | proto-ext-whiterabbit/state-wr-calibrated.c:29-45 | which message takes which role on, and what it proves of the peer |
| `WrNode.Node.RespCalibReqAction` | proto-ext-whiterabbit/state-wr-resp-calib-req.c:14-58 | CALIBRATED, even on entry, leads on by role; a retry sends nothing |
| `WrNode.Node.StorePeer` | proto-ext-whiterabbit/state-wr-resp-calib-req.c:27-42 | the peer's latencies are stored in the servo exactly |
| `WrNode.Node.LinkOnAction` | proto-ext-whiterabbit/state-wr-link-on.c:15-30 | a master that cannot send WR_MODE_ON stays; otherwise WR mode is on and the handshake over |
| `WrNode.Node.CheckTimer` | proto-ext-whiterabbit/state-wr-present.c:45-56 | by the time left: nothing, one retry less and another try, or failure |
| `WrNode.TimerExactly` | proto-ext-whiterabbit/state-wr-present.c:45-56 | a retry is due if and only if the timeouts still to come are no more than the tries left; with no time left the port gives up |
| `WrNode.Node.HandshakeFail` | proto-ext-whiterabbit/common-fun.c:28-51 | back to IDLE; with PTP fallback the extension and the servo's part in it end, without it the servo asks for a restart and nothing else changes |
| `WrNode.Node.ResetProcess` | proto-ext-whiterabbit/common-fun.c:9-25 | role and WR mode are reset, a parent's data unless the port is to be a slave |
| `WrNode.Node.DisableExtension` | fsm.c:360-369 | an active extension becomes plain PTP and the handshake's role is dropped |
| `WrNode.Node.StateChange` | proto-ext-whiterabbit/hooks.c:228-291 | what every PTP transition does to role, next state, parent data and extension; a slave going back to UNCALIBRATED starts again only if WR mode was off |
| `WrNode.LeavingEnds` | proto-ext-whiterabbit/hooks.c:240-249 | leaving MASTER or SLAVE in WR mode ends it whatever comes next, and the parent is forgotten |
| `WrNode.EnteringMeans` | proto-ext-whiterabbit/hooks.c:250-274 | the other changes field by field: roles, next state and parent data of MASTER, LISTENING and both ways into UNCALIBRATED |
| `WrNode.Node.Initialize` | proto-standard/state-initializing.c:122-130 | a port that is initialised has its configured extension again and no role |
| `WrNode.Node.LinkUp` | arch-wrs/main-loop.c:147-153 | the port is to be initialised, without any hook; the invariant is kept |
| `WrNode.Node.LinkDown` | arch-wrs/main-loop.c:173-189 | the extension ends, the state of the handshake stays behind, and the Ebest port's servo is to restart |
| `WrNode.Node.NewSlave` | proto-ext-whiterabbit/hooks.c:333-345 | entering UNCALIBRATED with the extension active readies the servo for a restart |
| `WrNode.Node.ActiveChange` | proto-ext-whiterabbit/hooks.c:240-274 | the same with the extension active: WR mode ends on leaving MASTER or SLAVE, then the next state has its effect |
| `WrNode.Node.EnterPtp` | proto-ext-whiterabbit/hooks.c:250-274 | what the entered state asks for, case by case |
| `WrNode.Node.Announced` | proto-ext-whiterabbit/hooks.c:162-225 | what an announce tells of the parent, and when it counts as a new one |
| `WrNode.Node.ReadyForSlave` | proto-ext-whiterabbit/hooks.c:293-299 | a port is ready if and only if its extension is not active or WR mode is on at both ends with the handshake at rest; then it had its own LINK_ON since the last reset |
| `WrNode.Node.Unpack` | proto-ext-whiterabbit/wr-msg.c:236-248 | only CALIBRATED changes what the port knows of its peer's latencies |
| `WrNode.Node.Issue` | proto-ext-whiterabbit/wr-msg.c:260-265 | what is sent is genuine of the port: its exact latencies, and WR_MODE_ON only once linked |
| `WrNode.FixedDeltaToTime` | lib/time-arith.c:116-124 | the time of a FixedDelta is a thousandth of it, canonical |
| `WrNode.Encoded` | proto-ext-whiterabbit/state-wr-calibration.c:25-40 | two 32-bit words whose value divided by 1000 gives the latency back |
| `WrNode.Node.constructor` | proto-ext-whiterabbit/hooks.c:28-44 | a port begins without a role, where the invariant holds |
| `WrLink.EndsLinked` | proto-ext-whiterabbit/state-wr-link-on.c:15-30 | from the two ends' invariants: a slave in WR mode has a locked PLL, a master that ran LINK_ON, and both servos hold both ports' latencies exactly |
| `WrLink.Happen` | proto-ext-whiterabbit/wr-state-machine.c:51-77 | whatever happens at one end keeps the invariants of both |
| `WrLink.RunEnd` | proto-ext-whiterabbit/wr-state-machine.c:51-77 | what an end sends in one call of its extension is genuine of it, so the other end may rely on it |
| `WrLink.Run` | proto-ext-whiterabbit/state-wr-calibrated.c:33-45 | in every run over a link that loses, repeats and reorders messages, with links going down and up and ports initialised again, a slave in WR mode is linked in the full sense, and no port with its extension active went from UNCALIBRATED to SLAVE without its own LINK_ON since the last reset |
| `WrLink.Relink` | proto-standard/state-initializing.c:122-130 | a port whose link went down and up, initialised and told of a WR parent, is bound for PRESENT again, from where the handshake can be completed |
| `WrLink.Handshake` | proto-ext-whiterabbit/state-wr-link-on.c:15-30 | from any past of both ports, a link that delivers in time takes a slave with a WR parent and a PTP master to WR mode on both sides |
| `WrLink.BecomeSlave` | proto-ext-whiterabbit/hooks.c:293-299 | after the handshake the slave's next run takes it to IDLE and it becomes SLAVE if and only if no other WR parent was detected; in WR mode if none was at all |
| `WrLink.Establish` | proto-ext-whiterabbit/hooks.c:293-299 | from initialisation, the announce of a WR master and a link that delivers in time, the port ends in SLAVE and both ports in WR mode |
| `WrLink.WaitInVain` | proto-ext-whiterabbit/state-wr-present.c:20-63 | a state that waits in vain, its timer looked at once a timeout or more often, sends its message four times and then gives up |
| `WrLink.Lock` | proto-ext-whiterabbit/state-wr-s-lock.c:14-51 | SLAVE_PRESENT, LOCK and LOCKED take the master to CALIBRATION and the slave to LOCKED |
| `WrLink.Calibrate` | proto-ext-whiterabbit/state-wr-calibrated.c:18-69 | both ports' latencies cross the link; the master goes to LINK_ON, the slave waits in CALIBRATED |
| `WrLink.SwitchOn` | proto-ext-whiterabbit/state-wr-link-on.c:15-30 | WR_MODE_ON takes both to WR mode |
| `WrMsg.OnTheWire` | proto-ext-whiterabbit/wr-msg.c:74-257 | a packed message is unpacked as it was sent: its id, a CALIBRATED message's latencies and a CALIBRATE message's pattern, retries and period to the bit |
| `WrMsg.Pack` | proto-ext-whiterabbit/wr-msg.c:74-153 | header, target, TLV, id, payload and both lengths are where they belong, whatever the frame held before; 62 octets for CALIBRATE, 72 for CALIBRATED and 56 otherwise, and nothing beyond them is touched |
| `WrMsg.LengthCovers` | proto-ext-whiterabbit/wr-msg.c:107-150 | the length is exactly that of the octets stored |
| `WrMsg.TlvStored` | proto-ext-whiterabbit/wr-msg.c:96-105 | words cut across type, organisation, magic number and version put each in its place |
| `WrMsg.Unpack` | proto-ext-whiterabbit/wr-msg.c:156-257 | a frame is taken if and only if type, organisation, magic number and version are right |
| `WrMsg.Words` | proto-ext-whiterabbit/wr-msg.c:173-180 | the shifts and masks put the cut fields together again |
| `SeqLock.OneSnapshot` | arch-wrs/shmem.c:217-281 | in every interleaving, with the 32-bit counter, an accepted read during which fewer than 2^30 sections ended overlaps no store, and all it loaded is of one published state |
| `SeqLock.AcceptedExactly` | arch-wrs/shmem.c:269-281 | the check passes if and only if the reader began outside a section, where the writer now is, and a multiple of 2^30 sections ended since |
| `SeqLock.TornAfterRound` | arch-wrs/shmem.c:236-281 | the bound is exact: after 2^30 sections a read of two values that never were together is accepted |
| `SeqLock.EveryRun` | arch-wrs/shmem.c:217-281 | the invariant holds after every interleaving |
| `SeqLock.Moves` | arch-wrs/shmem.c:236-262 | what each of the four stores does to the sequence number, wrap-around included |
| `WrhServo.Servo.Update` | proto-ext-common/wrh-servo.c:185-341 | not ready, PLL lost (restart) and hardware busy leave the servo alone; otherwise one step of the machine; counters are never moved by seconds and nanoseconds at once |
| `WrhServo.Servo.Act` | proto-ext-common/wrh-servo.c:235-339 | the choice of the state by the offset, and its action |
| `WrhServo.Converges` | proto-ext-common/wrh-servo.c:235-341 | with a clock that obeys, four updates after SYNC_TAI the servo tracks and goes on doing so for ever; twelve after any other initialised state, unless it is tracking below a tick already |
| `WrhServo.Approaches` | proto-ext-common/wrh-servo.c:235-341 | with every update what is ahead shrinks by one until the servo has settled |
| `WrhServo.StaysSettled` | proto-ext-common/wrh-servo.c:316-337 | tracking keeps itself; the offset never grows, and shrinks while it is four picoseconds or more |
| `WrhServo.TrackingExactly` | proto-ext-common/wrh-servo.c:316-337 | below a tick, tracking is left if and only if it is enabled and the offset exceeds 120 ps, and then the phase is set anew |
| `WrhServo.QuarterOff` | proto-ext-common/wrh-servo.c:327-331 | a quarter of the offset taken off never overshoots |
| `WrhServo.PhaseSet` | proto-ext-common/wrh-servo.c:274-283 | setting the phase leaves less than 34 units of 2^-16 ns |
| `WrhServo.TicksTaken` | proto-ext-common/wrh-servo.c:268-272 | moving the counters by the ticks leaves none, through the rounding of hardwarize |
| `WrhServo.LargeOffset` | proto-ext-common/wrh-servo.c:257-272 | an offset of seconds or ticks is taken off by the counters and leads to SYNC_PHASE |
| `WrhServo.SmallOffset` | proto-ext-common/wrh-servo.c:274-314 | setting the phase and waiting for it to be stable lead to TRACK_PHASE |
| `WrhServo.WaitsForTen` | proto-ext-common/wrh-servo.c:299-314 | whatever is measured: ten unstable offsets in all are waited for, no fewer, before the phase is set anew |
| `WrhServo.StableTracks` | proto-ext-common/wrh-servo.c:299-314 | a stable offset before that leads to TRACK_PHASE |
| `CorrectionField.RoundTrip` | proto-standard/state-slave.c:149-163 | in compliant mode the slave's round trip is exactly (T4-T1)-(T3-T2)-R1-R2 after pack, wire and unpack; the White Rabbit convention loses R2 |
| `CorrectionField.SyncPath` | proto-standard/state-slave.c:51-110 | t1 is T1 plus what transparent clocks added to Sync and Follow_Up, to the bit |
| `CorrectionField.DelayPath` | proto-standard/msg.c:300-352 | t4 is T4 less what they added to Delay_Req, for every asymmetry unchanged between request and response |
| `CorrectionField.HandleFollowUp` | proto-standard/state-slave.c:106-110 | t1 is the Sync's correction, the stamp and the Follow_Up's correction together |
| `CorrectionField.HandleResponse` | proto-standard/state-slave.c:149-163 | t4 by the compliant or the White Rabbit convention |
| `CorrectionField.PackFollowUp` | proto-standard/msg.c:270-289 | stamp in whole nanoseconds, the fraction in the correction field |
| `CorrectionField.PackDelayResp` | proto-standard/msg.c:327-345 | the request's correction less the stamp's fraction, or the fraction alone |
| `CorrectionField.PackStamp` | proto-standard/msg.c:142-146 | 48 bits of seconds and 32 of nanoseconds, each cut to its width, in network order; nothing else is touched |
| `CorrectionField.UnpackStamp` | proto-standard/msg.c:148-152 | the stamp in the frame |
| `CorrectionField.PackCorrection` | proto-standard/msg.c:286-287 | the signed 64-bit correction in network order; the stamp is not touched |
| `CorrectionField.UnpackCorrection` | proto-standard/msg.c:39-40 | the signed correction in the frame |
| `CorrectionField.CutIsExact` | proto-standard/msg.c:142-152 | stamp and fraction carry a time if and only if it is not negative and fits the fields |
| `SlavePairing.Run` | proto-standard/state-slave.c:34-182 | over every sequence of messages and timeouts the servo's updates are exactly those due, in the order of the responses: a response to the last request, with correct stamps, and the last pair completed before it that no response has used up |
| `SlavePairing.TwoStepExchange` | proto-standard/state-slave.c:79-182 | a two-step Sync, its first Follow_Up and the next response to the last request, with correct stamps and no other Sync of the master up to it, are an update that is due |
| `SlavePairing.OneStepExchange` | proto-standard/state-slave.c:34-77 | the same for a one-step Sync |
| `SlavePairing.SyncsAdvance` | proto-standard/servo.c:349-376 | no Sync feeds two updates: those of a later response come after the earlier one |
| `SlavePairing.UpdateMeasures` | proto-standard/state-slave.c:34-182 | what an update tells, by the stamps and corrections on its messages, exactly |
| `SlavePairing.Port.HandleSync` | proto-standard/state-slave.c:34-77 | a two-step Sync of the master is waited for and a one-step one is not; the latter is a pair exactly if its stamps are correct; the port waits exactly while a Sync is to be followed up |
| `SlavePairing.Port.HandleFollowUp` | proto-standard/state-slave.c:79-127 | taken exactly if awaited and of the same number; the wait is over then, and the pair is complete exactly if its stamps are correct |
| `SlavePairing.Port.GotSync` | proto-standard/servo.c:327-346 | the pair goes to the servo and is the last one completed |
| `SlavePairing.Port.IssueRequest` | proto-standard/fsm-lib.c:127-142 | the 16-bit number moves on and t3 is the stamp of this request |
| `SlavePairing.Port.HandleResponse` | proto-standard/servo.c:349-376 | an update happens exactly if the response is for this port, from its master, of the last number, a pair is there and the stamps are correct; the pair is used up either way |
| `SlavePairing.UnaskedResponse` | proto-standard/state-slave.c:138-147 | before the first request the rule fails: a response with the initial number is taken with a t3 that no request had |
| `SlavePairing.AskedExactly` | proto-standard/state-slave.c:138-147 | t3 is the stamp of a request, the last before the response, if there was one, and else what it was at first |
| `SimSchedule.MainLoop` | arch-sim/main-loop.c:54-98 | while fewer than 64 packets are in flight a late packet never ends the simulation, and no Follow_Up arrives before its Sync; without jitter and growing delays the messages are read in this order too |
| `SimSchedule.Next` | arch-sim/main-loop.c:73-81 | time moves on to the first arrival, which is received; the loop subtracts what is left of the packet's delay then: nothing, or what the delays grew by |
| `SimSchedule.Arrival` | arch-sim/main-loop.c:73-89 | the new timeout is the smaller of the state machines' and of the old one less what the delays grew by, so with growing delays it can become negative |
| `SimSchedule.Timeout` | arch-sim/main-loop.c:94-95 | when no packet comes in time, time moves on by the timeout, which is always possible, and the next one is the state machines' |
| `SimSockets.ReadAt` | time-sim/sim-socket.c:134-162 | the n-th arrival brings the message with as many before it in its socket as packets of the channel arrive before |
| `SimSockets.ReadBeforeExactly` | time-sim/sim-socket.c:134-162 | in any state, a message with k others before it in its socket is read before an arrival on another channel if and only if more than k packets of its channel are due before that |
| `SimQueue.Queue.Insert` | time-sim/sim-socket.c:44-61 | the packet goes behind all that are not worse and before all that are, whatever the word before the array holds; the array stays sorted |
| `SimQueue.Queue.Pop` | time-sim/sim-socket.c:63-73 | the first packet goes, the others keep their order |
| `SimQueue.Queue.FastForward` | time-sim/sim-time.c:93-107 | every delay moves alike, the order stays; the simulation ends exactly if a packet would be late |
| `SimQueue.Queue.Grow` | time-sim/sim-time.c:51-71 | the propagation delays' growth reaches every packet; no delay needs the clamp to zero |
| `SimQueue.InsertedSorted` | time-sim/sim-socket.c:25-61 | insertion at its place keeps the order of (delay, receiver, channel) |
| `SimQueue.TiesBroken` | time-sim/sim-socket.c:25-42 | in flight the earlier arrival is first, at equal times the slave's, and to one receiver the event socket's |
| `SimSchedule.Sim.SendPkt` | time-sim/sim-socket.c:196-224 | a packet with its delay joins those in flight; what was in order stays so |
| `SimSchedule.Sim.SendPair` | time-sim/sim-socket.c:203-223 | a Follow_Up, with the Sync's jitter on top, gets behind its Sync |
| `SimSchedule.Sim.Forward` | time-sim/sim-time.c:79-110 | moving to no later than the first arrival is always possible |
| `SimSchedule.Sim.Receive` | time-sim/sim-socket.c:134-162 | the packet that is next in order arrives, and the oldest message of its socket is read |
| `SimSchedule.ArrivedInSequence` | time-sim/sim-socket.c:203-214 | from the order of all packets: every Follow_Up that has arrived did so after its Sync |
| `SimSchedule.MasterCycle` | proto-standard/state-master.c:98-99 | into whatever is in flight, no older Sync being there: the Follow_Up is read before its Sync if and only if the Announce sent with them drew a smaller jitter than the Sync and no older general message is due after the Sync |

## Left out

- P2P delay measurement, external port configuration, the L1Sync extension, management messages: not modelled.
- Data sets, UTC offset and leap seconds: the decisions of the best master clock algorithm are modelled, what they write to the data sets is not.
- The PI controller, its filters and `control_timing_output`: not modelled; the standard servo ends at offsetFromMaster.
- `pp_time_div2` is not used by what is modelled.
- Clock identities are modelled as 64-bit numbers in network order; a comparison of their octets is that of the numbers.
- Milliseconds in the foreign master table are 32-bit, as where `unsigned long` is 32 bits wide.
- BmcDecision.OtherPort: where two records tie in the order, or a record came back to its sender, the source reports an error; the latter is excluded here as the packet filter excludes it.
- ServoDelays.Servo.OffsetOfAsymmetricPath: the delays' ratio is exactly the configured one, and no constant asymmetry is configured besides.
- ServoDelays.Servo.CalculateDelays: stamps whose round trip in picoseconds fits 64 bits, and an asymmetry whose products in the source fit.
- BmcClock.Clock.CalculateEbest: takes the clock's new quality, the ports' tables and Ebest as inputs that may be anything; BmcEbest.CalculateEbest says what the source makes of the tables, ForeignMasters.ForeignTable.Age what ageing does before.
- WrNode.Node.Run: the protocol detection state is not modelled, except that it decides whether the extension may be enabled.
- WrLink.Run: the PTP transitions at both ends are arbitrary except that UNCALIBRATED becomes SLAVE only through wr_ready_for_slave; both ports' latencies are fixed, also when a link comes up again, not negative, and 1000 times them fits 63 bits.
- WrMsg.Pack: calPeriod is stored as on a little-endian host, and a calibration retry count fits one octet.
- WrhServo.Servo.Update: the clock period is a positive multiple of 1000 ps, as the hardware's is; the set point is not cut to 32 bits.
- WrhServo.Converges: the clock moves its counters exactly and its phase up to the grain of the next measurement.
- SeqLock.OneSnapshot: stores and loads take effect in program order; the functions of shmem.c are split into single stores and modelled on values, since the reader runs between them.
- SlavePairing.Run: a reset of the servo on entering UNCALIBRATED is not modelled; one parent throughout.
- SimSchedule.MainLoop: times are unbounded integers, and the run is followed until a 64th packet would be in flight.
- SimSchedule.MasterCycle: what is read if nothing more is sent meanwhile.
- Sockets, VLANs, diagnostics, configuration parsing and start-up code: not modelled.
