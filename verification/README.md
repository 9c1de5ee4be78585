# A verified model of the FreeRTOS NTPv4 client

The client keeps a table of five associations, filters the samples of each,
selects and combines the trustworthy ones, disciplines a tick-driven local clock
with the result and decides when to poll again (RFC 5905, sections 6 to 13).
These Dafny modules follow the C files under `src/` and prove what their code
keeps over every call and every run.

| module | follows |
|---|---|
| `Words`, `HalfWord`, `Bisection`, `Decimal`, `LocalTime` | `NTP_TDMG.c`, and the local-time part of `NTP_main_utility.c` |
| `Codec` | the packet part of `NTP_main_utility.c` |
| `Generator` | `uxRand` of `main_networking.c` |
| `Ntp`, `Association` | the structures, their initialization, root distance, fitness, the invariants |
| `Chimes`, `Combine`, `SystemProcess` | `NTP_system_process.c` |
| `Discipline`, `Slewing`, `Vfo` | `NTP_vfo.c` |
| `Reach`, `PeerProcess` | `NTP_peer.c` |
| `PollTimer`, `PollProcess` | `NTP_poll.c` |
| `Upkeep`, `Rounds`, `Client` | `clock_adjust`'s peer loop and `NTPTask.c`: what each peer keeps, the turns of a tick, initialization and every run |

Structures that the C code updates in place are classes (`Clock`, `Sys`, `Peer`,
`Spread`, `Rand`, `Packet`, `ReceiveBuffer`, `NtpClient`); its buffers and lists
are arrays. Each method is tied to a function or relation on values, and the
theorems are lemmas about those and invariants that every method keeps. A C
`double` is a `real`; fixed-width integers wrap explicitly. Values that the
program leaves unspecified arrive in a `Junk` parameter: `found` and `state`,
which are read but never set, a quotient by zero, the conversion of an
out-of-range double, a field read through a null pointer, and the edge before
the chime list. Every theorem holds for all of them.

## What the model shows about the code

- `intersection` keeps no majority. It returns the last lower edge before the
  least offset and the least upper edge. A point common to all intervals is never
  cut off, but one source whose interval ends early puts the midpoint and upper
  edge of every source centred beyond it outside. Such a source leaves the
  survivor list exactly when its lower edge lies outside too; otherwise it stays
  and is combined (`Chimes.ShutOutExactly`, `Chimes.LateSourceSurvives`).
- The survivor list is in edge order, not in the order of the metric the comment
  announces, so the first survivor is the source whose interval starts last before
  the least offset (`Chimes.FirstSurvivorStartsLast`). The old system peer is
  chosen again when it shares the first survivor's stratum, even if it is neither
  fit nor on the list, although the comment says it must be on it
  (`SystemProcess.ChosenFit`).
- The sentinel loop of `clock_combine` averages everything below the high-water
  mark of the survivor list, including entries left by earlier selections.
- `clock_filter` adds to the peer's dispersion and jitter and nothing resets them.
  One dummy sample leaves a dispersion of at least 8 s, which no distance test
  passes, so a peer that lets two neighbouring poll intervals pass in silence is
  never fit again, whatever plausible message it sends later
  (`Client.NtpClient.Run`). A message is implausible if the header checks accept
  it and its sample has a negative dispersion, which `PeerProcess.SampleDispersion`
  characterizes. One such message lowers the dispersion, and the root distance can
  fall below zero (`PeerProcess.BackdatedReplySinks`).
- A synchronized clock is never stepped, because an outlier in state SYNC returns
  at once; the spike state is never entered. A client that enters frequency
  measurement never leaves it: an inlier changes the frequency but not the state,
  and an outlier always finds a zero interval, because `clock_update` has already
  overwritten the time of the last update. So without a stored frequency it never
  synchronizes as long as the unset `state` reads as NSET.
- Only the fraction word of an offset reaches the local time.
- `subtract_uint64_t` returns a magnitude; it turns negative at 2^63 and so can a
  sample's dispersion. `add_int64_t` loses the high half whenever bit 31 of the sum
  is set.
- `double_to_str` loses a carry out of the fraction: 0.96 to one place prints 0.10.
- The reference identifier is the one word sent in host order, and `packet`
  compares the raw 16.16 root delay and dispersion with MAXDISP.

## Model

| member | source | states |
|---|---|---|
| Chimes.TruthNeverCutOff | src/NTP_system_process.c:80-141 | a point in every correctness interval lies between low and high |
| Chimes.IntervalStraddlesLeastOffset | src/NTP_system_process.c:93-140 | low is at most the least offset, which is below high, so the interval is never empty |
| Chimes.IntervalExact | src/NTP_system_process.c:93-140 | the interval is exactly the intersection of all intervals if and only if no lower edge exceeds low |
| Chimes.IntervalExactWhenLowersLead | src/NTP_system_process.c:93-140 | in particular when every lower edge precedes the first midpoint |
| Chimes.EarlySourceCutsMidpoint | src/NTP_system_process.c:99-111 | an interval that ends before a source's offset puts that source's midpoint and upper edge beyond high, however many others agree with it |
| Chimes.ShutOutExactly | src/NTP_system_process.c:174-189 | no edge of a source survives if and only if its offset lies beyond high and its lower edge outside the interval |
| Chimes.LateSourceSurvives | src/NTP_system_process.c:174-189 | two sources for which high ends before the later offset, and the later source is listed all the same |
| Chimes.EndsAreEdges | src/NTP_system_process.c:91-128 | with positive distances both reported ends are edges of the list, whatever is read before it |
| Chimes.ScansStop | src/NTP_system_process.c:102-128 | both scans stop at a real entry, the lower one never at index 0, and only lower edges precede the first midpoint |
| Chimes.HighIsLeastUpper | src/NTP_system_process.c:99-111 | high is the least upper edge of all sources |
| Chimes.PrefixesNest | src/NTP_system_process.c:43-63 | in every prefix of the sorted list upper edges belong to peers whose midpoint, and midpoints to peers whose lower edge, has passed |
| Chimes.SurvivorsExact | src/NTP_system_process.c:174-189 | a chime survives as often as it is listed if its edge lies within the interval and not at all otherwise |
| Chimes.ThreeSurvive | src/NTP_system_process.c:174-201 | with one source at least three entries survive, so the NSANE exit is not taken |
| Chimes.FirstSurvivorIsLowEnd | src/NTP_system_process.c:175-187 | the first survivor is a lower edge and it is the low end |
| Chimes.FirstSurvivorStartsLast | src/NTP_system_process.c:175-187 | the first survivor is the source whose interval starts last among those starting before every offset |
| SystemProcess.FitSourcesMembers | src/NTP_system_process.c:41-44 | the culled sources are those of the fit peers, no more and no fewer |
| SystemProcess.QSort | src/NTP_system_process.c:17-63 | the first n entries end up sorted by edge and are a permutation of what they were |
| SystemProcess.AddChimes | src/NTP_system_process.c:44-60 | a fit peer appends its three typed edges in order, an unfit one nothing |
| SystemProcess.FillChimes | src/NTP_system_process.c:41-61 | the chime list is the edges of the fit peers in table order |
| SystemProcess.Cull | src/NTP_system_process.c:34-71 | the list is sorted and holds exactly the three entries of each fit peer |
| SystemProcess.FitInFields | src/NTP_peer.c:222-259 | the five tests of fitness on the fields of the peer |
| SystemProcess.ListedPeerQualifies | src/NTP_system_process.c:41-189 | every peer a selection lists is synchronized, of stratum 1 to 15, in no loop, within the distance threshold, has answered in the last 32 intervals, and carries its metric |
| SystemProcess.QualifiedPeerIsListed | src/NTP_system_process.c:41-201 | every table peer meeting these conditions contributes its three edges, and while no dispersion is negative its presence makes the selection choose a peer |
| SystemProcess.FitSourcesPositive | src/NTP_system_process.c:48-58 | while no dispersion is negative every fit source has a positive distance |
| SystemProcess.ScanUpper | src/NTP_system_process.c:99-111 | the running count first falls at the first upper edge |
| SystemProcess.ScanLower | src/NTP_system_process.c:117-128 | the count first stays at the first midpoint, and its predecessor, or the entry before the list, gives low |
| SystemProcess.Intersection | src/NTP_system_process.c:80-141 | for every list of typed entries the endpoints are the same for every value of found and every pass of the outer loop; with no source they are the start values |
| SystemProcess.AddSurvivor | src/NTP_system_process.c:183-186 | appends one entry with its metric and changes no other |
| SystemProcess.Collect | src/NTP_system_process.c:174-189 | the survivor list is the in-order filter of the chime list |
| SystemProcess.ListSurvivors | src/NTP_system_process.c:174-189 | entries are non-null exactly below the high-water mark, which becomes the longer of the two lists |
| SystemProcess.SelectionJitter | src/NTP_system_process.c:221-227 | the square root of the sum over n entries, as the macro expands |
| SystemProcess.MacroSum | src/NTP_system_process.c:221-226 | over a list without null entries the sum depends on the other offsets only through their sum |
| SystemProcess.Extremes | src/NTP_system_process.c:215-233 | max is below min if and only if every selection jitter is below every peer jitter |
| SystemProcess.Cluster | src/NTP_system_process.c:210-251 | the loop ends, at the greatest length at which its condition holds and at none before |
| SystemProcess.CombineSums | src/NTP_system_process.c:452-460 | the sentinel loop ends inside the array and computes the three sums of quotients |
| SystemProcess.TotalsAreSums | src/NTP_system_process.c:452-460 | when every listed peer has a positive distance these are the weighted sums |
| SystemProcess.ClockCombine | src/NTP_system_process.c:434-472 | the system offset and jitter are the quotients of the whole list's sums |
| SystemProcess.CombinedOfFar | src/NTP_system_process.c:434-472 | which are then the weighted mean and the root of the mean square deviation |
| SystemProcess.CombinedIsConvex | src/NTP_system_process.c:452-470 | and the system offset lies between the least and greatest listed offset |
| SystemProcess.TwoSurvivors | src/NTP_system_process.c:452-471 | two survivors share the weight in inverse proportion to their distances, and the jitter is the root of the squared difference so weighted |
| Combine.OffsetIsConvex | src/NTP_system_process.c:457-470 | the weighted mean is a convex combination |
| Combine.MeanSquareBounded | src/NTP_system_process.c:459-471 | the mean square lies between zero and the greatest product of a deviation with itself |
| Combine.CombinedOffsetMoves | src/NTP_system_process.c:457-470 | moving every offset by a constant moves the result by that constant |
| Combine.MeanSquareKept | src/NTP_system_process.c:459-471 | and leaves the mean square as it was |
| Combine.DeviationIsSquare | src/NTP_system_process.c:459 | a survivor's term is the product of its difference with itself and its weight |
| Combine.CombiningScales | src/NTP_system_process.c:457-471 | multiplying every offset by k multiplies the offset by k and the mean square by k * k |
| SystemProcess.TakePeer | src/NTP_system_process.c:409-418 | the system variables become those of the server one stratum below the peer |
| SystemProcess.Announce | src/NTP_system_process.c:373-426 | a step resets stratum and poll, a slew follows the peer, a panic or an ignored sample changes nothing |
| SystemProcess.ClockUpdate | src/NTP_system_process.c:347-427 | an older sample changes nothing; otherwise the list is combined, the discipline updated, and exactly the system variables of the outcome rewritten |
| SystemProcess.DisciplinedKeepsRange | src/NTP_system_process.c:368-426 | an update keeps all ranges, never moves the state machine back, leaves FREQ and SYNC where they are and never steps a synchronized clock |
| SystemProcess.EffectIsProgress | src/NTP_system_process.c:347-427 | whatever a selection ends with, times do not fall, and process time grows by at most one |
| SystemProcess.FirstIsFit | src/NTP_system_process.c:175-187 | every entry of the chime list names a fit peer of the table |
| SystemProcess.ListTruechimers | src/NTP_system_process.c:158-189 | from any state, the survivor list is the filtered chime list followed by what was there, led by a fit peer |
| SystemProcess.Pick | src/NTP_system_process.c:259-268 | the old system peer when it is at the first survivor's stratum, else the first survivor |
| SystemProcess.Select | src/NTP_system_process.c:152-268 | no system peer if and only if nothing survives; otherwise one is picked, with the survivor count clustered |
| SystemProcess.ClockSelect | src/NTP_system_process.c:152-273 | one selection end to end from any state, with its effect on list, peer, discipline and system variables, keeping every invariant |
| SystemProcess.ListLeads | src/NTP_system_process.c:158-201 | while no dispersion is negative, nothing survives if and only if no peer is fit, otherwise at least three entries do, led by the fit source that starts last |
| SystemProcess.SelectionLeads | src/NTP_system_process.c:152-273 | so the NSANE exit is taken if and only if no peer is fit, and the offset computed lies between any bounds on the table's offsets |
| SystemProcess.ChosenFit | src/NTP_system_process.c:259-268 | the peer chosen is fit if and only if it is not an unfit old system peer of the first survivor's stratum |
| SystemProcess.ChoiceInFields | src/NTP_system_process.c:259-368 | which peer is chosen, and that its sample is stale if and only if older than the last one used |
| SystemProcess.SlewFollowsPeer | src/NTP_system_process.c:409-418 | after a slew every announced variable is the chosen peer's, and the root dispersion grows by at least MINDISP, by the stated sum |
| SystemProcess.OtherOutcomesKeep | src/NTP_system_process.c:373-426 | every other outcome leaves them alone, except that a step resets the stratum |
| SystemProcess.EffectOnClock | src/NTP_system_process.c:368-399 | a selection moves the local time only by a step, and then by the combined offset |
| Association.RootDistFloor | src/NTP_system_process.c:288-300 | a peer of non-negative dispersion has a root distance of at least MINDISP/2, so weights are finite and intervals proper |
| Association.DispersionEight | src/NTP_peer.c:222-259 | a peer whose dispersion has reached 8 s is not fit at any poll interval the system can have |
| Discipline.UpdateKeepsRange | src/NTP_vfo.c:15-259 | an update keeps poll in 6..17 and the counter in -30..30, never enters the spike state, and leaves the frequency alone or clamped |
| Discipline.RunKeepsRange | src/NTP_vfo.c:43-259 | the same over every run |
| Discipline.StepMovesClock | src/NTP_vfo.c:31-124 | exactly when an update steps or panics; a step takes the offset's units off the local time and starts over, nothing else moves it |
| Discipline.InlierMoves | src/NTP_vfo.c:126-209 | where an offset inside the step threshold takes the state, the offset and the frequency |
| Discipline.JitterForgets | src/NTP_vfo.c:134-142 | the clock jitter is half the last move of the offset, or half the precision, whatever it was before |
| Discipline.WanderMixes | src/NTP_vfo.c:218-222 | the wander mixes a quarter of the new square with three of the old |
| Discipline.PllGainInNumbers | src/NTP_vfo.c:203-205 | the phase-locked share times its squared time constant is the offset over the shorter interval |
| Discipline.FllGainInNumbers | src/NTP_vfo.c:190-195 | the frequency-locked share, used from a poll interval of 2^10 on |
| Discipline.RateInNumbers | src/NTP_vfo.c:69-69 | a measured rate times the interval is the change of the offset |
| Discipline.SyncUpdateTunes | src/NTP_vfo.c:181-219 | in the client a synchronized update leaves the frequency up to a poll exponent of 9 and moves it by the frequency-locked share above |
| Discipline.SyncedClockNeverSteps | src/NTP_vfo.c:47-58 | once synchronized, always synchronized, and every outlier is dropped without a change |
| Discipline.FrequencyStateIsFinal | src/NTP_vfo.c:66-174 | with the sample time recorded first, as clock_update does, frequency measurement is never left |
| Discipline.NoFrequencyNoSync | src/NTP_vfo.c:117-155 | without a stored frequency the client never synchronizes while the unset state reads as NSET |
| Discipline.InGateClimbs | src/NTP_vfo.c:231-243 | an in-gate update lowers the pair of distances from MAXPOLL and LIMIT lexicographically |
| Discipline.InGateReachesMaximum | src/NTP_vfo.c:231-243 | 122 in-gate adjustments reach MAXPOLL from anywhere |
| Discipline.OutOfGateReachesMinimum | src/NTP_vfo.c:244-256 | 61 out-of-gate adjustments reach MINPOLL from anywhere |
| Discipline.ExactClimb | src/NTP_vfo.c:231-243 | from a cleared counter, exactly 30 / p + 1 in-gate adjustments raise exponent p |
| Discipline.ExactFall | src/NTP_vfo.c:244-256 | and exactly 30 / (2 p) + 1 out-of-gate ones lower it |
| Discipline.RunFollowsGates | src/NTP_vfo.c:126-256 | along every run of ticks and tuning updates, poll exponent and counter follow the gates the updates find |
| Discipline.RunClimbsToMaximum | src/NTP_vfo.c:126-256 | so a run with 122 updates, all inside the gate, ends at MAXPOLL |
| Discipline.RunFallsToMinimum | src/NTP_vfo.c:126-256 | and one with 61, all outside it, at MINPOLL |
| Vfo.RstClock | src/NTP_vfo.c:268-286 | the reset of state, offset and update time, and one unit of process time |
| Vfo.LocalClock | src/NTP_vfo.c:15-259 | the in-place state machine computes the specified update and outcome for every value of the unset state, and moves the local time by the offset on a step and not otherwise |
| Vfo.AdjustPoll | src/NTP_vfo.c:231-256 | the poll hysteresis on counter and exponent |
| Vfo.AdjustPhase | src/NTP_vfo.c:304-327 | one tick: process time, root dispersion and offset, and the local time moves by the frequency plus what the offset gave up |
| Slewing.SlewConserves | src/NTP_vfo.c:314-318 | the corrections applied and the offset that remains add up to the start |
| Slewing.SlewBounds | src/NTP_vfo.c:314-318 | the offset keeps its sign and stays between the linear lower and the geometric upper bound |
| Slewing.ResetOrKept | src/NTP_vfo.c:31-209 | an update moves process time, which is to reach rstclock, exactly on the stated branches, and on the others keeps the offset |
| Slewing.BetweenResets | src/NTP_vfo.c:31-209 | between two resets every update keeps the offset |
| Slewing.SlewAlongRun | src/NTP_vfo.c:304-327 | along every run whose updates keep the offset, it is what the ticks leave of it |
| Slewing.SlewOverRun | src/NTP_vfo.c:304-327 | conservation, sign and both bounds for every such run |
| Slewing.TickMovesClock | src/NTP_vfo.c:304-327 | one tick in its fields: what the offset gives up and what the local time gains |
| Slewing.ClockConserves | src/NTP_vfo.c:304-327 | over any run of n ticks between updates the local time gains 2^32 (n freq + start - remaining), short by less than one unit a tick |
| PeerProcess.ShiftFilter | src/NTP_peer.c:149-158 | the ascending shift makes every later stage the previous newest one with growing dispersion |
| PeerProcess.WeightedDispBound | src/NTP_peer.c:170-177 | the stages add at least half the newest sample's dispersion |
| PeerProcess.AccumulateStages | src/NTP_peer.c:170-177 | dispersion and jitter grow by the weighted and squared sums |
| PeerProcess.FilterSample | src/NTP_peer.c:146-179 | all the filter does to a peer before it decides |
| PeerProcess.ClockFilter | src/NTP_peer.c:125-215 | exact conditions for the stale, spike, burst and selection outcomes; the selection runs on the last only, and nothing else touches clock or system |
| PeerProcess.FilteringAdvances | src/NTP_peer.c:187-212 | once synchronized, a selection is reached only with the peer's time strictly increased |
| PeerProcess.EnteredClean | src/NTP_peer.c:149-177 | a sample of non-negative dispersion keeps all dispersions non-negative and adds at least half its own |
| PeerProcess.DispersionAfter | src/NTP_peer.c:149-177 | the dispersion a sample leaves, in closed form |
| PeerProcess.JitterAfter | src/NTP_peer.c:170-179 | the jitter a sample leaves, in closed form |
| PeerProcess.FilteringInNumbers | src/NTP_peer.c:187-212 | the filter's decisions on the fields of sample and peer |
| PeerProcess.FloorFails | src/NTP_peer.c:149-177 | the root distance falls below MINDISP/2 if and only if the sample's dispersion is below the stated bound |
| PeerProcess.SampleDispersion | src/NTP_peer.c:88-100 | a sample's dispersion is negative if and only if arrival and origin lie 2^63 units apart and the complement outweighs both precisions |
| PeerProcess.OffsetFromStamps | src/NTP_peer.c:96 | the offset is half the sum of the two one-way magnitudes if and only if that sum fits the signed halves |
| PeerProcess.DelayFromStamps | src/NTP_peer.c:97-99 | the delay is the difference of the two spans, at least the precision, and the dispersion ages with the round trip |
| PeerProcess.BroadcastSample | src/NTP_peer.c:88-93 | the sample of a broadcast message |
| PeerProcess.PacketOffset | src/NTP_peer.c:88-112 | an accepted unicast packet leaves the peer with the offset its stamps give |
| PeerProcess.NegativeDispersionExists | src/NTP_peer.c:58-99 | an accepted message whose sample has a dispersion below -32212 s |
| PeerProcess.BackdatedReplySinks | src/NTP_peer.c:88-179 | after it the root distance of a newly mobilized association is negative |
| PeerProcess.SinkAssociation | src/NTP_peer.c:37-179 | mobilizing an association and putting that message into it does make it negative |
| PeerProcess.CopyHeader | src/NTP_peer.c:37-52 | the header enters the association, stratum 0 as 16 |
| PeerProcess.CountReply | src/NTP_peer.c:70-71 | the reach bit is set, in the register and in the history it stands for, and the next date moves |
| PeerProcess.Screen | src/NTP_peer.c:58-68 | the header checks on the fields just copied |
| PeerProcess.AcceptedInNumbers | src/NTP_peer.c:37-68 | the header checks and conversions in numbers |
| PeerProcess.Accept | src/NTP_peer.c:70-112 | an accepted packet updates date and reach bit and puts exactly its sample through the filter |
| PeerProcess.Packet | src/NTP_peer.c:22-113 | the reply counts if and only if the checks pass; then sample, filter step and selection follow, otherwise only the header changed |
| Reach.RegisterIsHistory | src/NTP_poll.c:72-74 | after any polls and replies the register is the packed history of the last 32 intervals |
| Reach.BitMeansReply | src/NTP_peer.c:71 | bit i is set if and only if a packet passed in the i-th most recent interval |
| Reach.UnreachableMeansSilence | src/NTP_poll.c:80-82 | the register is zero if and only if no packet passed in the last 32 intervals |
| Reach.ThreeSilentIntervals | src/NTP_poll.c:75 | the dummy sample is due if and only if the last three intervals were silent |
| Reach.SteadyUnlessSilent | src/NTP_poll.c:74-78 | a steady history stays steady if and only if opening the interval leaves one of the three low bits set |
| PollTimer.PollUpdate | src/NTP_poll.c:145-192 | the host interval is clamped and the next date is the specified one, inside and outside a burst |
| PollTimer.ClampInNumbers | src/NTP_poll.c:159 | the host exponent is kept in 6 to 17 |
| PollTimer.Schedule | src/NTP_poll.c:167-189 | the next date is in the future, at least 64 and at most 2^17 + 25 units after the last poll or just ahead |
| PollTimer.NextDateInNumbers | src/NTP_poll.c:173-189 | the exact next date while dates fit an int |
| PollTimer.ShorterIntervalIsSooner | src/NTP_poll.c:173 | a shorter peer interval brings the next date forward by the difference of the intervals |
| PollTimer.BurstSchedule | src/NTP_poll.c:160-189 | inside a burst the next date is 2 to 27 units ahead |
| PollTimer.PollsApart | src/NTP_poll.c:145-192 | over every run, rejected packets included, two polls of a peer are at least 64 process-time units apart and the next date lies within the upper bound |
| PollTimer.BackOffReachesMaximum | src/NTP_poll.c:80-100 | along consecutive silent polls the poll exponent never falls and is MAXPOLL after 17 |
| PollTimer.SilentPollsInNumbers | src/NTP_poll.c:80-100 | the exponent stays for six silent polls and then rises by one a poll up to MAXPOLL |
| PollProcess.ShiftReach | src/NTP_poll.c:72-74 | register and history open a new interval together |
| PollProcess.Reachability | src/NTP_poll.c:80-112 | the unreachable and reachable branches: counter, burst and interval asked for |
| PollProcess.OpenInterval | src/NTP_poll.c:63-79 | a poll outside a burst shifts the register and feeds the dummy sample if and only if its three low bits are clear |
| PollProcess.ProbeByHistory | src/NTP_poll.c:74-79 | the dummy sample of 16 s enters exactly after three silent intervals; a reply in any leaves filter, clock and system alone |
| PollProcess.ReachedInFields | src/NTP_poll.c:80-112 | counter, burst and interval after a poll outside a burst |
| PollProcess.PollOutsideBurst | src/NTP_poll.c:63-113 | the whole poll outside a burst, up to the transmission |
| PollProcess.Transmit | src/NTP_poll.c:225 | each of the two clock readings of a transmission brings the local time up to its tick count |
| PollProcess.Poll | src/NTP_poll.c:15-131 | the whole poll in and outside a burst, keeping every invariant |
| Upkeep.DueMeansApart | src/NTP_vfo.c:335-353 | a due peer was last polled at least 64 units ago |
| Upkeep.OverdueIsDue | src/NTP_vfo.c:335-353 | a peer last polled the longest interval and spread ago is due at the next tick |
| Upkeep.FitIsSteady | src/NTP_peer.c:222-259 | a sound peer that is fit has answered one of any two neighbouring closed intervals |
| Upkeep.SoundAfterPoll | src/NTP_poll.c:72-79 | a poll keeps dispersion and history in step |
| Upkeep.BackedOffAfterPoll | src/NTP_poll.c:80-100 | a poll keeps unreach counter and poll exponent in step with the silence before it |
| Upkeep.SilentPeerBacksOff | src/NTP_poll.c:80-100 | a client's peer silent over 17 polls and the 31 intervals before them polls at MAXPOLL |
| Upkeep.PollPeer | src/NTP_vfo.c:345-348 | one poll of a due peer: its timing and dispersion stay sound and its polls 64 units apart |
| Upkeep.AnswerPeer | src/NTP_peer.c:22-113 | one packet of any kind: the timing stays sound, and the dispersion if the packet is plausible |
| Client.NtpClient.PollDue | src/NTP_vfo.c:345-349 | polling a due peer keeps the client valid and its polls 64 units apart |
| Client.NtpClient.Answer | src/NTP_peer.c:22-113 | any packet keeps the client valid and marks the open interval if and only if it passes; only an implausible one ends cleanness |
| Client.NtpClient.Read | src/NTP_main_utility.c:148-181 | reading a packet brings the tick stamp up to date and sets the local time to the server's receive time |
| Client.NtpClient.Deliver | src/NTP_vfo.c:349-350 | no other peer's history or next date changes, and no peer's last poll date |
| Client.NtpClient.Serve | src/NTP_vfo.c:335-353 | a peer is polled if and only if it is due; otherwise nothing changes |
| Client.NtpClient.TakeTurn | src/NTP_vfo.c:335-353 | one turn carries the account of the tick one peer further |
| Client.NtpClient.StartTick | src/NTP_vfo.c:304-327 | a tick advances process time and root dispersion and slews the clock |
| Rounds.TickStep | src/NTP_vfo.c:335-353 | whatever the turns before did, a peer due at the start of the tick whose date no earlier packet moved is due at its turn, and polled once |
| Client.NtpClient.Turns | src/NTP_vfo.c:335-353 | the peer loop takes its five turns unless the program ends |
| Client.NtpClient.Adjust | src/NTP_vfo.c:292-353 | a tick polls no peer twice; it polls every peer due at its start whose date no earlier packet of the tick moved, while the low word of process time does not wrap; and it polls every such peer whose longest interval and spread have elapsed |
| Client.NtpClient.Settle | src/NTP_TDMG.c:205-210 | setting the time keeps the client valid |
| Client.NtpClient.Handle | src/NTPTask.c:150-183 | what any one event does to times, state machine and dispersions |
| Client.NtpClient.Run | src/NTPTask.c:155-184 | every run of any packets: all structural invariants, times and states only advance, process time counts at least the ticks, long silent peers poll at MAXPOLL; and while packets are plausible no dispersion falls, root distances stay positive, and every fit peer has answered one of any two neighbouring closed intervals |
| Client.Start | src/NTPTask.c:119-140 | initialization yields a valid client in NSET, or FSET with a stored frequency |
| Client.Mobilize | src/NTP_main_utility.c:18-43 | five distinct healthy associations with their first dates |
| Generator.Rand.UxRand | src/main_networking.c:246-255 | one step of the generator, of which bits 16..30 are returned |
| Generator.Rand.Draw | src/main_networking.c:246-255 | n calls return the output bits of the first n states |
| Generator.LowBitsPeriod | src/main_networking.c:246-255 | the k lowest bits return after n calls if and only if 2^k divides n |
| Generator.FullPeriod | src/main_networking.c:246-255 | the state returns after n calls if and only if 2^32 divides n |
| Generator.StatesRepeatOnlyByPeriod | src/main_networking.c:246-255 | two points of a run hold one state if and only if they are a multiple of 2^32 apart |
| Generator.EveryStateReached | src/main_networking.c:246-255 | every 32-bit state is reached from every seed |
| HalfWord.SubtractUint64 | src/NTP_TDMG.c:134-169 | the half-word routine returns the signed reading of the magnitude of the difference |
| HalfWord.DifferenceExact | src/NTP_TDMG.c:134-169 | it is the magnitude if and only if that is below 2^63, and negative otherwise |
| HalfWord.BorrowFixupIsIdentity | src/NTP_TDMG.c:156-161 | the two additions of 2^31 cancel |
| HalfWord.AddInt64 | src/NTP_TDMG.c:178-197 | the half-word routine with its carry test and sign-extended low half |
| HalfWord.SumExact | src/NTP_TDMG.c:178-197 | the exact condition on the halves under which it is 64-bit addition |
| HalfWord.SumLosesCarry | src/NTP_TDMG.c:178-197 | 1.5 s plus 1.5 s gives 2 s |
| LocalTime.UpdateLocalTime | src/NTP_main_utility.c:309-364 | the half-word update is addition or subtraction modulo 2^64 |
| LocalTime.AdjustThenStep | src/NTP_main_utility.c:373-390 | adjusting and then stepping by one offset restores every local time |
| LocalTime.AdjustIsExactBelowOneSecond | src/NTP_main_utility.c:330-346 | the whole offset is applied if and only if it is below one second |
| LocalTime.GetTime | src/NTP_TDMG.c:217-258 | a gap below 10 ticks changes nothing unless overridden; otherwise the call adds the rounded-down gap across seconds split, carry and tick wrap |
| LocalTime.TallyIsTheRun | src/NTP_TDMG.c:217-258 | over every run of calls the clock advances by the sum of those gaps |
| LocalTime.DriftBound | src/NTP_TDMG.c:217-258 | it is never ahead of the ticks and loses less than one unit per effective call |
| Bisection.Sqrt | src/NTP_TDMG.c:101-125 | terminates within ceil(log2(max(1, number) * 10^5)) halvings |
| Bisection.SqrtAccurate | src/NTP_TDMG.c:101-125 | the result is within 0.000005 of the square root |
| Bisection.SqrtSquare | src/NTP_TDMG.c:101-125 | the same without naming the root |
| Bisection.SqrtNonNegative | src/NTP_TDMG.c:101-125 | for every number the result is not negative, and for a negative one at most 0.000005 |
| Words.Log2DDoubles | src/NTP_TDMG.h:76 | two to a signed exponent: one at zero, doubling with each step |
| Decimal.Uint64ToStr | src/NTP_TDMG.c:288-315 | the buffer holds the decimal text of the value |
| Decimal.TextRoundTrip | src/NTP_TDMG.c:288-315 | parsing gives the value back; no leading zero, at most 20 digits |
| Decimal.WrapperBufferFits | src/NTP_TDMG.c:324-329 | text and terminator fit the wrapper's 20 bytes if and only if the value is below 10^19 |
| Decimal.DoubleToStr | src/NTP_TDMG.c:340-399 | the buffer holds sign, whole part and rounded fraction |
| Decimal.DoubleTextReads | src/NTP_TDMG.c:340-399 | the whole text reads back: the sign, the whole part up to the point, and the rounded fraction |
| Decimal.RoundedIsNearest | src/NTP_TDMG.c:376 | the fraction printed is the nearest multiple of the last place |
| Decimal.FractionWidth | src/NTP_TDMG.c:366-396 | the fraction has the requested digits if and only if rounding does not carry |
| Decimal.DoubleAccurate | src/NTP_TDMG.c:340-399 | the decimal is within half a unit of the last place if and only if the fraction does not round up to a whole |
| Decimal.CarryIsLost | src/NTP_TDMG.c:366-396 | 0.96 to one place prints 0.10 |
| Codec.HtonlInvolution | src/NTP_main_utility.c:95-112 | swapping twice is the identity |
| Codec.WireRoundTrip | src/NTP_main_utility.c:219-243 | the receiver recovers every header field if and only if leap, version and mode fit their bits |
| Codec.MessageRoundTrip | src/NTP_main_utility.c:120-142 | every 48-byte message is what its decoded header encodes to |
| Codec.WireShortFields | src/NTP_main_utility.c:222-232 | octets and short-format fields as section 7.3 of RFC 5905 lays them out, except the reference identifier in host order |
| Codec.WireTimestamps | src/NTP_main_utility.c:235-242 | timestamps are big-endian in their places |
| Codec.Packet.TranslateFrom | src/NTP_main_utility.c:219-243 | fills the packet field by field |
| Codec.Packet.SwapFields | src/NTP_main_utility.c:95-112 | swaps every word but the reference identifier |
| Codec.ReceiveBuffer.CreateFrom | src/NTP_main_utility.c:120-151 | decodes the packet and stamps its arrival |
| Codec.SendAndReceive | src/NTP_main_utility.c:95-243 | the in-place routines of both sides in a row return the header sent |

## Left out

- A null guard: the C code reads `osys->stratum` through a null pointer on the first selection; the model falls to the first survivor there.
- Floating-point rounding, infinities and NaN; the milliseconds-to-fraction factor is an exact rational.
- SystemProcess.SelectionJitter: entries past the list that the inner loop reads through a null pointer have one unspecified offset in `Junk`.
- SystemProcess.ClockCombine: quotients by a zero root distance or a zero weight sum are one unspecified value in `Junk`.
- Vfo.LocalClock: a quotient by a zero interval, and the value of the unset `state`, are unspecified values in `Junk`.
- LocalTime.UpdateLocalTime: takes the fraction word; the double-to-integer conversion of a negative or oversized offset, undefined in C, is an unspecified word.
- LOG2D of exponents whose shift exceeds the word, undefined in C, is taken as the power of two.
- Process time is assumed below 2^63, and `Client.NtpClient.Run` bounds the length of a run accordingly; dates are ints that wrap, and the schedule is stated while they fit.
- Client.NtpClient.Run: its claims about dispersions and root distances end with the first implausible message; the structural ones do not.
- HalfWord.AddInt64: takes signed overflow and the shift of a negative high half, undefined in C, as two's complement.
- `receive`: access, authentication, duplicate and origin tests, and dispatch by mode; any message may reach `packet` for any association.
- Client.NtpClient.Deliver: the arrival time of a message in a run is any value, not the local time just read.
- PollProcess.Poll: leaves out the contents of the message that `peer_xmit` sends, and the broadcast and manycast branches; configured associations are unicast without flags, but the burst branches of `poll` and `clock_filter` are modelled.
- `clock_filter`'s copy of the filter array, `qmax`, and `printf` output: computed, never used.
- `assoc_table_update`, which rewrites a peer with itself when addresses are distinct; allocation and release of the table; `clear` after initialization, which no live path calls.
- The unreach counter is an unbounded integer.
- PollTimer.PollUpdate: `last_nextdate`, a double holding multiples of five, is an integer.
- Decimal.DoubleToStr: needs a buffer of 34 characters, as its callers provide, and a value below 2^64.
- Sockets, name resolution, the time mutex, delays and the startup code.
