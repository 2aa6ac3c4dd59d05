# timed: selection, discipline, wire formats and source life cycle

A Dafny model of the decision engine of an NTP/NTS client daemon: how one exchange becomes a
measurement, how the measurements of several servers become one offset, how that offset steers the
clock, how the bytes that carry all this are read and written, and how a source and the network
worker behind it live over time. `dafny verify dfyconfig.toml` checks the whole project.

| file | what it models |
|---|---|
| `Numbers`, `Sorting`, `Wire` | reals, counting, the stable sort, bytes and big-endian numbers |
| `Timestamp`, `Sample` | 64-bit era arithmetic; four timestamps to one measurement |
| `Filter`, `FilterRun`, `Dispersion` | the eight-stage minimum-delay register, what it does over whole runs, and how what it holds ages and is weighed |
| `Intersection`, `Selection` | the counting sweep, clustering, the weighted mean, the Byzantine bound |
| `Honest` | from the physics of an exchange to an honest server being a truechimer |
| `Discipline`, `DisciplineRun` | the servo and its safety over runs |
| `ClosedLoop`, `NoisyLoop`, `VaryingLoop`, `AlternatingLoop` | its convergence on a simulated clock: alone, under measurement noise, and while the interval changes |
| `Extension`, `Packet`, `Authenticator` | extension fields, the NTP message, the NTS seal |
| `KeyExchange` | the NTS-KE record stream and the meaning of an answer |
| `Reply`, `ConstantTime`, `Source` | what makes a reply credible; the source object |
| `Worker`, `Timed` | the loop/worker protocol as small steps; the loops that run it |
| `Spent` | a source and the loop together: what becomes of one that runs out of cookies |

## Reading the model

- `f64` quantities are `real`; u64 and i64 timestamps are bounded integers with explicit wrap and saturation.
- The square root is a parameter `root: real -> real` of whatever computes one. Most results hold for every
  such function; those that need `root(x)` squared to be `x` ask for `IsRoot(root)`.
- Delays, dispersions and jitters have the type `Span`, the non-negative reals: the functions that produce
  them (`reduce`, the filter, `NtpShort`) are shown to stay in it.
- AES-SIV is a pair of functions with one law: opening undoes sealing under the same key, nonce and
  associated data. No strength is claimed.
- Random numbers, clock readings and the outcome of network jobs are inputs.
- A source's `outcomes`, `prepared` and `samples` are ghost histories, so `Valid()` speaks about every run.
- The record of a filter, a servo and a source is a class whose methods are proved against a function of its
  state; theorems about runs are lemmas about that function.

## Where the code and its comments differ

The model follows the code. These are the differences, and the member that shows each.

- timed/src/select.rs:213-214 says intervals that merely touch overlap; the answer still needs `high > low`
  (line 252), so touching alone never agrees (`Intersection.PairAnswers`).
- timed/src/select.rs:22-31 reads as if a majority of honest sources were always heard; two sources both right about the time but
  further apart than either admits are refused (`Intersection.HonestPairRefused`). `Intersection.AnswersExactly`
  is the exact condition for any number, `Intersection.PairAnswers` what it comes to for two, and
  `Intersection.HeardWhateverTheRest` exactly what the honest can count on when the rest may claim anything.
- timed/src/filter.rs:190-203 calls the root distance an honest upper bound. The chosen sample's own
  dispersion enters it at half weight, so the bound holds in every honest world exactly when the rest makes up for it
  (`Honest.TrueChimerExactly`, at every later moment and for all readings; `Honest.CoarseServerMisses`); two milliseconds always fit
  (`Honest.SmallReadingErrorIsCovered`). The server's root delay and dispersion are those of its last reply
  although the estimate may be older; the results ask that the server was within the figures held now.
- timed/src/discipline.rs:63-71 asks for a consistent large offset; only its size is timed, so offsets of
  opposite sign count as one run (`DisciplineRun.SignsNeedNotAgree`). `DisciplineRun.StepExactly` is when a step is
  taken; an offset past the panic threshold neither starts nor breaks the wait.
- ntp/src/extension.rs:41-44 and fuzz/README.md:45-50 say padding is dropped; the parser keeps it in the
  value, which is why re-encoding is exact (`Extension.WalkIsFaithful`, `Packet.DecodeIsFaithful`).
- ntp/src/extension.rs:98-102 says no NTS field is the size of a MAC; a cookie that encodes to 20 or 24
  bytes, sent last, is lost to one (`Extension.LastIsTakenForMac`).
- ntp/src/nts.rs:255 says cookies are spent oldest first; `prepare` takes the newest (`PolledSource.Source.Prepare`).
- A reply whose measurement is unusable leaves its request pending, after its cookies were kept
  (`PolledSource.Source.Accept`).
- timed/src/worker.rs:113-115 says a dead worker costs only new sources. It costs for ever each source whose job died
  with it, and each that was idle and later asks for one, to be resolved again or given new keys
  (`Worker.DeathStrandsEitherWay`); `Worker.DeathStrands` says exactly which, for every run.
- timed/src/discipline.rs:43-47 says the loop cannot be destabilised by the poll interval changing underneath it.
  It can (`VaryingLoop.IntervalsDestabilise`). While no interval is more than twice another it is not, however they vary
  (`VaryingLoop.VaryingConverges`); one longer interval overshoots by more than it corrects exactly from four times on
  (`VaryingLoop.OvershootsExactly`); for two intervals taken in turn `AlternatingLoop.SettlesExactly` is the exact limit.
- timed/src/source.rs:134-138 says a source whose cookies ran out waits for a handshake. Nothing asks for one: it keeps
  its keys and is left alone until they are a day old (`Spent.SpentUntilRekeyed`); `Spent.StarvedExactly` is when it is
  seen to again.
- timed/src/source.rs:190-193 says polling comes back down some time after a rate limit; nothing ever clears
  the mark (`PolledSource.Source.TakeReply`, `PolledSource.Source.AdaptPoll`).

## Model

| member | source | states |
|---|---|---|
| Timestamp.SubShiftInvariant | ntp/src/timestamp.rs:81-83 | the difference of two timestamps is the same after both wrap by any amount |
| Timestamp.AddUndoesSub | ntp/src/timestamp.rs:81-88 | adding back a difference, and taking back an addition, are inverse across eras |
| Timestamp.UnixRoundTrip | ntp/src/timestamp.rs:55-78 | within 68 years of the time believed, in any era, the second comes back exactly and the nanosecond exactly when it is a multiple of 5^9, else one less |
| Timestamp.Anchors | ntp/src/timestamp.rs:55-62 | the scale starts with 1900, 1970 is 2208988800 s on, and the next era starts on 7 February 2036 |
| Timestamp.OverlongNanos | ntp/src/timestamp.rs:55-62 | nanoseconds past the end of the second count as its last |
| Sample.ReduceEraFree | timed/src/sample.rs:96-142 | a measurement and its refusals do not change when all four clocks shift by one constant modulo 2^64 |
| Sample.ReduceExact | timed/src/sample.rs:96-142 | for true intervals under 2^62 units the outcome, errors included, is the textbook one on unbounded times |
| Sample.Log2InNumbers | timed/src/sample.rs:145-150 | precision 0 is a second, each step doubles it, and it is clamped at -32 and 8 |
| Filter.EstimateIsNewestLeastDelayed | timed/src/filter.rs:160-187 | the estimate is the newest of the least-delayed samples held |
| Filter.ClockFilter.Insert | timed/src/filter.rs:101-153 | the in-place rotate, rank, weigh and freshness check compute the register's specified successor and outcome |
| Filter.ClockFilter.Peek | timed/src/filter.rs:160-187 | nothing when empty, else the estimate of the samples held, changing nothing |
| Filter.ClockFilter.Reset | timed/src/filter.rs:91-94 | samples and the record of what was reported are both forgotten |
| Dispersion.EstimateAges | timed/src/filter.rs:160-187 | with n samples in the past the dispersion grows by exactly 15 microseconds a second, less one part in 2^n, and nothing else of the estimate changes |
| Dispersion.DistanceAges | timed/src/filter.rs:190-215 | so the root distance of a silent source grows by that and 15 microseconds a second more |
| Dispersion.DistanceParts | timed/src/filter.rs:190-215 | twice what is left of it without the dispersions, jitter and age is the delay all the way, of at least a millisecond |
| Dispersion.RankWeighs | timed/src/filter.rs:113-122 | a sample's own dispersion counts one part in 2^(rank + 1), and in no other way |
| Dispersion.FreshDispersion | timed/src/filter.rs:113-122 | n fresh samples of dispersion d come to d(1 - 2^-n) and 16(2^-n - 2^-8) for the stages still empty |
| Dispersion.SilenceInNumbers | timed/src/filter.rs:160-187 | eight one-millisecond samples come to 0.00099609375 s, and to 0.0159375 s a thousand seconds later |
| Dispersion.JitterOfFew | timed/src/filter.rs:124-134 | one sample has the floor of a millisecond for its jitter, two their distance |
| Dispersion.JitterSquared | timed/src/filter.rs:124-134 | in general the jitter squared is the mean square distance of the others from the best, or the floor |
| FilterRun.RegisterIsHistory | timed/src/filter.rs:91-103 | after any run the register is the newest eight samples since the last reset, in time order |
| FilterRun.UpdatesAdvance | timed/src/filter.rs:137-152 | between resets reported times strictly increase, so no sample is used twice |
| FilterRun.UpdateIsBestOfHistory | timed/src/filter.rs:101-187 | a report is the best of that history and equals an immediate peek |
| FilterRun.StaleMeansAlreadyReported | timed/src/filter.rs:137-142 | an insert is silent only because an earlier report since the reset is at least as recent |
| Intersection.Intersect | timed/src/select.rs:195-258 | the sweeps return the span of the points that m - allow closed intervals cover, for the least allow below half that leaves at most allow midpoints out and a positive length; None exactly when there is none |
| Intersection.SweepMeaning | timed/src/select.rs:226-246 | a sweep stops at the outermost sufficiently covered point having passed exactly the midpoints beyond it |
| Intersection.IntersectionIsUnique | timed/src/select.rs:195-258 | that specification determines the answer |
| Intersection.MajorityInside | timed/src/select.rs:180-194 | more than half of all midpoints lie in the agreed interval |
| Intersection.EdgesNearTruth | timed/src/select.rs:10-18 | if a strict majority is right about t to within a bound, both agreed edges are within twice it, whatever the rest claim |
| Intersection.EdgesReachTwiceBound | timed/src/select.rs:195-258 | that factor of two is attained |
| Intersection.AnswersExactly | timed/src/select.rs:195-258 | for any number of sources there is an answer if and only if some two points are each covered by all but a minority, with no more offsets outside them than that minority; neither need be outermost, nor the minority least |
| Intersection.HeardWhateverTheRest | timed/src/select.rs:22-31 | a set of sources is answered whatever k others claim, fewer than they are, if and only if some two of their own points are each covered by all but `out` of them, no more than `out` of their own offsets lie outside, and `out` and k are a minority of all |
| Intersection.PairSurvivesOneLiar | timed/src/select.rs:22-31 | of three sources any one may lie: the other two are heard exactly when they would be by themselves |
| Intersection.AgreeingMajorityAnswers | timed/src/select.rs:22-31 | so a strict majority whose intervals share a stretch holding their midpoints always gets an answer |
| Intersection.PairAnswers | timed/src/select.rs:195-258 | two sources get an answer if and only if each offset is in the other's interval and the overlap has length |
| Intersection.HonestPairRefused | timed/src/select.rs:195-258 | two sources both right about the time can be refused |
| Selection.Select | timed/src/select.rs:136-178 | the outcome is NoCandidates exactly for no fit source, NoMajority exactly for no intersection, and otherwise reports the trimmed, ordered survivors and the offset at which their pulls, each its distance over its root distance, cancel; that offset is within 2D of any time that a strict majority of the fit holds within root distances of at most D |
| Selection.SelectionIsUnique | timed/src/select.rs:136-178 | the specification of a selection, clustering chain included, admits one outcome for given candidates |
| Selection.SurvivorsAreMajority | timed/src/select.rs:142-160 | survivors of the intersection are a strict majority of the fit, so the empty-survivor branch is dead |
| Selection.Cluster | timed/src/select.rs:269-303 | the loop ends on a chain of removals, each of the first arg-max of weighted jitter, none below a peer's jitter or preferred, after which no removal is due |
| Selection.ClusteringIsUnique | timed/src/select.rs:269-303 | what such a chain ends on is determined by what it starts from |
| Selection.ClusterKeeps | timed/src/select.rs:260-303 | clustering only removes, never a preferred source, never below three |
| Selection.TrimsTheWorst | timed/src/select.rs:269-303 | a pass removes the first of those with the greatest disagreement times (1.5 s a stratum and root distance), not preferred, its disagreement no less than some survivor's own jitter |
| Selection.StopsAtTheWorst | timed/src/select.rs:283-300 | with more than three left it stops only when that one is preferred or disagrees by less than any survivor's own jitter |
| Selection.SelectionJitterSquared | timed/src/select.rs:269-282 | the disagreement squared is the mean square distance from the others |
| Selection.Combine | timed/src/select.rs:311-343 | the sum over the survivors of (offset - own offset) / root distance, floored at a nanosecond, is zero; the jitter is the system jitter |
| Selection.TwoAreWeighed | timed/src/select.rs:311-327 | of two, each offset counts by the other's root distance |
| Selection.NobodyIsFit | timed/src/select.rs:78-84 | nobody is heard exactly when every source is unusable, at stratum 16 or over, or at a root distance of 1.5 s or over |
| Selection.OnlyTheFitAreReported | timed/src/select.rs:136-178 | every source reported, believed or not, is none of these |
| Selection.MeanInside | timed/src/select.rs:305-327 | the combined offset stays within any bounds the survivors' offsets respect |
| Selection.SystemJitterSquared | timed/src/select.rs:329-342 | the system jitter squared is the survivors' mean square about the head plus the head's own squared |
| Selection.ByzantineBound | timed/src/select.rs:1-31 | if a strict majority of the fit hold t within root distances of at most D, the selected offset is within 2D of t |
| Selection.PeerChoice | timed/src/select.rs:164-176 | the peer is preferred exactly when some preferred source passed the intersection, and among survivors of its kind has the least root distance counting 1.5 s a stratum |
| Selection.LowestStratumLeads | timed/src/select.rs:86-92 | so no survivor of its kind has a lower stratum, however sure it is |
| Selection.VerdictsAreDisjoint | timed/src/select.rs:149-179 | the peer is a survivor, no survivor is a falseticker, falsetickers are under half of the fit |
| Selection.FalsetickersExactly | timed/src/select.rs:142-160 | denounced is every fit source whose own offset lies outside the interval agreed on, and no other |
| Selection.SurvivorsExactly | timed/src/select.rs:161-179 | believed are the survivors of the trimming, each once, the peer first |
| Selection.FewSamplesAreUnfit | timed/src/filter.rs:113-122 | fewer than four samples make a source unfit whatever else is true of it |
| Selection.SilenceNeverHelps | timed/src/filter.rs:189-215 | with no new sample the root distance never shrinks, and reaches 1.5 s at the latest 100 000 s after the best sample |
| Honest.MeasurementError | timed/src/sample.rs:14-27 | with non-negative path delays and bounded drift the error is at most half the time on the path, the server's error and the reading error; the time on the path is at most the delay |
| Honest.MeasurementErrorIsTight | timed/src/sample.rs:22-27 | whatever the readings, if any honest exchange could have left them, one is wrong by exactly that |
| Honest.HonestIsTrueChimer | timed/src/filter.rs:190-215 | an honest server's claim holds the true offset, drift since the sample included, when the estimate covers the reading error |
| Honest.TrueChimerExactly | timed/src/filter.rs:190-215 | for all readings and at every moment, drift since the sample included, the claim holds the true offset in every honest world that could have left them if and only if the estimate covers the reading error, or there is no such world |
| Honest.SmallReadingErrorIsCovered | timed/src/filter.rs:113-134 | a reading error of two milliseconds or less is always covered |
| Honest.CoarseServerMisses | timed/src/filter.rs:113-122 | a concrete honest server whose reading error is not covered and whose claim misses the truth |
| Honest.HonestMajorityPrevails | timed/src/select.rs:1-31 | end to end: a strict majority resting on honest exchanges, each covered by its estimate, puts the selected offset within twice their largest root distance of the truth |
| Discipline.Discipline.Update | timed/src/discipline.rs:246-346 | the in-place branches change the servo and answer as the specification function says; a step asks for the rate already learned, and only a normal offset with an update behind it changes that |
| Discipline.Discipline.ResetPhase | timed/src/discipline.rs:232-240 | phase, timer and last update are dropped, frequency kept, state back to settling unless at startup |
| DisciplineRun.AnswerExactly | timed/src/discipline.rs:246-291 | at startup and past 128 ms: the answer, and every field of the servo after it, in numbers |
| DisciplineRun.NormalExactly | timed/src/discipline.rs:293-359 | within 128 ms: the same, but for what an update teaches frequency and jitter; the fifth update is synchronisation |
| DisciplineRun.NormalJitter | timed/src/discipline.rs:311-317 | such an update makes the jitter squared seven eighths of what it was and one eighth of the square of the offset's move since the last one |
| DisciplineRun.FreshInNumbers | timed/src/discipline.rs:176-188 | a fresh servo has done nothing and runs at the rate remembered, within 500 ppm |
| ClosedLoop.LessonExactly | timed/src/discipline.rs:319-359 | a quarter second or more after an update the frequency learns a sixteenth of the offset over the interval and, from 2048 s, a quarter of the rate at which it moved; half the offset over the interval is added to the rate asked for |
| DisciplineRun.LessonOfABurst | timed/src/discipline.rs:308-327 | under a quarter second everything counts as over one second |
| DisciplineRun.StepKeepsRate | timed/src/discipline.rs:286-289 | in every run a step asks for exactly the rate learned before it, which it leaves as it was |
| DisciplineRun.OnlyNormalTeaches | timed/src/discipline.rs:293-346 | in every run the frequency changes only by an offset within 128 ms with an earlier update of its phase behind it |
| DisciplineRun.ResetForgetsOnlyPhase | timed/src/discipline.rs:232-240 | a reset keeps frequency, jitter and totals, and is no new startup |
| DisciplineRun.RunIsConsistent | timed/src/discipline.rs:246-346 | in every run the state is spike exactly while the stepout timer runs, and the frequency is within 500 ppm |
| DisciplineRun.StepIsWaitedOut | timed/src/discipline.rs:270-291 | a step outside startup follows at least 900 s of nothing but offsets above 128 ms, the first of at most 1000 s, no reset and no other answer between, and is at most 1000 s |
| DisciplineRun.StepExactly | timed/src/discipline.rs:270-291 | outside startup a measurement is stepped if and only if it is between 128 ms and 1000 s and the same large-offset wait has run, unbroken by any step, reset or small offset, since some offset of at most 1000 s at least 900 s before |
| DisciplineRun.SustainedOffsetIsStepped | timed/src/discipline.rs:581-592 | over any stretch of 900 s of nothing but offsets between 128 ms and 1000 s there is a step |
| DisciplineRun.StepsAreApart | timed/src/discipline.rs:250-291 | any two steps are at least 900 s apart, and only the first measurement can step unwaited |
| DisciplineRun.RatesAreBounded | timed/src/discipline.rs:348-373 | frequency and every rate requested stay within 500 ppm |
| DisciplineRun.TotalsAreTrue | timed/src/discipline.rs:157-161 | `stepped` is the sum of step sizes and `updates` the number of rate and step answers |
| DisciplineRun.JitterIsDecayingMeanSquare | timed/src/discipline.rs:311-317 | the loop jitter squared is seven eighths of the old plus one eighth of the move squared |
| DisciplineRun.SignsNeedNotAgree | timed/src/discipline.rs:270-279 | offsets of opposite sign are timed as one |
| ClosedLoop.LinearCycle | timed/src/discipline.rs:308-359 | with no clamp touched, one cycle maps offset and phase rate linearly: x' = x/2 - g, g' = g + x'/16, plus a quarter of the offset's move from 2048 s on |
| ClosedLoop.CalmCycle | timed/src/discipline.rs:308-359 | in a region given by interval, crystal error and energy, a cycle touches no clamp, loses a sixteenth of the energy (a sixty-fourth from 2048 s on), and stays there |
| ClosedLoop.Converges | timed/src/discipline.rs:25-42 | for every constant interval of a quarter second or more and every number n of cycles the energy is at most (15/16)^n of the start, (63/64)^n where the frequency-locked term joins in |
| ClosedLoop.OffsetVanishes | timed/src/discipline.rs:464-472 | the offset is below any positive bound from an explicit cycle on |
| ClosedLoop.DoesNotRing | timed/src/discipline.rs:484-508 | over an unending run the measured offset changes sign at most once |
| ClosedLoop.ApproachingCycle | timed/src/discipline.rs:308-359 | in a second, wider region, on the way from a fresh start, a cycle touches no clamp, keeps the offset on its side of zero, and moves the learned frequency towards the one that cancels the crystal's error without passing it |
| ClosedLoop.FreshStartConverges | timed/src/discipline.rs:443-508 | from a fresh start at 64 s polls, every crystal within 388 ppm (the 200 ppm case included) converges so, its offset never changing sign and its learned frequency never overshooting |
| VaryingLoop.VaryingConverges | timed/src/discipline.rs:43-47 | however the interval varies from cycle to cycle, so long as none is more than twice another, no clamp is touched and after n cycles at most (15/16)^n of the energy is left |
| VaryingLoop.OvershootsExactly | timed/src/discipline.rs:43-47 | with the frequency learned, an interval leaves the clock closer to the truth if and only if it is less than four times the one before |
| VaryingLoop.IntervalsDestabilise | timed/src/discipline.rs:43-47 | a calm loop that 512 s and then 64 s take from one millisecond off to over 2.7, with no clamp touched |
| AlternatingLoop.SettlesExactly | timed/src/discipline.rs:43-47 | while the interval alternates between a and b, every share of the start is eventually undercut by every run no clamp touches, if and only if a/b + b/a is less than 1137/272, a ratio of a little under four |
| AlternatingLoop.StubbornRun | timed/src/discipline.rs:43-47 | from that limit on, for every number of pairs, a run that touches no clamp and has a fixed share of its start left |
| NoisyLoop.NoisyCycleIsQuiet | timed/src/discipline.rs:308-359 | a cycle on a wrong measurement touches no clamp and leaves 109/128 of the excess over what the noise alone explains |
| NoisyLoop.NoiseIsHeld | timed/src/discipline.rs:511-516 | for every sequence of measurement errors of at most N and every n, the clock is within 15/8 N plus three times (109/128)^n of its starting excess, and the learned frequency is bounded likewise |
| NoisyLoop.SettlesWithinTwice | timed/src/discipline.rs:511-516 | so from an explicit cycle on it is within twice the worst error |
| NoisyLoop.BadPathIsSurvived | timed/src/discipline.rs:511-514 | from a fresh start, a crystal within 30 ppm and any errors of up to 5 ms leave the clock within 10 ms, and its learned frequency within 36 ppm, from the thirtieth poll on |
| Extension.DecodeAllWithMac | ntp/src/extension.rs:103-157 | the loop over the rest of the buffer, which ends, computes the recursive walk |
| Extension.LengthInNumbers | ntp/src/extension.rs:59-63 | a field takes the least multiple of four that holds it, and sixteen bytes at least |
| Extension.FieldLayout | ntp/src/extension.rs:73-84 | type and length of two bytes each, the value, zeros |
| Extension.WalkInvertsEncoding | ntp/src/extension.rs:59-157 | the walk returns w for exactly the bytes that encode w, for every w whose fields are aligned and whose last field is no MAC's size |
| Extension.FieldsRoundTrip | ntp/src/extension.rs:74-157 | encoded fields come back padded and in order if and only if each fits its 16-bit length and the last is not the size of a MAC |
| Extension.LastIsTakenForMac | ntp/src/extension.rs:121-133 | a last field of 20 or 24 bytes comes back as a MAC and is lost |
| Packet.DecodeIsFaithful | ntp/src/packet.rs:221-270 | re-encoding any decoded packet gives the bytes received less a MAC of 0, 4, 20 or 24 bytes |
| Packet.EncodeIsDecodable | ntp/src/packet.rs:221-270 | decoding an encoded packet gives every header field and the padded extensions back if and only if it is not oversized and its last field is not the size of a MAC |
| Packet.EncodePacket | ntp/src/packet.rs:253-270 | the growing buffer ends as header followed by each field's encoding |
| Packet.HeaderLayout | ntp/src/packet.rs:221-251 | what each field of a decoded message is, in the bytes received |
| Packet.KissInNumbers | ntp/src/packet.rs:279-281 | a kiss is stratum 0 with four capitals |
| Authenticator.SealOpens | ntp/src/nts.rs:425-505 | a value sealed over a prefix opens under that prefix of any datagram, to its plaintext |
| Authenticator.OffsetIsExact | timed/src/source.rs:420-426 | for every decodable datagram the walked offset of any field is in bounds, headed by its type, with its value at offset + 4 and the fields before it before it |
| Authenticator.AuthenticatorOffset | timed/src/source.rs:420-426 | the loop stops at the first authenticator with the lengths of the fields before it |
| Authenticator.GenuineReplyVerifies | timed/src/source.rs:406-441 | a reply sealed over its own encoding decodes, and verifies to the cookies of its plaintext |
| Authenticator.SealLayout | ntp/src/nts.rs:425-460 | two lengths, the nonce, the ciphertext, and zeros to a multiple of four |
| Authenticator.CookieInNumbers | timed/src/source.rs:430-438 | a field in the plaintext is a cookie when its type is 0x0204 and it holds one to 1024 bytes |
| KeyExchange.DecodeMessage | ntp/src/nts.rs:171-203 | the loop computes the recursive record decoder, limits included |
| KeyExchange.CompleteIsStable | ntp/src/nts.rs:165-203 | a complete answer is unchanged by bytes appended within the limit |
| KeyExchange.IncompletePrefixes | ntp/src/nts.rs:165-203 | every prefix of an incomplete buffer is incomplete |
| KeyExchange.CompleteExactly | ntp/src/nts.rs:156-203 | an answer is complete with given records exactly when the buffer starts with their encoding, one end record last and at most 1024 before it |
| KeyExchange.TooLongExactly | ntp/src/nts.rs:171-203 | the decoder fails only for a buffer over 65536 bytes or a 1025th record that is not the end |
| KeyExchange.LongMessagesAreTaken | ntp/src/nts.rs:171-203 | up to 1024 records and an end are taken as long as they fit |
| KeyExchange.ReadMessage | timed/src/nts_ke.rs:160-195 | however a stream of at most 64 KiB is split into reads, the result is the one-shot result |
| KeyExchange.Interpret | ntp/src/nts.rs:321-382 | usable exactly when no record is fatal, the last protocol and algorithm records list ours and there is a cookie; yields the first eight cookies, last server, last port; otherwise the first fatal record's error, else that of the protocol, the algorithm or the cookies missing, in that order |
| KeyExchange.RecordVerdict | ntp/src/nts.rs:331-370 | which records are fatal, by type, and with what error: an unknown one exactly when critical, an error always, a known one exactly when its body has not its form |
| KeyExchange.FatalDecides | ntp/src/nts.rs:331-370 | the first fatal record decides, whatever follows |
| KeyExchange.OthersAreIgnored | ntp/src/nts.rs:333-368 | a warning, an end record and an unknown record that is not critical never change the answer, wherever they stand |
| KeyExchange.LastWordCounts | ntp/src/nts.rs:338-343 | only the last protocol and algorithm records count, and have to list 0 and 15 |
| KeyExchange.LaterServerCounts | ntp/src/nts.rs:344-364 | a later server or port replaces the earlier, a cookie is added until there are eight |
| KeyExchange.LeastAnswer | ntp/src/nts.rs:321-382 | protocol, algorithm and one cookie are an answer, with no server and port 123 |
| KeyExchange.RecordLayout | ntp/src/nts.rs:156-163 | critical bit, fifteen bits of type, length, body |
| ConstantTime.Eq | timed/src/source.rs:555-564 | the accumulated comparison is equality |
| Reply.CredibleMeans | timed/src/source.rs:335-441 | a reply is believed, with given cookies, if and only if it decodes to a server reply of our version echoing the nonce and, under NTS, carries the identifier and, at the place in the received bytes where its first authenticator stands, a nonce and ciphertext that open under our key over the bytes before it to those cookies |
| Reply.ConcludedIsExplained | timed/src/source.rs:366-403 | a credible packet is a kiss, unsynchronised, or a measurement of the four timestamps where they stand: a sample exactly when neither clock ran back and the path took no more than a second, with the textbook offset, delay and dispersion; else the reason why not |
| Reply.ArrivalIsUnixTime | timed/src/source.rs:540-552 | a sample is stamped with the Unix time of its arrival, within 68 years of 1970 |
| Reply.GenuineReplyIsCredible | timed/src/source.rs:335-441 | a server that echoes nonce and identifier and seals its reply is believed |
| Reply.RequestIsReadable | timed/src/source.rs:248-318 | the request sent decodes to the nonce and fields it should carry, and its seal verifies over exactly what precedes it |
| Reply.RequestTellsNothing | timed/src/source.rs:248-262 | the 48 bytes sent are 35, the interval, the nonce, and zeros |
| Reply.FieldsInNumbers | timed/src/source.rs:276-294 | identifier, cookie, and placeholders of the cookie's size up to eight in all |
| Reply.ReplyRefillsStore | timed/src/source.rs:285-293 | one cookie back per cookie or placeholder sent refills a store of one to eight to exactly eight |
| Reply.RestockStaysInTarget | timed/src/source.rs:359-363 | restocking keeps what was held, adds in order, and never passes eight |
| Reply.RestockedInNumbers | timed/src/source.rs:359-363 | only a source with keys is restocked, and nothing else of it changes |
| Reply.ReachIsLastEight | timed/src/source.rs:443-450 | the register is exactly the last eight outcomes, and zero exactly when all were losses |
| PolledSource.Source.Prepare | timed/src/source.rs:248-318 | gives a request exactly when the source can be polled: spends the newest cookie, sends the specified datagram, leaves exactly one pending request |
| PolledSource.Source.Accept | timed/src/source.rs:325-403 | what is not credible changes nothing; what is credible restocks, settles the request unless unusable, and counts one outcome; the result is explained by the packet's own fields and the four clock readings; `Valid` is kept |
| PolledSource.Source.RecordLoss | timed/src/source.rs:449-462 | a loss is shifted in, the request dropped, and the filter emptied exactly when the register is |
| PolledSource.Source.TakeReply | timed/src/main.rs:893-962 | a sample enters the filter, at most one a request, and asks for a new selection; a RATE kiss sets the longest interval for good, NTSN drops the keys, any other kiss sets the longest interval; what is not credible changes nothing |
| PolledSource.Source.AdaptPoll | timed/src/source.rs:496-506 | the interval moves one step inside its bounds, and not at all once rate limited |
| Worker.RunConserves | timed/src/worker.rs:93-159 | in every interleaving with the worker alive, `outstanding` is the jobs queued, running and finished, and a source is in flight if and only if exactly one job of its own is in the system |
| Worker.EveryJobComesBack | timed/src/worker.rs:99-159 | in every interleaving with the worker alive, whatever the outcomes, moves made and moves left are the work at the start and four for each job submitted since; nothing can move exactly when every source has been returned and nothing is outstanding |
| Worker.CanDrain | timed/src/worker.rs:99-159 | for every sequence of outcomes as many moves as there is work return every source |
| Worker.TurnExactly | timed/src/main.rs:602-645 | what a turn asks for: addresses when there are none, else keys when they are missing or past their time and there is a root store, and nothing within fifteen seconds of a failure |
| Worker.ResultExactly | timed/src/main.rs:648-746 | what a result changes of addresses, keys and deadlines |
| Worker.ResultGoesHome | timed/src/main.rs:648-746 | and that it changes no other source |
| Worker.FailureRests | timed/src/main.rs:605-606 | what failed is not tried again for fifteen seconds |
| Worker.NewKeysLast | timed/src/main.rs:618-624 | a source with addresses and new keys is left alone for a day |
| Worker.StrandedForGood | timed/src/worker.rs:112-122 | a source whose job died with the worker stays in flight in every later run |
| Worker.StrandedExactly | timed/src/worker.rs:112-122 | in every run after a death a source is stranded if and only if it was, or the loop has since tried to send a job for it |
| Worker.DeathStrands | timed/src/worker.rs:112-122 | after a death of the worker in any conserved state, and any run, a source is stranded if and only if its job was out and unfinished or it has since come due for one |
| Worker.DeathStrandsEitherWay | timed/src/main.rs:602-620 | from rest, a source is stranded that asks just before the worker dies, and one that asks just after |
| Spent.StarvedExactly | timed/src/main.rs:618-631 | in every run with the worker alive, a source without a cookie stays without a request or a handshake if and only if the loop takes no turn at it past the time its keys are due |
| Spent.SpentUntilRekeyed | timed/src/source.rs:134-138 | as many lost polls as there were cookies leave a source so, until its keys are due |
| Timed.Timed.MaintainSources | timed/src/main.rs:602-645 | the in-place loop is one maintain step per source, in order, and keeps conservation |
| Timed.Timed.CollectWork | timed/src/main.rs:648-746 | the loop is the receive steps then one process step per result, and keeps conservation |
| Timed.Timed.Collect | timed/src/worker.rs:104-127 | takes every finished result in order, with the count it keeps |

## Left out

- Sockets, poll(2), TLS, DNS, the trust store, netd, the registry and the system calls that set the clock.
- AES-SIV itself, and the key exporter of the TLS session.
- NaN, infinities and the rounding of floats; `sane_frequency` and `update` are modelled on finite reals only.
- Failure of the random number generator in `prepare` (a cookie already taken is then lost) and in `schedule`.
- `next_poll`, bursts and the jittered schedule; the notes, names and addresses a source carries for listings.
- The MessagePack control protocol, zone names, server lists, the cookie file and the drift file.
- `rebuild_sources`, which renumbers the entries jobs refer to; status labels in `decide`.
- ClosedLoop.Converges: intervals under a quarter second.
- VaryingLoop.VaryingConverges: intervals that vary by more than a factor of two other than in turn, and the frequency-locked branch from 2048 s on while they vary.
- NoisyLoop.NoiseIsHeld: intervals of 2048 s and more, where a quarter of the measurements' difference is learned too, are modelled without noise only.
- NoisyLoop.BadPathIsSurvived: the 36 ppm hold for every sequence of errors; that the one sequence of timed/src/discipline.rs:511-516 comes to under 15 ppm is not shown.
- KeyExchange.Interpret: whether a server name is text, and a plausible host, is a parameter.
- KeyExchange.ReadMessage: streams over 64 KiB, where the outcome can depend on how the last read is cut.
- Worker.RunConserves: job contents other than the source index, and the order of addresses within a handshake.
