# ID2T statistics engine, modelled in Dafny

This project models the packet statistics engine of ID2T. The `statistics` class (code_boost/src/cxx/statistics.cpp) reads a capture one packet event at a time. It keeps its tables in place:

- per-address entries with degrees and per-interval rates;
- TTL, window-size, ToS, MSS, port and protocol distributions;
- unrecognised-PDU counters;
- conversations, and extended conversations split into communication intervals;
- interval records taken against a baseline copy of the previous interval's state.

The project also models the pure computations of the database writer (code_boost/src/cxx/statistics_db.cpp):

- the `.sqlite3` file-name rule;
- `calculate_latency`;
- the SYN/ACK round-trip scan;
- the delay, rate and emission rules of extended conversation rows;
- the port-service fallback;
- the reading of the nmap services file, with `std::getline` and `std::stoi`;
- the selection of interval tables.

Modules:

- `Common` (common.dfy): results, float quotients, C and chrono integer arithmetic, counting maps, hash-table iteration orders.
- `Entropy` (entropy.dfy): how a counting map is split against its baseline into the list of changed counts and the list of novel counts; Shannon entropy over such a list; the guarded normalisation. `log2` is a function parameter that is left uninterpreted.
- `IpStats` (ipstats.dfy): the per-address entry, what one packet does to it, its degree bookkeeping, and the per-interval packet and kbyte rates.
- `Conversations` (conversations.dfy): `conv_statistics`, `conv_statistics_extended`, the interval segmentation of extended conversations, and the interval averages.
- `Records` (records.dfy): the protocol, port and PDU keys and counters; the interval record; the capture duration; the per-address and per-file reports.
- `Engine` (statistics.dfy): class `Statistics`, with one field per member table of the source and one method per event or query. Each method states the new value of what it modifies, in terms of the functions of the other modules, and it keeps the parts of the object invariant that it touches.
- `Database` (statistics_db.dfy): the writer's computations.

Timestamps are integers in microseconds. Sizes in kbytes, and rates, are `real`. Truncation to a 32-bit `int` (`ToInt32`) is written out where the database writer stores a wider value into an `int`. The `int` counters of statistics.cpp are unbounded in the model (see "## Left out"). C's truncating integer division is written out too, as `CDiv` and `CRem`. The unsigned 64-bit division of chrono durations by a vector size is `ChronoDivBySize`.

## Model

| member | source | states |
|---|---|---|
| Common.ChronoDivBySize | code_boost/src/cxx/statistics_db.cpp:463-464 | a duration divided by a vector size, in unsigned 64-bit arithmetic; it is the exact truncated mean for a non-negative sum below 2^63, and always a signed 64-bit count |
| Common.Increment | code_boost/src/cxx/statistics.cpp:534-537 | `++m[k]`: `k` becomes a key, its count is one more than before (0 when absent), every other count is unchanged |
| Common.IncrementKeepsBelow | code_boost/src/cxx/statistics.cpp:514-547 | counting a value never lets a current count fall below the baseline copy's count |
| Common.Enumerate | code_boost/src/cxx/statistics.cpp:63 | a walk over a hash table visits every key exactly once, in some order |
| Common.CDiv | code_boost/src/cxx/statistics.cpp:795-797 | C integer division; it agrees with floor division for a non-negative dividend |
| Common.CRem | code_boost/src/cxx/statistics.cpp:798 | C remainder: dividend = quotient * divisor + remainder, the remainder is below the divisor in magnitude and not negative for a non-negative dividend |
| Common.Divide | code_boost/src/cxx/statistics.cpp:851-856 | float division is finite exactly when the divisor is non-zero, and then the quotient times the divisor is the dividend |
| Common.Scale | code_boost/src/cxx/statistics.cpp:851-852 | scaling a quotient keeps it finite or non-finite, and scales a finite value |
| Entropy.Normalized | code_boost/src/cxx/statistics.cpp:297-304 | the normalised entropy is 0 for an empty list, and 0 for a one-element list when log2(1) is not positive; when n > 0 and lg(n) > 0 it times lg(n) is the entropy, and otherwise it is 0 |
| Entropy.Normalize | code_boost/src/cxx/statistics.cpp:297-300 | the guarded division computes Normalized |
| Entropy.AccumulateEntropy | code_boost/src/cxx/statistics.cpp:285-289 | the entropy loop sums -p*lg(p) over every count of the list |
| Entropy.AccumulatePositiveEntropy | code_boost/src/cxx/statistics.cpp:108-113 | the per-address entropy loop sums -p*lg(p) over the counts with p > 0 |
| Entropy.CountOne | code_boost/src/cxx/statistics.cpp:267-282 | one pass of the partition loop extends both lists by that key's contribution, and the totals stay the sums of the lists |
| Entropy.CalculateEntropies | code_boost/src/cxx/statistics.cpp:257-307 | calculateEntropies returns the entropy, novel entropy and both normalised values of the changed-count and novel-count lists, for the order in which the map was walked |
| Entropy.EmptyBaselineAllNovel | code_boost/src/cxx/statistics.cpp:266-283 | against an empty baseline the changed-count list and the novel-count list are identical |
| Entropy.NovelCountsLength | code_boost/src/cxx/statistics.cpp:268-274 | the novel list has exactly one entry per key the baseline does not know |
| Entropy.AllCountsLength | code_boost/src/cxx/statistics.cpp:266-283 | the changed-count list has exactly one entry per key that is new or whose count changed |
| Entropy.CountsPositive | code_boost/src/cxx/statistics.cpp:266-283 | when counts are positive and never below the baseline, every entry of both lists is at least 1 |
| Entropy.SumOfPositives | code_boost/src/cxx/statistics.cpp:286-295 | a list of counts of at least 1 sums to at least its length, so the totals that probabilities divide by are positive |
| Entropy.GuardDropsNothing | code_boost/src/cxx/statistics.cpp:110-113 | for positive counts, skipping the terms with p <= 0 changes nothing |
| Entropy.IpAllCountsDropZeros | code_boost/src/cxx/statistics.cpp:74-77 | the per-address list is the changed-count list with its zero entries removed |
| Entropy.NonZero | code_boost/src/cxx/statistics.cpp:74 | the filtered list holds no zero |
| Entropy.ValuesIn | code_boost/src/cxx/statistics.cpp:171-175 | one count per address, in the walk order, read from the map |
| Entropy.IntervalIpEntropies | code_boost/src/cxx/statistics.cpp:132-149 | eight values; each normalised entropy is the entropy over log2 of its list's length when that length is positive with a positive log2, and 0 otherwise; an empty list gives entropy 0 |
| Entropy.CumIpEntropies | code_boost/src/cxx/statistics.cpp:190-199 | four values; each normalised entropy is guarded by its list's length as in the interval case; an empty list gives entropy 0 |
| Entropy.IpAllCountsLength | code_boost/src/cxx/statistics.cpp:62-77 | the per-address list has one entry per address whose count changed since the baseline |
| Entropy.SplitIpCounts | code_boost/src/cxx/statistics.cpp:63-93 | the per-address loop builds the non-zero changed counts and the novel counts of one direction, with their sums |
| Entropy.SplitOne | code_boost/src/cxx/statistics.cpp:64-92 | one pass of that loop extends both lists by one address's contribution |
| Entropy.UnchangedCountsEmpty | code_boost/src/cxx/statistics.cpp:266-304 | a table taken against itself gives empty lists and four zero entropies |
| Entropy.NewKeysCount | code_boost/src/cxx/statistics.cpp:338-342 | when no baseline key is lost, the difference of the table sizes is the number of keys first seen |
| IpStats.Kbytes | code_boost/src/cxx/statistics.cpp:670 | a size in kbytes is non-negative, and times 1024 it gives the bytes |
| IpStats.ClassIfNewSender | code_boost/src/cxx/statistics.cpp:659-662 | the sender gets an entry with its old traffic; its class becomes the given one exactly when it has sent no packet yet; no other entry changes |
| IpStats.ClassIfNewReceiver | code_boost/src/cxx/statistics.cpp:665-668 | the receiver gets an entry with its old traffic; its class becomes the given one exactly when it has received no packet yet; no other entry changes |
| IpStats.SentBy | code_boost/src/cxx/statistics.cpp:673-676 | the sender's class stays and its traffic records one packet sent of the given kbytes at the given time; no other entry changes |
| IpStats.ReceivedBy | code_boost/src/cxx/statistics.cpp:679-682 | the receiver's class stays and its traffic records one packet received of the given kbytes at the given time; no other entry changes |
| IpStats.CountPacket | code_boost/src/cxx/statistics.cpp:657-682 | the counting half of a packet adds entries for both endpoints, and changes nothing but the endpoints' counters and classes |
| IpStats.BumpOut | code_boost/src/cxx/statistics.cpp:689 | only the sender's entry changes |
| IpStats.BumpIn | code_boost/src/cxx/statistics.cpp:690 | only the receiver's entry changes |
| IpStats.BumpOverall | code_boost/src/cxx/statistics.cpp:696-697 | only the named entry changes |
| IpStats.RecordContact | code_boost/src/cxx/statistics.cpp:684-702 | the degree bookkeeping adds no address entry |
| IpStats.PacketSent | code_boost/src/cxx/statistics.cpp:657-703 | after a packet the address table holds the old addresses plus the sender and the receiver |
| IpStats.CountPacketTraffic | code_boost/src/cxx/statistics.cpp:659-682 | the sender sent one more packet, its kbytes sent grow by the packet's kbytes and its last sent timestamp is this one; the receiver likewise for received; for two addresses, each size list gains exactly this packet's kbytes and the sender's received counters and the receiver's sent counters stay; one address gains the size twice |
| IpStats.CountPacketClass | code_boost/src/cxx/statistics.cpp:659-668 | the sender takes the sender class exactly when it had sent nothing, the receiver the receiver class exactly when it had received nothing, and otherwise the class stays; one address for both ends takes the receiver class first, then the sender class |
| IpStats.RecordSentOk | code_boost/src/cxx/statistics.cpp:673-676 | after sending, the sent counter still equals the length of the sent timestamps, and one size per packet is kept |
| IpStats.RecordReceivedOk | code_boost/src/cxx/statistics.cpp:679-682 | after receiving, the received counter still equals the length of the received timestamps, and one size per packet is kept |
| IpStats.ClassKeepsConsistent | code_boost/src/cxx/statistics.cpp:659-668 | setting a class keeps every entry consistent |
| IpStats.TrafficKeepsConsistent | code_boost/src/cxx/statistics.cpp:673-682 | recording a sent or received packet keeps every entry consistent |
| IpStats.CountPacketConsistent | code_boost/src/cxx/statistics.cpp:657-682 | the counting half of a packet keeps every entry consistent |
| IpStats.RecordContactEffect | code_boost/src/cxx/statistics.cpp:684-702 | the degree bookkeeping raises the sender's out-degree and the receiver's in-degree exactly on the first packet between them in that direction, leaves counters and rates alone, and adds the receiver to the sender's contacts only |
| IpStats.RecordContactStats | code_boost/src/cxx/statistics.cpp:686-698 | the degree part of that effect, for every address |
| IpStats.RecordContactSets | code_boost/src/cxx/statistics.cpp:700 | the contact part of that effect: only the sender's set gains the receiver |
| IpStats.RecordContactOverall | code_boost/src/cxx/statistics.cpp:692-698 | both overall degrees grow by one exactly when neither endpoint has contacted the other before |
| IpStats.ContactKeepsConsistent | code_boost/src/cxx/statistics.cpp:684-702 | the degree bookkeeping keeps every entry consistent |
| IpStats.ContactKeepsKnown | code_boost/src/cxx/statistics.cpp:700 | every contacted address still has an entry |
| IpStats.ContactOk | code_boost/src/cxx/statistics.cpp:684-702 | the table invariant is kept: every out-degree is the number of distinct addresses contacted, and every in-degree the number of distinct contactors |
| IpStats.PacketSentOk | code_boost/src/cxx/statistics.cpp:657-703 | a whole packet keeps the table invariant |
| IpStats.ApplyPacketSent | code_boost/src/cxx/statistics.cpp:657-703 | the packet step yields PacketSent, keeps the table invariant and loses no address |
| IpStats.PacketSentDegrees | code_boost/src/cxx/statistics.cpp:684-702 | with extra tests on, between two different addresses: out- and in-degree grow exactly on the first packet from sender to receiver; overall degree grows exactly when, in addition, the receiver never contacted the sender; only the sender's contacts gain the receiver |
| IpStats.CountPacketDegrees | code_boost/src/cxx/statistics.cpp:657-682 | the counting half leaves both endpoints' degrees alone |
| IpStats.ContactDegrees | code_boost/src/cxx/statistics.cpp:686-698 | the degree steps of both endpoints under the bookkeeping |
| IpStats.ContactSets | code_boost/src/cxx/statistics.cpp:700 | the bookkeeping adds the receiver to the sender's contacts and leaves the receiver's contacts alone |
| IpStats.PacketSentPlain | code_boost/src/cxx/statistics.cpp:684 | with extra tests off no degree and no contact changes |
| IpStats.Exchange | code_boost/src/cxx/statistics.cpp:684-702 | A→B and then B→A, on two fresh addresses, leaves both with in-, out- and overall degree 1 |
| IpStats.FirstPacket | code_boost/src/cxx/statistics.cpp:684-702 | the first packet A→B between fresh addresses: A gets out- and overall degree 1, B gets in- and overall degree 1, only A has contacts |
| IpStats.ReplyPacket | code_boost/src/cxx/statistics.cpp:684-702 | the reply B→A after that leaves both at degrees (1, 1, 1) |
| IpStats.ActiveCount | code_boost/src/cxx/statistics.cpp:218-225 | the interval's packet count is at most the number of packets walked |
| IpStats.ActiveKbytesNonNegative | code_boost/src/cxx/statistics.cpp:218-225 | the interval's kbytes are non-negative |
| IpStats.PktRate | code_boost/src/cxx/statistics.cpp:228 | the packet rate is non-negative |
| IpStats.KbyteRate | code_boost/src/cxx/statistics.cpp:229 | the kbyte rate (factor 100000) is non-negative for non-negative kbytes |
| IpStats.RecordRateOk | code_boost/src/cxx/statistics.cpp:232-247 | appending a rate keeps the running maximum equal to the largest rate (or 0), and the minimum 0 or a recorded rate (the smallest rate when none is 0); the new rate lies between them |
| IpStats.WithIntervalRateConsistent | code_boost/src/cxx/statistics.cpp:213-248 | the rate update keeps an entry consistent and changes only its two rate tracks |
| IpStats.ActiveTotals | code_boost/src/cxx/statistics.cpp:217-225 | the inner loop counts the packets sent at or after the interval start, and sums their kbytes, over the pairs of the two lists |
| IpStats.WithIntervalRates | code_boost/src/cxx/statistics.cpp:213-248 | every address keeps its entry |
| IpStats.IntervalRatesOf | code_boost/src/cxx/statistics.cpp:212-249 | the loop over the address table computes WithIntervalRates |
| IpStats.WithIntervalRatesOk | code_boost/src/cxx/statistics.cpp:212-249 | the rate update keeps the table invariant and the traffic, and every address gains exactly one packet rate and one kbyte rate |
| IpStats.DefaultInsertOk | code_boost/src/cxx/statistics.cpp:848 | reading through `operator[]` keeps the table invariant, adds the address, and gives an unknown address the zero entry |
| IpStats.SentCounts | code_boost/src/cxx/statistics.cpp:67-72 | each address's packets sent |
| IpStats.ReceivedCounts | code_boost/src/cxx/statistics.cpp:82-87 | each address's packets received |
| IpStats.RatesKeepCounts | code_boost/src/cxx/statistics.cpp:212-249 | the rate update changes no packet count |
| Conversations.WithSampleOk | code_boost/src/cxx/statistics.cpp:379-383 | the list of inter-arrival samples holds gaps between consecutive packets, and at most two of them, since the counter is raised before the `<= 3` test |
| Conversations.StoreConvOk | code_boost/src/cxx/statistics.cpp:378-386 | storeConvStat keeps packet count = number of timestamps = number of flag sets, counts the packet, puts its timestamp and flags last, and keeps the earlier samples |
| Conversations.ConvKey | code_boost/src/cxx/statistics.cpp:400-409 | the key is the reversed conversation exactly when that one is already known (or both are the same), else the forward one |
| Conversations.AddConv | code_boost/src/cxx/statistics.cpp:399-410 | addConvStat adds at most the chosen key |
| Conversations.AddConvOk | code_boost/src/cxx/statistics.cpp:399-410 | addConvStat keeps every entry consistent and never files a conversation under both directions |
| Conversations.AddConvDirection | code_boost/src/cxx/statistics.cpp:399-410 | the packet goes to the reversed key's entry when that key is known, else to the forward key's entry; no other entry changes |
| Conversations.ReplyJoinsConversation | code_boost/src/cxx/statistics.cpp:399-410 | A→B then B→A on a fresh conversation give one entry, under A→B, with two packets and both timestamps |
| Conversations.AddConvExt | code_boost/src/cxx/statistics.cpp:424-468 | addConvStatExt adds at most the chosen key |
| Conversations.FirstExtOk | code_boost/src/cxx/statistics.cpp:457-465 | a first packet makes a consistent entry with the one interval {t, t, 1} |
| Conversations.ExtendExtOk | code_boost/src/cxx/statistics.cpp:439-454 | a further packet keeps the entry consistent and counts it; a new interval opens exactly when the packet comes more than the threshold after the last interval's end |
| Conversations.NextIntervalsOk | code_boost/src/cxx/statistics.cpp:446-454 | the interval packet counts still sum to the packet count; the intervals start at the first packet and end at the newest; consecutive intervals are more than the threshold apart |
| Conversations.AddConvExtOk | code_boost/src/cxx/statistics.cpp:424-468 | addConvStatExt keeps every extended entry consistent |
| Conversations.AddConvExtFirst | code_boost/src/cxx/statistics.cpp:457-465 | an unknown conversation gets exactly one interval {t, t, 1}, under the forward key |
| Conversations.Seconds | code_boost/src/cxx/statistics.cpp:505 | a duration in seconds times 10^6 is the microseconds |
| Conversations.Mean | code_boost/src/cxx/statistics.cpp:500-502 | the mean times the number of values is the total |
| Conversations.SumIntervals | code_boost/src/cxx/statistics.cpp:490-498 | the loop sums the interval packet counts, their durations and the idle times between them |
| Conversations.AggregateEntry | code_boost/src/cxx/statistics.cpp:477-505 | the per-entry body computes the interval averages |
| Conversations.IdleTimeAbove | code_boost/src/cxx/statistics.cpp:494-498 | n intervals more than the threshold apart are idle for at least (n-1)*(threshold+1) in total |
| Conversations.IdleMeanAbove | code_boost/src/cxx/statistics.cpp:501 | the mean idle time of a consistent entry exceeds the threshold |
| Conversations.AggregatedMeaning | code_boost/src/cxx/statistics.cpp:481-505 | one interval gives a mean burst equal to its packet count, no time between intervals, and an interval time equal to the whole duration; several give a mean burst that times the number of intervals is the packet count, a mean gap above the threshold, and a mean interval time that times the number of intervals is the summed durations, such that all intervals and all gaps add up to the whole duration; the total duration spans the first to the newest packet |
| Conversations.SpanSplits | code_boost/src/cxx/statistics.cpp:488-496 | the interval durations and the gaps between intervals add up to the span from the first start to the last end |
| Conversations.IntervalTimesSpan | code_boost/src/cxx/statistics.cpp:488-504 | with several intervals, the mean interval time times their number, plus the mean gap times the number of gaps, is the total duration |
| Conversations.AllAggregated | code_boost/src/cxx/statistics.cpp:475-507 | every conversation keeps its entry |
| Conversations.AggregateAll | code_boost/src/cxx/statistics.cpp:475-507 | the loop over the table aggregates every entry |
| Conversations.AllAggregatedOk | code_boost/src/cxx/statistics.cpp:475-507 | aggregating keeps every entry consistent, and its packets and intervals as they were |
| Records.IntervalCountsMeaning | code_boost/src/cxx/statistics.cpp:328-331 | the interval's packets and kbytes are what arrived since the baseline, and both rates are per second of an interval given in microseconds |
| Records.IntervalCountsAgainstSelf | code_boost/src/cxx/statistics.cpp:328-366 | right after the baseline is moved, a record counts nothing |
| Records.IntervalCountsAdd | code_boost/src/cxx/statistics.cpp:328-366 | two consecutive intervals count, together, the packets, kbytes and novel values of both |
| Records.IpEntropiesAgainst | code_boost/src/cxx/statistics.cpp:48-159 | the interval IP entropies are eight values |
| Records.IpEntropiesMeaning | code_boost/src/cxx/statistics.cpp:62-149 | the four entropies are over the per-address changes since the baseline and the novel counts, each over its own sum; the normalised source (destination) entropy is guarded by the number of addresses whose sent (received) count changed, the novel ones by the number of addresses new to the baseline; no such address gives 0 |
| Records.CumEntropiesOf | code_boost/src/cxx/statistics.cpp:165-206 | the cumulative IP entropies are four values |
| Records.CumEntropiesMeaning | code_boost/src/cxx/statistics.cpp:171-199 | one entry per address, its packets sent (received) so far; the probabilities divide by the packet counter, not by the list's sum; both normalisations are guarded by the number of addresses |
| Records.IpEntropiesAgainstSelf | code_boost/src/cxx/statistics.cpp:63-153 | against a baseline equal to the address table, all eight IP entropies are 0 |
| Records.LastIntervalIpEntropies | code_boost/src/cxx/statistics.cpp:49-154 | the extra-tests branch computes the eight entropies against the baseline for the walk order, and both novel counts are the number of addresses the baseline does not know |
| Records.NovelAddresses | code_boost/src/cxx/statistics.cpp:66-70 | the novel lists have one entry per address new to the baseline, as sender and as receiver |
| Records.CumIpEntropiesOfTable | code_boost/src/cxx/statistics.cpp:171-201 | the loop collects every address's packets sent and received and computes the four cumulative entropies |
| Records.ValueTablesEntropies | code_boost/src/cxx/statistics.cpp:344-348 | each value table's entropies against its baseline, each table walked once |
| Records.CumIpEntropiesOf | code_boost/src/cxx/statistics.cpp:166-201 | the extra-tests branch of calculateIPsCumEntropy |
| Records.MeasureInterval | code_boost/src/cxx/statistics.cpp:319-348 | the record of the interval and the novel address counts (kept as they were when extra tests are off) |
| Records.IntervalRecordMeaning | code_boost/src/cxx/statistics.cpp:326-348 | the record holds the interval's bounds, the packets, kbytes and payload packets since the baseline, each value-table novelty count equal to the number of values first seen, and both novel address counts equal to the number of addresses first seen |
| Records.IntervalRecordAgainstSelf | code_boost/src/cxx/statistics.cpp:326-366 | against a baseline that differs from the tables only in address entries with the same packet counts, a record counts nothing and has all entropies 0 |
| Records.IntervalRecordRightAfter | code_boost/src/cxx/statistics.cpp:326-366 | a second record right after the first, once the rates are appended and with no packet in between, counts nothing and has all entropies 0 |
| Records.TableEntropiesAgainstSelf | code_boost/src/cxx/statistics.cpp:344-348 | a value table against itself has four zero entropies |
| Records.TimersubExact | code_boost/src/cxx/statistics.cpp:794 | for timestamps in range, timersub gives the exact difference, again in range |
| Records.DurationPartsExact | code_boost/src/cxx/statistics.cpp:795-799 | the hour, minute and second parts add up to the seconds; minutes and seconds are below 60 in magnitude, and not negative for a non-negative duration |
| Records.CaptureDurationExact | code_boost/src/cxx/statistics.cpp:787-799 | the parts spell out the capture length in microseconds |
| Records.FractionOfMicros | code_boost/src/cxx/statistics.cpp:819 | below a million, `%06u` printed after the point reads back as microseconds / 10^6 |
| Records.CaptureDurationSecondsExact | code_boost/src/cxx/statistics.cpp:811-821 | for a capture shorter than 2^32 seconds, the seconds read back are the capture length exactly |
| Records.ReportForMeaning | code_boost/src/cxx/statistics.cpp:846-858 | over a capture of non-zero length the bandwidths are kbits per second and the rates packets per second; each average size is finite exactly when a packet was sent (received), and then it times the packet count gives the kbytes |
| Records.ReportForUnknown | code_boost/src/cxx/statistics.cpp:848-856 | an unknown address reports zero rates and NaN averages |
| Records.AvgPacketSize | code_boost/src/cxx/statistics.cpp:754-757 | the mean packet size is finite exactly when packets were counted, and then it times the count times 1024 is the byte sum |
| Records.TrafficOf | code_boost/src/cxx/statistics.cpp:917-923 | one set of traffic counters per address walked |
| Records.SummarizeTable | code_boost/src/cxx/statistics.cpp:914-931 | the loop sums the packets sent and the kbytes received and sent over the walk order, and derives the file statistics |
| Records.SummaryMeaning | code_boost/src/cxx/statistics.cpp:925-957 | the summary is the error exactly when there is no address; otherwise the packets sent per host are the truncated mean of the packets sent, and the bandwidths are finite exactly when the capture has a length |
| Records.MeanBounds | code_boost/src/cxx/statistics.cpp:928 | the truncated mean lies between consecutive multiples |
| Engine.Statistics.constructor | code_boost/src/cxx/statistics.cpp:637-639 | a fresh engine holds its resource path, zero counters, empty tables and extra tests off, and is valid |
| Engine.Statistics.CheckPayload | code_boost/src/cxx/statistics.cpp:18-27 | with extra tests on, a layer-4 PDU longer than its header adds one payload packet |
| Engine.Statistics.CheckTcpChecksum | code_boost/src/cxx/statistics.cpp:35-41 | with extra tests on, exactly one of the correct and incorrect checksum counters grows |
| Engine.Statistics.IncrementTtlCount | code_boost/src/cxx/statistics.cpp:534-537 | the TTL value and the (address, TTL) pair are counted once more |
| Engine.Statistics.IncrementWinCount | code_boost/src/cxx/statistics.cpp:524-527 | the window size and the (address, size) pair are counted once more |
| Engine.Statistics.IncrementTosCount | code_boost/src/cxx/statistics.cpp:544-547 | the ToS value and the (address, ToS) pair are counted once more |
| Engine.Statistics.IncrementMssCount | code_boost/src/cxx/statistics.cpp:514-517 | the MSS value and the (address, MSS) pair are counted once more |
| Engine.Statistics.IncrementProtocolCount | code_boost/src/cxx/statistics.cpp:554-556 | the (address, protocol) counter grows by one |
| Engine.Statistics.GetProtocolCount | code_boost/src/cxx/statistics.cpp:563-565 | the count, 0 for a pair never seen, which the read then inserts |
| Engine.Statistics.IncreaseProtocolByteCount | code_boost/src/cxx/statistics.cpp:573-575 | the (address, protocol) byte count grows by the packet's bytes |
| Engine.Statistics.GetProtocolByteCount | code_boost/src/cxx/statistics.cpp:583-585 | the byte count, 0 for a pair never seen, which the read then inserts |
| Engine.Statistics.IncrementPortCount | code_boost/src/cxx/statistics.cpp:596-602 | both ports are counted in the port table; the sender's outgoing and the receiver's incoming port each grow by one in `ip_ports` |
| Engine.Statistics.IncreasePortByteCount | code_boost/src/cxx/statistics.cpp:614-618 | both `ip_ports` entries grow by the packet's bytes |
| Engine.Statistics.IncrementUnrecognizedPduCount | code_boost/src/cxx/statistics.cpp:628-632 | one more occurrence, with the newest timestamp |
| Engine.Statistics.AssignMacAddress | code_boost/src/cxx/statistics.cpp:646-648 | the newest MAC assignment wins |
| Engine.Statistics.IncrementPacketCount | code_boost/src/cxx/statistics.cpp:871-873 | one more packet, and the counters stay above their baseline |
| Engine.Statistics.AddPacketSize | code_boost/src/cxx/statistics.cpp:763-765 | the size sum grows by the packet's size |
| Engine.Statistics.SetTimestampFirstPacket | code_boost/src/cxx/statistics.cpp:709-711 | the first-packet timestamp is set |
| Engine.Statistics.SetTimestampLastPacket | code_boost/src/cxx/statistics.cpp:717-719 | the last-packet timestamp is set |
| Engine.Statistics.SetDoExtraTests | code_boost/src/cxx/statistics.cpp:770-772 | the extra-tests switch is set |
| Engine.Statistics.SetDefaultInterval | code_boost/src/cxx/statistics.cpp:864-866 | the default interval is set |
| Engine.Statistics.AddIpStatPacketSent | code_boost/src/cxx/statistics.cpp:657-703 | the address tables become PacketSent of the old ones, and stay consistent; no address of the baseline is lost |
| Engine.Statistics.GetStatsForIp | code_boost/src/cxx/statistics.cpp:846-858 | the report of the address's entry over the capture length, with the entry inserted when it was missing; no address of the baseline is lost |
| Engine.Statistics.FileStatistics | code_boost/src/cxx/statistics.cpp:912-931 | the file statistics writeToDatabase derives, or the error when no address was seen (code_boost/src/cxx/statistics.cpp:954-957) |
| Engine.Statistics.AddConvStat | code_boost/src/cxx/statistics.cpp:399-410 | the conversation table becomes AddConv of the old one and stays consistent |
| Engine.Statistics.AddConvStatExt | code_boost/src/cxx/statistics.cpp:424-468 | with extra tests on, the extended table becomes AddConvExt of the old one; otherwise it is unchanged; it stays consistent |
| Engine.Statistics.CreateCommIntervalStats | code_boost/src/cxx/statistics.cpp:475-507 | every extended entry gets its interval averages, and the table stays consistent |
| Engine.Statistics.CalculateIpIntervalPacketRate | code_boost/src/cxx/statistics.cpp:212-249 | every address gets the interval's rates, and the address tables stay consistent; no address of the baseline is lost |
| Engine.Statistics.CalculateLastIntervalIpsEntropy | code_boost/src/cxx/statistics.cpp:48-159 | with extra tests on, the eight entropies against the baseline, and novel counts equal to the number of addresses new to the baseline; with extra tests off, eight times -1 and the novel counts unchanged |
| Engine.Statistics.CalculateIpsCumEntropy | code_boost/src/cxx/statistics.cpp:165-206 | with extra tests on, the four cumulative entropies; otherwise four times -1 |
| Engine.Statistics.ValueTableEntropies | code_boost/src/cxx/statistics.cpp:344-348 | the five value-table entropies against the baseline |
| Engine.Statistics.MeasureIntervalRecord | code_boost/src/cxx/statistics.cpp:319-348 | the interval record against the baseline, with the novel counts the IP entropy pass leaves |
| Engine.Statistics.StoreInterval | code_boost/src/cxx/statistics.cpp:326-348 | the record is filed under the interval's end, replacing an older one with the same end |
| Engine.Statistics.UpdateBaseline | code_boost/src/cxx/statistics.cpp:350-366 | the baseline becomes a copy of the current counters and tables, which keeps the baseline parts of the invariant: its sizes, its counters below the running ones, and its values and addresses among the current ones |
| Database.ContainsMeaning | code_boost/src/cxx/statistics_db.cpp:21 | `find` succeeds exactly when the text occurs somewhere in the string |
| Database.DatabasePathMeaning | code_boost/src/cxx/statistics_db.cpp:21-23 | the file name always contains ".sqlite3", starts with the given path, and is the path itself exactly when that already contains ".sqlite3" |
| Database.DatabasePathIdempotent | code_boost/src/cxx/statistics_db.cpp:21-23 | applying the rule twice equals applying it once |
| Database.ToInt32 | code_boost/src/cxx/statistics_db.cpp:456-457 | the stored `int` is within the 32-bit range, and is the value itself when that fits |
| Database.CalculateLatency | code_boost/src/cxx/statistics_db.cpp:450-468 | calculate_latency computes the maximum, minimum and mean of LatencyOf |
| Database.LatencyToMeaning | code_boost/src/cxx/statistics_db.cpp:455-462 | the loop invariant: for small non-negative samples, the sum is exact, the maximum is the largest sample or 0, and the minimum is 0 or a sample (the smallest when none is 0) |
| Database.LatencyMeaning | code_boost/src/cxx/statistics_db.cpp:450-468 | no samples give 0, 0, 0; otherwise maximum = the largest sample, mean = truncated sum / count, and minimum = 0 or a sample (the smallest when no sample is 0) |
| Database.LatencyMinimumAfterZero | code_boost/src/cxx/statistics_db.cpp:460-461 | a 0 held as the minimum is overwritten by the next sample: 5, 0, 7 report minimum 7 |
| Database.ScanRoundTrips | code_boost/src/cxx/statistics_db.cpp:510-522 | the scan loop computes RttScanTo, one step per flag entry |
| Database.RttScanMeaning | code_boost/src/cxx/statistics_db.cpp:510-522 | every sample is the time from a SYN to a later ACK; the held value is 0 unless a SYN is pending, and then it is that SYN's timestamp |
| Database.RoundTripAverageMeaning | code_boost/src/cxx/statistics_db.cpp:524-532 | the round-trip time is -1 without samples and the truncated mean of small non-negative samples otherwise; with no SYN pending, the code as written agrees with it |
| Database.RoundTripTwoAnswered | code_boost/src/cxx/statistics_db.cpp:510-532 | flags SYN, ACK, SYN, ACK at 0, 100, 500, 550 give samples 100 and 50, and round-trip time 75 |
| Database.RoundTripPendingSyn | code_boost/src/cxx/statistics_db.cpp:524-529 | a trailing unanswered SYN is counted into the average as written: 600 instead of 100 |
| Database.ConvRowFor | code_boost/src/cxx/statistics_db.cpp:497-537 | the loop body computes the row of ConvRowOf |
| Database.ConvRowAsWritten | code_boost/src/cxx/statistics_db.cpp:497-548 | the row as written exists exactly when the corrected one does and differs from it at most in the round-trip time |
| Database.ConvRowAsWrittenAgrees | code_boost/src/cxx/statistics_db.cpp:513-529 | the row as written is the corrected row whenever no SYN is left pending |
| Database.ConvRowPendingSyn | code_boost/src/cxx/statistics_db.cpp:513-548 | SYN, ACK, SYN at 0, 100 and 500 writes 600 as the round-trip time, where the corrected row has 100 |
| Database.ConvRowMeaning | code_boost/src/cxx/statistics_db.cpp:497-537 | a row exists exactly for two packets or more; it has the entry's packet count, a finite rate exactly when the first and last packet are apart, and a round-trip time of -1 without samples, else the truncated mean of the samples |
| Database.ExtDelaysOf | code_boost/src/cxx/statistics_db.cpp:598-604 | the delay loop computes ExtDelaysTo |
| Database.ExtDelaysMeaning | code_boost/src/cxx/statistics_db.cpp:593-604 | minimum and maximum are -1 exactly without samples; otherwise they are samples and bound every sample |
| Database.ExtRowFor | code_boost/src/cxx/statistics_db.cpp:593-644 | the loop body computes the row of ExtRowOf |
| Database.ExtRowMeaning | code_boost/src/cxx/statistics_db.cpp:597-638 | a row exactly when the mean packets per interval is positive; minimum and maximum delay only for UDP or TCP with two packets or more, and then present exactly when there are samples, and bounding them; the rate is the packet count when the duration is 0, else packets per duration |
| Database.PortServiceMeaning | code_boost/src/cxx/statistics_db.cpp:339-343 | a named port gets its name; any other port gets "unavailable" exactly when port 0 says so, else "unknown" |
| Database.PortLookupKeepsAnswers | code_boost/src/cxx/statistics_db.cpp:339-341 | the empty names that the lookups insert never change a later answer |
| Database.StoiIntToString | code_boost/src/cxx/statistics_db.cpp:882 | stoi reads back every decimal rendering of an `int` |
| Database.Getline | code_boost/src/cxx/statistics_db.cpp:873-879 | getline keeps the stream in range, and moves forward or reaches the end |
| Database.NmapRecordsOfLines | code_boost/src/cxx/statistics_db.cpp:873-886 | a file made of a header line and lines of a port, a service and a rest (no comma in the two fields, no newline in the rest) yields the port and service of every line where both are non-empty, in order |
| Database.RecordsFromText | code_boost/src/cxx/statistics_db.cpp:875-886 | the reading loop over such lines keeps exactly their records |
| Database.ReadsLine | code_boost/src/cxx/statistics_db.cpp:877-879 | the three getline calls of a pass return the port field, the service field and the rest of the line |
| Database.GetlineField | code_boost/src/cxx/statistics_db.cpp:877-878 | getline up to a delimiter not in the field returns the field and stands after the delimiter |
| Database.RecordsFromEnd | code_boost/src/cxx/statistics_db.cpp:875-883 | the pass that starts at the end of the file keeps no record |
| Database.ReadPortServices | code_boost/src/cxx/statistics_db.cpp:861-894 | the reading loop yields PortServicesOf; an unreadable file gives {0: "unavailable"} |
| Database.InsertAllFails | code_boost/src/cxx/statistics_db.cpp:880-883 | the reading fails exactly when some kept port field cannot be read by stoi |
| Database.InsertAllKeeps | code_boost/src/cxx/statistics_db.cpp:882 | `insert` keeps every port already present and adds every port read |
| Database.InsertAllOnlyRead | code_boost/src/cxx/statistics_db.cpp:882 | no port other than those read is added |
| Database.InsertAllFirstWins | code_boost/src/cxx/statistics_db.cpp:882 | each added port has the service of its first record |
| Database.PortServicesMeaning | code_boost/src/cxx/statistics_db.cpp:861-894 | an unreadable file gives exactly {0: "unavailable"}; otherwise the reading fails exactly when a kept port field cannot be read, and else the ports are exactly those of the kept records, each with its first record's service |
| Database.SelectIntervalsMeaning | code_boost/src/cxx/statistics_db.cpp:694-702 | with a default interval the list starts with a non-zero length, and becomes exactly [default] when it was empty or started with 0; without a default it is kept; selecting twice equals selecting once |
| Database.TableNameInjective | code_boost/src/cxx/statistics_db.cpp:712-714 | different `int` lengths get different table names |
| Database.IsDefaultTableMeaning | code_boost/src/cxx/statistics_db.cpp:716-721 | a table is marked default exactly when its length is the stored default table's length or the default length |

## Findings

| source | as written | input that shows it | evidently intended | confidence | as-written member | corrected member |
|---|---|---|---|---|---|---|
| code_boost/src/cxx/statistics_db.cpp:524-529 | the samples are summed onto `roundTripTime`, which still holds the timestamp of a SYN that went unanswered | flags SYN, ACK, SYN at 0, 100, 500: one sample of 100 and a pending SYN at 500 give 600 | the mean of the samples alone: 100 | not executed | Database.RoundTripTimeAsWritten, Database.RoundTripPendingSyn, Database.ConvRowAsWritten, Database.ConvRowPendingSyn | Database.RoundTripAverage, Database.RoundTripAverageMeaning, Database.ConvRowOf, Database.ConvRowAsWrittenAgrees |

`Database.ConvRowOf` uses the corrected round-trip time; `Database.ConvRowAsWritten` is the row the program writes, and the two agree unless a conversation ends on an unanswered SYN.

## Left out

- SQLite: every DROP, CREATE, INSERT and PRAGMA statement, transactions, `getNoneExtraTestsInveralStats`, and the database writer's class itself. This is persistence I/O. Only the values a row is made of are modelled.
- `PyErr_CheckSignals` and pybind11 are hooks into the Python runtime. The stdout and stderr messages and `printStats` only report.
- Floating point: float and double sizes, rates and entropies are `real`, and rounding is not modelled. The float conversion in `addPacketSize` is not modelled either. A division by a float that may be zero is a `FloatQuotient` (finite or not), except for the divisions by the interval length, which the next line covers. The value of a NaN or an infinity is not modelled.
- IpStats.PktRate, IpStats.KbyteRate, IpStats.WithIntervalRate, IpStats.WithIntervalRates, IpStats.IntervalRatesOf, Records.IntervalCountsOf, Records.IntervalRecordOf, Records.MeasureInterval, Engine.Statistics.CalculateIpIntervalPacketRate, Engine.Statistics.MeasureIntervalRecord: these require `interval > 0`. The source has no such check. A zero interval makes its float divisions by `interval.count()` (statistics.cpp:228-229) and by `interval.count() / 1e6` (statistics.cpp:329, 331) give an infinity or a NaN. The model does not cover a zero interval, so it says nothing about those non-finite rates.
- `log2` is the function parameter `lg` and is left uninterpreted. The entropy lemmas are about which counts enter each sum and when a normalisation is 0, not about the numbers.
- A zero total in an entropy probability is read as probability 0. Every list built from positive counts has a positive total (`Entropy.SumOfPositives`), so this case does not arise there.
- Hash-table iteration order: every walk over a map takes an explicit order, which is a sequence visiting each key once. The methods return the order they used, so the results are stated for any order.
- `check_tcpChecksum`, `getIPv4Class` and libtins `PDU::size` and `header_size` are library calls that are not part of this model. They become inputs: the checksum verdict, the two address classes, and the packet and header sizes.
- `COMM_INTERVAL_THRESHOLD` comes from a header that is not part of this model. It is a constant field of the engine, set by the constructor.
- Engine.Statistics.constructor: the source sets only the resource path. The zero counters and empty tables come from member initialisers in statistics.h, which is not part of this model; the model starts from them.
- The getters that only return a field (`getPacketCount`, `getDoExtraTests`, `getDefaultInterval` and the like) are not modelled: they add nothing beyond the field.
- `getFormattedTimestamp` (`gmtime`, `strftime`) is libc formatting. The `sprintf` of `getCaptureDurationTimestamp` is also not modelled; only its timersub and hour, minute and second arithmetic are (`Records.CaptureDuration`).
- `getCaptureDurationSeconds`: the `%u.%06u` text read back by `stof` is modelled as exact decimal reading (`Records.CaptureDurationSeconds`). Float rounding is not modelled.
- `addIntervalStat` is four class methods, called by the caller in the source's order; there is no single method composed of them, because the frame reasoning of one composed method is too costly to verify. The four are `CalculateIpIntervalPacketRate`, then `MeasureIntervalRecord`, then `StoreInterval`, then `UpdateBaseline`. The source stores the IP entropies after the baseline copy (lines 368-369). That order changes nothing, since the copy does not read them.
- Interval records are keyed by the interval's end as an integer, and their start and end are integers. The source uses the decimal strings of these values, which is the same key because the rendering is injective (`Database.TableNameInjective` shows this for `int`).
- `writeToDatabase` divides each address's kbytes by the duration and sums the quotients. The model sums the kbytes and divides once. In real arithmetic the two are equal.
- `writeStatisticsConv` and `writeStatisticsConvExt` write the averages they compute back into the entries. The model computes the row values only.
- Database.ExtRowOf takes the entry's stored mean delay as the parameter `priorAvg`, because that value stays as it was when the delays are not measured.
- Database.ExtRowOf: the C `abs` of the smallest `int` is undefined behaviour; the model takes its mathematical absolute value.
- 64-bit overflow of the `long` sums (packets sent, novel packet totals) is not modelled. Only the 32-bit `int` sums of the database writer wrap, through `ToInt32`.
- The `int` counters of statistics.cpp are unbounded integers in the model, without 32-bit wrap-around. These are `IPsSrcPktsCount` (line 214), `count_total` and `novel_count_total`, which add up doubles (lines 259-280), the `static_cast<int>` of the table sizes (lines 338-342, 355-360), and the `int` counts of the `unordered_map<int, int>` value tables (lines 257, 534-547). None of them can wrap before 2^31 packets or distinct values, so the engine's state and the interval records are exact below that.
- Database.ConvRowOf: its round-trip time is the corrected one of the finding above, not the value the program writes (`Database.ConvRowAsWritten`).
- Database.ConvRowOf requires no more flag entries than timestamps. The scan's condition is a comma expression that tests only the flag iterator, so the source reads past the timestamps otherwise. The engine's invariant keeps the two lists the same length.
- The erase at statistics_db.cpp:52 is a no-op and is not modelled.
- The Python files of the repository are orchestration and test harness, not part of this model.
- The `log2(IPsDstProb.size())` guard used for the source entropy at statistics.cpp:192 is modelled as the size of its own list. The two lists always have the same length, one entry per address.
