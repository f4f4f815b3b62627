/** Conversation tracking: the per-conversation entries of `conv_statistics` and
    `conv_statistics_extended`, how one packet is filed under the reversed or the
    forward key, the splitting of an extended conversation into communication
    intervals separated by idle gaps, and the per-entry interval averages. */
module Conversations {
  import opened Common

  /** `conv`: two endpoints; A is the side that sent the first packet. */
  datatype Conv = Conv(ipAddressA: string, portA: int, ipAddressB: string, portB: int)

  function Reversed(c: Conv): Conv {
    Conv(c.ipAddressB, c.portB, c.ipAddressA, c.portA)
  }

  /** `entry_convStat`. */
  datatype ConvEntry = ConvEntry(pktsCount: nat, interarrivalTime: seq<int>, pktsTimestamp: seq<int>, tcpTypes: seq<int>)

  const EmptyConvEntry: ConvEntry := ConvEntry(0, [], [], [])

  function LookupConv(m: map<Conv, ConvEntry>, c: Conv): ConvEntry {
    if c in m then m[c] else EmptyConvEntry
  }

  /** The inter-arrival list holds the gaps between consecutive packets, for the
      first packets only. */
  ghost predicate Gaps(ia: seq<int>, ts: seq<int>) {
    && (ia == [] || |ia| < |ts|)
    && forall i :: 0 <= i < |ia| ==> ia[i] == Gap(ts, i)
  }

  /** The time between packet `i` and packet `i + 1`. */
  function Gap(ts: seq<int>, i: nat): int
    requires i + 1 < |ts|
  {
    ts[i + 1] - ts[i]
  }

  /** The number of inter-arrival samples kept for `count` packets: the counter is
      incremented before the `<= 3` test, so at most two are ever stored. */
  function SampleCount(count: nat): nat {
    if count == 0 then 0 else Min(count, 3) - 1
  }

  /** The entry invariant: one timestamp and one flag set per packet, and the
      first (at most two) gaps between packets. */
  ghost predicate ConvOk(e: ConvEntry) {
    && e.pktsCount == |e.pktsTimestamp| == |e.tcpTypes|
    && |e.interarrivalTime| == SampleCount(e.pktsCount)
    && Gaps(e.interarrivalTime, e.pktsTimestamp)
  }

  /** The inter-arrival list after a packet at `ts`, where `count` is the packet
      counter already incremented: a gap is recorded only for the first packets. */
  function WithSample(ia: seq<int>, pktsTimestamp: seq<int>, count: nat, ts: int): seq<int> {
    if |pktsTimestamp| > 0 && count <= 3
    then ia + [ts - pktsTimestamp[|pktsTimestamp| - 1]]
    else ia
  }

  lemma WithSampleOk(ia: seq<int>, pktsTimestamp: seq<int>, ts: int)
    requires |ia| == SampleCount(|pktsTimestamp|) && Gaps(ia, pktsTimestamp)
    ensures var r := WithSample(ia, pktsTimestamp, |pktsTimestamp| + 1, ts);
      && |r| == SampleCount(|pktsTimestamp| + 1)
      && Gaps(r, pktsTimestamp + [ts])
      && r[..|ia|] == ia
  {
    var r := WithSample(ia, pktsTimestamp, |pktsTimestamp| + 1, ts);
    var ts' := pktsTimestamp + [ts];
    forall i | 0 <= i < |r|
      ensures r[i] == Gap(ts', i)
    {
      if i < |ia| {
        assert r[i] == ia[i];
      }
    }
  }

  /** storeConvStat on one entry. */
  function StoreConv(e: ConvEntry, ts: int, flags: int): ConvEntry {
    var count := e.pktsCount + 1;
    ConvEntry(count, WithSample(e.interarrivalTime, e.pktsTimestamp, count, ts), e.pktsTimestamp + [ts], e.tcpTypes + [flags])
  }

  /** storeConvStat keeps the entry invariant, counts the packet and records its
      timestamp and flags last. */
  lemma StoreConvOk(e: ConvEntry, ts: int, flags: int)
    requires ConvOk(e)
    ensures var r := StoreConv(e, ts, flags);
      && ConvOk(r)
      && r.pktsCount == e.pktsCount + 1
      && r.pktsTimestamp[|r.pktsTimestamp| - 1] == ts
      && r.tcpTypes[|r.tcpTypes| - 1] == flags
      && r.interarrivalTime[..|e.interarrivalTime|] == e.interarrivalTime
  {
    WithSampleOk(e.interarrivalTime, e.pktsTimestamp, ts);
  }

  /** The key a packet from (sender, sport) to (receiver, dport) is filed under:
      the reversed conversation if it is already known, the forward one otherwise. */
  function ConvKey<V>(m: map<Conv, V>, sender: string, sport: int, receiver: string, dport: int): (k: Conv)
    ensures k == Conv(sender, sport, receiver, dport) || k == Conv(receiver, dport, sender, sport)
    ensures k == Conv(receiver, dport, sender, sport) <==>
              (Conv(receiver, dport, sender, sport) in m || Conv(receiver, dport, sender, sport) == Conv(sender, sport, receiver, dport))
  {
    var f1 := Conv(receiver, dport, sender, sport);
    if f1 in m then f1 else Conv(sender, sport, receiver, dport)
  }

  /** addConvStat. */
  function AddConv(m: map<Conv, ConvEntry>, sender: string, sport: int, receiver: string, dport: int,
                   ts: int, flags: int): (r: map<Conv, ConvEntry>)
    ensures r.Keys == m.Keys + {ConvKey(m, sender, sport, receiver, dport)}
  {
    var k := ConvKey(m, sender, sport, receiver, dport);
    m[k := StoreConv(LookupConv(m, k), ts, flags)]
  }

  /** No conversation is kept under both of its keys. */
  ghost predicate OneDirection<V>(m: map<Conv, V>) {
    forall c :: c in m && Reversed(c) != c ==> Reversed(c) !in m
  }

  ghost predicate AllConvOk(m: map<Conv, ConvEntry>) {
    forall c :: c in m ==> ConvOk(m[c])
  }

  /** addConvStat keeps every entry consistent and never files a conversation
      under both directions. */
  lemma AddConvOk(m: map<Conv, ConvEntry>, sender: string, sport: int, receiver: string, dport: int, ts: int, flags: int)
    requires AllConvOk(m) && OneDirection(m)
    ensures var r := AddConv(m, sender, sport, receiver, dport, ts, flags);
      AllConvOk(r) && OneDirection(r)
  {
    var k := ConvKey(m, sender, sport, receiver, dport);
    assert ConvOk(LookupConv(m, k));
    StoreConvOk(LookupConv(m, k), ts, flags);
    var r := AddConv(m, sender, sport, receiver, dport, ts, flags);
    forall c | c in r && Reversed(c) != c
      ensures Reversed(c) !in r
    {
      if c == k || Reversed(c) == k {
        assert Reversed(k) !in m;
      }
    }
  }

  /** The packet lands in the entry of the reversed key when that key is known,
      and in the forward key's entry otherwise; no other entry changes. */
  lemma AddConvDirection(m: map<Conv, ConvEntry>, sender: string, sport: int, receiver: string, dport: int, ts: int, flags: int)
    ensures var r := AddConv(m, sender, sport, receiver, dport, ts, flags);
      var f1 := Conv(receiver, dport, sender, sport);
      var f2 := Conv(sender, sport, receiver, dport);
      && (f1 in m ==> r[f1] == StoreConv(m[f1], ts, flags) && r.Keys == m.Keys)
      && (f1 !in m ==> r[f2] == StoreConv(LookupConv(m, f2), ts, flags) && r.Keys == m.Keys + {f2})
      && (forall c :: c in m && c != f1 && c != f2 ==> r[c] == m[c])
  {
  }

  /** A packet from A to B followed by one from B to A on a fresh conversation
      yields one entry, under A→B, holding two packets. */
  lemma ReplyJoinsConversation(m: map<Conv, ConvEntry>, a: string, pa: int, b: string, pb: int,
                               t1: int, t2: int, f1: int, f2: int)
    requires Conv(a, pa, b, pb) !in m && Conv(b, pb, a, pa) !in m
    ensures var r := AddConv(AddConv(m, a, pa, b, pb, t1, f1), b, pb, a, pa, t2, f2);
      && Conv(a, pa, b, pb) in r
      && r[Conv(a, pa, b, pb)].pktsCount == 2
      && r[Conv(a, pa, b, pb)].pktsTimestamp == [t1, t2]
      && (Conv(b, pb, a, pa) in r ==> Conv(b, pb, a, pa) == Conv(a, pa, b, pb))
  {
    AddConvDirection(m, a, pa, b, pb, t1, f1);
    var m1 := AddConv(m, a, pa, b, pb, t1, f1);
    AddConvDirection(m1, b, pb, a, pa, t2, f2);
  }

  // ---- extended conversations -------------------------------------------------

  /** `convWithProt`. */
  datatype ConvWithProt = ConvWithProt(ipAddressA: string, portA: int, ipAddressB: string, portB: int, protocol: string)

  /** `commInterval`: a burst of packets of one conversation. */
  datatype CommInterval = CommInterval(start: int, end: int, pktsCount: nat)

  /** `entry_convStatExt`. */
  datatype ConvExtEntry = ConvExtEntry(
    pktsCount: nat,
    interarrivalTime: seq<int>,
    pktsTimestamp: seq<int>,
    commIntervals: seq<CommInterval>,
    avgIntPktsCount: real,
    avgTimeBetweenInts: real,
    avgIntervalTime: real,
    totalCommDuration: real)

  function IntervalPackets(ints: seq<CommInterval>): int
    decreases |ints|
  {
    if ints == [] then 0 else IntervalPackets(ints[..|ints| - 1]) + ints[|ints| - 1].pktsCount
  }

  function IntervalDurations(ints: seq<CommInterval>): int
    decreases |ints|
  {
    if ints == [] then 0 else IntervalDurations(ints[..|ints| - 1]) + (ints[|ints| - 1].end - ints[|ints| - 1].start)
  }

  /** The idle time between consecutive intervals, summed. */
  function IdleTime(ints: seq<CommInterval>): int
    decreases |ints|
  {
    if |ints| <= 1 then 0
    else IdleTime(ints[..|ints| - 1]) + (ints[|ints| - 1].start - ints[|ints| - 2].end)
  }

  /** The invariant of an extended entry, for idle threshold `threshold`: every
      packet belongs to exactly one interval, the intervals begin at the first
      packet and end at the newest one, consecutive intervals are separated by
      more than the threshold, and the inter-arrival samples are as in ConvOk. */
  ghost predicate ExtOk(e: ConvExtEntry, threshold: nat) {
    var ts := e.pktsTimestamp;
    && e.pktsCount == |ts| >= 1
    && IntervalsOk(e.commIntervals, ts[0], ts[|ts| - 1], e.pktsCount, threshold)
    && |e.interarrivalTime| == SampleCount(e.pktsCount)
    && Gaps(e.interarrivalTime, ts)
  }

  /** The intervals of `count` packets, the first at `first` and the newest at
      `newest`. */
  ghost predicate IntervalsOk(ints: seq<CommInterval>, first: int, newest: int, count: nat, threshold: nat) {
    && |ints| >= 1
    && IntervalPackets(ints) == count
    && (forall i :: 0 <= i < |ints| ==> ints[i].pktsCount >= 1)
    && ints[0].start == first
    && ints[|ints| - 1].end == newest
    && (forall i :: 0 < i < |ints| ==> ints[i].start - ints[i - 1].end > threshold)
  }

  /** The entry created for a conversation's first packet. */
  function FirstExt(ts: int): ConvExtEntry {
    ConvExtEntry(1, [], [ts], [CommInterval(ts, ts, 1)], 0.0, 0.0, 0.0, 0.0)
  }

  /** A further packet of a known extended conversation: a new interval opens when
      the packet comes more than `threshold` after the end of the last one,
      otherwise the last interval is extended to it. */
  function ExtendExt(e: ConvExtEntry, ts: int, threshold: nat): ConvExtEntry
    requires |e.commIntervals| > 0
  {
    var count := e.pktsCount + 1;
    var ia := WithSample(e.interarrivalTime, e.pktsTimestamp, count, ts);
    e.(pktsCount := count, interarrivalTime := ia, pktsTimestamp := e.pktsTimestamp + [ts],
       commIntervals := NextIntervals(e.commIntervals, ts, threshold))
  }

  function NextIntervals(ints: seq<CommInterval>, ts: int, threshold: nat): seq<CommInterval>
    requires |ints| > 0
  {
    var n := |ints|;
    var last := ints[n - 1];
    if ts - last.end > threshold
    then ints + [CommInterval(ts, ts, 1)]
    else ints[..n - 1] + [last.(end := ts, pktsCount := last.pktsCount + 1)]
  }

  function ExtKey<V>(m: map<ConvWithProt, V>, sender: string, sport: int, receiver: string, dport: int,
                     protocol: string): ConvWithProt {
    var f1 := ConvWithProt(receiver, dport, sender, sport, protocol);
    if f1 in m then f1 else ConvWithProt(sender, sport, receiver, dport, protocol)
  }

  ghost predicate AllExtOk(m: map<ConvWithProt, ConvExtEntry>, threshold: nat) {
    forall c :: c in m ==> ExtOk(m[c], threshold)
  }

  /** addConvStatExt (with extra tests on). */
  function AddConvExt(m: map<ConvWithProt, ConvExtEntry>, sender: string, sport: int, receiver: string, dport: int,
                      protocol: string, ts: int, threshold: nat): (r: map<ConvWithProt, ConvExtEntry>)
    requires AllExtOk(m, threshold)
    ensures r.Keys == m.Keys + {ExtKey(m, sender, sport, receiver, dport, protocol)}
  {
    var f1 := ConvWithProt(receiver, dport, sender, sport, protocol);
    var f2 := ConvWithProt(sender, sport, receiver, dport, protocol);
    if f1 in m || f2 in m then
      var f := if f1 in m then f1 else f2;
      m[f := ExtendExt(m[f], ts, threshold)]
    else
      m[f2 := FirstExt(ts)]
  }

  lemma IntervalPacketsAppend(ints: seq<CommInterval>, x: CommInterval)
    ensures IntervalPackets(ints + [x]) == IntervalPackets(ints) + x.pktsCount
  {
    assert (ints + [x])[..|ints|] == ints;
  }

  lemma IntervalPacketsBumpLast(ints: seq<CommInterval>, ts: int)
    requires |ints| > 0
    ensures var last := ints[|ints| - 1];
      IntervalPackets(ints[..|ints| - 1] + [last.(end := ts, pktsCount := last.pktsCount + 1)]) == IntervalPackets(ints) + 1
  {
    var last := ints[|ints| - 1];
    IntervalPacketsAppend(ints[..|ints| - 1], last.(end := ts, pktsCount := last.pktsCount + 1));
  }

  /** The first packet of a conversation makes one interval `{t, t, 1}`. */
  lemma FirstExtOk(ts: int, threshold: nat)
    ensures ExtOk(FirstExt(ts), threshold)
    ensures FirstExt(ts).commIntervals == [CommInterval(ts, ts, 1)]
  {
    assert IntervalPackets([CommInterval(ts, ts, 1)]) == IntervalPackets([]) + 1;
  }

  /** A further packet keeps the entry invariant, and opens a new interval exactly
      when it arrives more than `threshold` after the end of the last interval. */
  lemma ExtendExtOk(e: ConvExtEntry, ts: int, threshold: nat)
    requires ExtOk(e, threshold)
    ensures var r := ExtendExt(e, ts, threshold);
      var last := e.commIntervals[|e.commIntervals| - 1];
      && ExtOk(r, threshold)
      && r.pktsCount == e.pktsCount + 1
      && (|r.commIntervals| == |e.commIntervals| + 1 <==> ts - last.end > threshold)
      && (ts - last.end <= threshold ==> |r.commIntervals| == |e.commIntervals|)
  {
    var t := e.pktsTimestamp;
    NextIntervalsOk(e.commIntervals, t[0], t[|t| - 1], e.pktsCount, ts, threshold);
    WithSampleOk(e.interarrivalTime, e.pktsTimestamp, ts);
  }

  lemma NextIntervalsOk(ints: seq<CommInterval>, first: int, newest: int, count: nat, ts: int, threshold: nat)
    requires IntervalsOk(ints, first, newest, count, threshold)
    ensures var r := NextIntervals(ints, ts, threshold);
      && IntervalsOk(r, first, ts, count + 1, threshold)
      && (|r| == |ints| + 1 <==> ts - ints[|ints| - 1].end > threshold)
      && (ts - ints[|ints| - 1].end <= threshold ==> |r| == |ints|)
  {
    var r := NextIntervals(ints, ts, threshold);
    var n := |ints|;
    var last := ints[n - 1];
    if ts - last.end > threshold {
      IntervalPacketsAppend(ints, CommInterval(ts, ts, 1));
      assert r[..n] == ints;
    } else {
      IntervalPacketsBumpLast(ints, ts);
      assert r[..n - 1] == ints[..n - 1];
    }
  }

  /** addConvStatExt keeps every extended entry consistent. */
  lemma AddConvExtOk(m: map<ConvWithProt, ConvExtEntry>, sender: string, sport: int, receiver: string, dport: int,
                     protocol: string, ts: int, threshold: nat)
    requires AllExtOk(m, threshold)
    ensures AllExtOk(AddConvExt(m, sender, sport, receiver, dport, protocol, ts, threshold), threshold)
  {
    var f1 := ConvWithProt(receiver, dport, sender, sport, protocol);
    var f2 := ConvWithProt(sender, sport, receiver, dport, protocol);
    if f1 in m || f2 in m {
      var f := if f1 in m then f1 else f2;
      ExtendExtOk(m[f], ts, threshold);
    } else {
      FirstExtOk(ts, threshold);
    }
  }

  /** The first packet of an unknown conversation creates exactly one interval
      `{t, t, 1}` under the forward key. */
  lemma AddConvExtFirst(m: map<ConvWithProt, ConvExtEntry>, sender: string, sport: int, receiver: string, dport: int,
                        protocol: string, ts: int, threshold: nat)
    requires AllExtOk(m, threshold)
    requires ConvWithProt(receiver, dport, sender, sport, protocol) !in m
    requires ConvWithProt(sender, sport, receiver, dport, protocol) !in m
    ensures var r := AddConvExt(m, sender, sport, receiver, dport, protocol, ts, threshold);
      var f2 := ConvWithProt(sender, sport, receiver, dport, protocol);
      && r.Keys == m.Keys + {f2}
      && r[f2].commIntervals == [CommInterval(ts, ts, 1)]
      && r[f2].pktsCount == 1 && r[f2].pktsTimestamp == [ts]
  {
  }

  // ---- interval averages (createCommIntervalStats) ------------------------------

  /** A duration in microseconds, in seconds. */
  function Seconds(us: real): (sec: real)
    ensures sec * 1000000.0 == us
  {
    us / 1000000.0
  }

  /** The mean of `n` values summing to `total`. */
  function Mean(total: int, n: nat): (m: real)
    requires n > 0
    ensures m * n as real == total as real
  {
    total as real / n as real
  }

  /** The interval averages of one entry. The entry invariant guarantees at least
      one interval and one timestamp; an entry without intervals keeps its
      averages, as the source's two branches both skip it. */
  function Aggregated(e: ConvExtEntry): ConvExtEntry
    requires |e.pktsTimestamp| > 0
  {
    var ints := e.commIntervals;
    var n := |ints|;
    var ts := e.pktsTimestamp;
    var total := Seconds((ts[|ts| - 1] - ts[0]) as real);
    if n == 1 then
      e.(avgIntPktsCount := ints[0].pktsCount as real,
         avgTimeBetweenInts := 0.0,
         avgIntervalTime := Seconds((ints[0].end - ints[0].start) as real),
         totalCommDuration := total)
    else if n > 1 then
      e.(avgIntPktsCount := Mean(IntervalPackets(ints), n),
         avgTimeBetweenInts := Seconds(Mean(IdleTime(ints), n - 1)),
         avgIntervalTime := Seconds(Mean(IntervalDurations(ints), n)),
         totalCommDuration := total)
    else
      e.(totalCommDuration := total)
  }

  /** The summing loop of createCommIntervalStats: packet counts and durations
      from the first interval on, idle times from the second. */
  method SumIntervals(ints: seq<CommInterval>) returns (pkts: int, idle: int, durations: int)
    requires |ints| > 1
    ensures pkts == IntervalPackets(ints)
    ensures idle == IdleTime(ints)
    ensures durations == IntervalDurations(ints)
  {
    pkts := ints[0].pktsCount;
    idle := 0;
    durations := ints[0].end - ints[0].start;
    assert ints[..1][..0] == [];
    var i := 1;
    while i < |ints|
      invariant 1 <= i <= |ints|
      invariant pkts == IntervalPackets(ints[..i])
      invariant idle == IdleTime(ints[..i])
      invariant durations == IntervalDurations(ints[..i])
    {
      pkts := pkts + ints[i].pktsCount;
      durations := durations + (ints[i].end - ints[i].start);
      idle := idle + (ints[i].start - ints[i - 1].end);
      assert ints[..i + 1][..i] == ints[..i];
      i := i + 1;
    }
    assert ints[..i] == ints;
  }

  /** createCommIntervalStats on one entry. */
  method AggregateEntry(e: ConvExtEntry) returns (r: ConvExtEntry)
    requires |e.pktsTimestamp| > 0
    ensures r == Aggregated(e)
  {
    var ints := e.commIntervals;
    r := e;
    if |ints| == 1 {
      r := r.(avgIntPktsCount := ints[0].pktsCount as real,
              avgTimeBetweenInts := 0.0,
              avgIntervalTime := Seconds((ints[0].end - ints[0].start) as real));
    } else if |ints| > 1 {
      var pkts, idle, durations := SumIntervals(ints);
      r := r.(avgIntPktsCount := Mean(pkts, |ints|),
              avgTimeBetweenInts := Seconds(Mean(idle, |ints| - 1)),
              avgIntervalTime := Seconds(Mean(durations, |ints|)));
    }
    var ts := e.pktsTimestamp;
    r := r.(totalCommDuration := Seconds((ts[|ts| - 1] - ts[0]) as real));
  }

  lemma {:induction false} IdleTimeAbove(ints: seq<CommInterval>, threshold: nat)
    requires forall i :: 0 < i < |ints| ==> ints[i].start - ints[i - 1].end > threshold
    requires |ints| >= 1
    ensures IdleTime(ints) >= (|ints| - 1) * (threshold + 1)
  {
    if |ints| > 1 {
      var p := ints[..|ints| - 1];
      assert forall i :: 0 < i < |p| ==> p[i].start - p[i - 1].end > threshold by {
        forall i | 0 < i < |p| ensures p[i].start - p[i - 1].end > threshold {
          assert p[i] == ints[i] && p[i - 1] == ints[i - 1];
        }
      }
      IdleTimeAbove(p, threshold);
      assert ints[|ints| - 1].start - ints[|ints| - 2].end >= threshold + 1;
    }
  }

  lemma MeanAtLeast(total: int, n: nat, b: real)
    requires n > 0 && total as real >= n as real * b
    ensures Mean(total, n) >= b
  {
    var m := Mean(total, n);
    assert (m - b) * n as real >= 0.0;
  }

  /** The average idle time between the intervals of a consistent entry exceeds
      the threshold. */
  lemma IdleMeanAbove(e: ConvExtEntry, threshold: nat)
    requires ExtOk(e, threshold) && |e.commIntervals| > 1
    ensures Mean(IdleTime(e.commIntervals), |e.commIntervals| - 1) > threshold as real
  {
    var n := |e.commIntervals|;
    IdleTimeAbove(e.commIntervals, threshold);
    var idle := IdleTime(e.commIntervals);
    assert ((n - 1) * (threshold + 1)) as real == (n - 1) as real * (threshold as real + 1.0);
    MeanAtLeast(idle, n - 1, threshold as real + 1.0);
  }

  /** What createCommIntervalStats promises for a consistent entry: with one
      interval, the average burst is that interval's packet count and there is no
      time between intervals; with several, the average burst size times the
      number of intervals is the packet count, and the average idle time exceeds
      the threshold (in seconds); the total duration always spans the first to
      the newest packet. */
  lemma AggregatedMeaning(e: ConvExtEntry, threshold: nat)
    requires ExtOk(e, threshold)
    ensures var r := Aggregated(e);
      var n := |e.commIntervals|;
      && r.totalCommDuration * 1000000.0 == (e.pktsTimestamp[|e.pktsTimestamp| - 1] - e.pktsTimestamp[0]) as real
      && (n == 1 ==> r.avgIntPktsCount == e.pktsCount as real && r.avgTimeBetweenInts == 0.0)
      && (n == 1 ==> r.avgIntervalTime == r.totalCommDuration)
      && (n > 1 ==> (r.avgIntPktsCount * n as real == e.pktsCount as real
                     && r.avgTimeBetweenInts * 1000000.0 > threshold as real))
      && (n > 1 ==> r.avgIntervalTime * n as real * 1000000.0 == IntervalDurations(e.commIntervals) as real)
      && (n > 1 ==> r.avgIntervalTime * n as real + r.avgTimeBetweenInts * (n - 1) as real == r.totalCommDuration)
      && r.commIntervals == e.commIntervals && r.pktsTimestamp == e.pktsTimestamp && r.pktsCount == e.pktsCount
      && ExtOk(r, threshold)
  {
    var n := |e.commIntervals|;
    if n == 1 {
      assert IntervalPackets(e.commIntervals) == IntervalPackets(e.commIntervals[..0]) + e.commIntervals[0].pktsCount;
    } else {
      IdleMeanAbove(e, threshold);
      IntervalTimesSpan(e, threshold);
    }
  }

  /** Interval durations and idle times together cover the span from the first
      interval's start to the last one's end. */
  lemma {:induction false} SpanSplits(ints: seq<CommInterval>)
    requires |ints| >= 1
    ensures IntervalDurations(ints) + IdleTime(ints) == ints[|ints| - 1].end - ints[0].start
    decreases |ints|
  {
    var n := |ints|;
    var p := ints[..n - 1];
    if n == 1 {
      assert IntervalDurations(p) == 0;
    } else {
      SpanSplits(p);
      assert p[|p| - 1] == ints[n - 2] && p[0] == ints[0];
    }
  }

  /** With several intervals, the mean interval time over all intervals and the
      mean idle time over the gaps add up to the whole conversation. */
  lemma IntervalTimesSpan(e: ConvExtEntry, threshold: nat)
    requires ExtOk(e, threshold) && |e.commIntervals| > 1
    ensures var r := Aggregated(e);
      var n := |e.commIntervals|;
      && r.avgIntervalTime * n as real * 1000000.0 == IntervalDurations(e.commIntervals) as real
      && r.avgIntervalTime * n as real + r.avgTimeBetweenInts * (n - 1) as real == r.totalCommDuration
  {
    var ints, ts := e.commIntervals, e.pktsTimestamp;
    var n := |ints|;
    var r := Aggregated(e);
    var d, i := IntervalDurations(ints), IdleTime(ints);
    SpanSplits(ints);
    var a, b := r.avgIntervalTime, r.avgTimeBetweenInts;
    assert a * 1000000.0 == Mean(d, n);
    assert b * 1000000.0 == Mean(i, n - 1);
    calc {
      a * n as real * 1000000.0;
      (a * 1000000.0) * n as real;
      Mean(d, n) * n as real;
      d as real;
    }
    calc {
      (a * n as real + b * (n - 1) as real) * 1000000.0;
      (a * 1000000.0) * n as real + (b * 1000000.0) * (n - 1) as real;
      Mean(d, n) * n as real + Mean(i, n - 1) * (n - 1) as real;
      d as real + i as real;
      (ts[|ts| - 1] - ts[0]) as real;
      r.totalCommDuration * 1000000.0;
    }
  }

  /** Every entry has seen a packet. */
  ghost predicate AllStamped(m: map<ConvWithProt, ConvExtEntry>) {
    forall c :: c in m ==> |m[c].pktsTimestamp| > 0
  }

  /** createCommIntervalStats over the whole table. */
  function AllAggregated(m: map<ConvWithProt, ConvExtEntry>): (r: map<ConvWithProt, ConvExtEntry>)
    requires AllStamped(m)
    ensures r.Keys == m.Keys
  {
    map c | c in m :: Aggregated(m[c])
  }

  /** The loop of createCommIntervalStats: the entries are aggregated one at a time. */
  method AggregateAll(m: map<ConvWithProt, ConvExtEntry>) returns (r: map<ConvWithProt, ConvExtEntry>)
    requires AllStamped(m)
    ensures r == AllAggregated(m)
  {
    ghost var done := AllAggregated(m);
    r := m;
    var rest := m.Keys;
    while rest != {}
      invariant rest <= m.Keys && r.Keys == m.Keys
      invariant forall c :: c in m ==> r[c] == if c in rest then m[c] else done[c]
      decreases |rest|
    {
      var c :| c in rest;
      var e := AggregateEntry(m[c]);
      r := r[c := e];
      rest := rest - {c};
    }
    assert r == done;
  }

  /** Aggregating every conversation keeps every entry consistent and leaves its
      packets and intervals as they were. */
  lemma AllAggregatedOk(m: map<ConvWithProt, ConvExtEntry>, threshold: nat)
    requires AllExtOk(m, threshold)
    ensures AllStamped(m)
    ensures var r := AllAggregated(m);
      && AllExtOk(r, threshold)
      && (forall c :: c in m ==> r[c].commIntervals == m[c].commIntervals && r[c].pktsTimestamp == m[c].pktsTimestamp)
  {
    assert AllStamped(m) by {
      forall c | c in m ensures |m[c].pktsTimestamp| > 0 {
        assert ExtOk(m[c], threshold);
      }
    }
    var r := AllAggregated(m);
    forall c | c in m
      ensures ExtOk(r[c], threshold) && r[c].commIntervals == m[c].commIntervals && r[c].pktsTimestamp == m[c].pktsTimestamp
    {
      AggregatedMeaning(m[c], threshold);
    }
  }
}
