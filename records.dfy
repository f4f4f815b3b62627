/** The values the statistics engine keeps beside its per-address and
    per-conversation entries: the keys and counters of the protocol, port and
    unrecognised-PDU tables, the record written for one time interval, the capture
    duration, and the per-address and per-file reports derived at the end. */
module Records {
  import opened Common
  import opened IpStats
  import Entropy

  /** A capture timestamp (Tins::Timestamp): whole seconds and microseconds. */
  datatype Timestamp = Timestamp(seconds: int, microseconds: int)

  /** Key of `protocol_distribution`. */
  datatype IpProtocol = IpProtocol(ipAddress: string, protocol: string)

  /** `entry_protocolStat`. */
  datatype ProtocolCounter = ProtocolCounter(count: int, byteCount: int)

  /** Key of the TTL, window-size, ToS and MSS distributions. */
  datatype IpValue = IpValue(ipAddress: string, value: int)

  /** Key of `ip_ports`: an address, the direction "in" or "out", a port and a protocol. */
  datatype PortKey = PortKey(ipAddress: string, direction: string, port: int, protocol: string)

  /** `entry_portStat`. */
  datatype PortCounter = PortCounter(count: int, byteCount: int)

  /** Key of `unrecognized_PDUs`. */
  datatype PduKey = PduKey(srcMac: string, dstMac: string, typeNumber: int)

  /** `entry_unrecognizedPDUStat`. */
  datatype PduCounter = PduCounter(count: int, timestampLastOccurrence: string)

  const ZeroProtocol := ProtocolCounter(0, 0)
  const ZeroPort := PortCounter(0, 0)
  const ZeroPdu := PduCounter(0, "")

  /** A read through `operator[]` of the protocol table: a missing key reads as zero. */
  function LookupProtocol(m: map<IpProtocol, ProtocolCounter>, k: IpProtocol): ProtocolCounter {
    if k in m then m[k] else ZeroProtocol
  }

  function LookupPort(m: map<PortKey, PortCounter>, k: PortKey): PortCounter {
    if k in m then m[k] else ZeroPort
  }

  function LookupPdu(m: map<PduKey, PduCounter>, k: PduKey): PduCounter {
    if k in m then m[k] else ZeroPdu
  }

  // ---------------------------------------------------------------------------
  // The record of one time interval

  /** The running counters an interval record is taken from (or, as a baseline,
      their values when the previous interval was recorded). */
  datatype Counters = Counters(pkts: int, sumPktSize: int, payload: int, incorrectChecksum: int, correctChecksum: int)

  /** One number per value table (TTL, window size, ToS, MSS, port): the number of
      distinct values seen, or the growth in that number during an interval. */
  datatype Sizes = Sizes(ttl: int, winSize: int, tos: int, mss: int, port: int)

  /** The counting part of `entry_intervalStat`. */
  datatype IntervalCounts = IntervalCounts(
    pktsCount: int,
    pktRate: real,
    kbytes: real,
    kbyteRate: real,
    payloadCount: int,
    incorrectTcpChecksumCount: int,
    correctTcpChecksumCount: int,
    novelIpSrcCount: int,
    novelIpDstCount: int,
    novel: Sizes)

  /** The entropies of the five value tables, four values each. */
  datatype ValueEntropies = ValueEntropies(ttl: Entropy.Entropies, winSize: Entropy.Entropies, tos: Entropy.Entropies,
                                           mss: Entropy.Entropies, port: Entropy.Entropies)

  /** `entry_intervalStat`, keyed in `interval_statistics` by its end. */
  datatype IntervalStat = IntervalStat(
    start: int,
    end: int,
    counts: IntervalCounts,
    entropies: ValueEntropies,
    ipEntropies: seq<real>,
    ipCumEntropies: seq<real>)

  /** The part of the engine an interval record is computed from: the running
      counters, the number of entries of every table, and the address table and
      the value tables themselves. The baseline (the `interval…Count` and
      `intervalCum…` members of `statistics`, which are only ever assigned
      together) is such a snapshot, taken when the previous interval was
      recorded. */
  datatype Snapshot = Snapshot(
    counters: Counters,
    ipCount: int,
    sizes: Sizes,
    ipStats: map<string, IpStat>,
    ttlValues: map<int, int>,
    winSizeValues: map<int, int>,
    tosValues: map<int, int>,
    mssValues: map<int, int>,
    portValues: map<int, int>)

  /** The baseline of a fresh engine: zero counters and empty tables. */
  const EmptySnapshot: Snapshot :=
    Snapshot(Counters(0, 0, 0, 0, 0), 0, Sizes(0, 0, 0, 0, 0), map[], map[], map[], map[], map[], map[])

  /** The snapshot's counts of entries are the sizes of the tables it holds. */
  ghost predicate SizesMatch(b: Snapshot) {
    && b.ipCount == |b.ipStats|
    && b.sizes == Sizes(|b.ttlValues|, |b.winSizeValues|, |b.tosValues|, |b.mssValues|, |b.portValues|)
  }

  /** No value of the baseline's value tables is missing from the current ones
      (values are only ever added). */
  ghost predicate ValuesKept(base: Snapshot, now: Snapshot) {
    && base.ttlValues.Keys <= now.ttlValues.Keys
    && base.winSizeValues.Keys <= now.winSizeValues.Keys
    && base.tosValues.Keys <= now.tosValues.Keys
    && base.mssValues.Keys <= now.mssValues.Keys
    && base.portValues.Keys <= now.portValues.Keys
  }

  /** Every baseline counter is non-negative and at most the running counter. */
  ghost predicate CountersBelow(base: Counters, cur: Counters) {
    && 0 <= base.pkts <= cur.pkts
    && 0 <= base.sumPktSize <= cur.sumPktSize
    && 0 <= base.payload <= cur.payload
    && 0 <= base.incorrectChecksum <= cur.incorrectChecksum
    && 0 <= base.correctChecksum <= cur.correctChecksum
  }

  /** The rate of `amount` per second over an interval of `interval` microseconds. */
  function PerSecond(amount: real, interval: int): real
    requires interval > 0
  {
    amount / (interval as real / 1000000.0)
  }

  /** The counters of the interval record: the growth of every running counter
      since the baseline, the rates over the interval, and the novelty counts. */
  function IntervalCountsOf(cur: Counters, base: Counters, sizes: Sizes, baseSizes: Sizes,
                            novelIpSrc: int, novelIpDst: int, interval: int): IntervalCounts
    requires interval > 0
  {
    var pkts := cur.pkts - base.pkts;
    var kbytes := (cur.sumPktSize - base.sumPktSize) as real / 1024.0;
    IntervalCounts(
      pkts, PerSecond(pkts as real, interval), kbytes, PerSecond(kbytes, interval),
      cur.payload - base.payload, cur.incorrectChecksum - base.incorrectChecksum,
      cur.correctChecksum - base.correctChecksum, novelIpSrc, novelIpDst,
      Sizes(sizes.ttl - baseSizes.ttl, sizes.winSize - baseSizes.winSize, sizes.tos - baseSizes.tos,
            sizes.mss - baseSizes.mss, sizes.port - baseSizes.port))
  }

  /** What the interval record's numbers mean: the packet count and kbytes are
      what arrived since the baseline, and the two rates are per second of an
      interval measured in microseconds. */
  lemma IntervalCountsMeaning(cur: Counters, base: Counters, sizes: Sizes, baseSizes: Sizes,
                              novelIpSrc: int, novelIpDst: int, interval: int)
    requires interval > 0
    ensures var r := IntervalCountsOf(cur, base, sizes, baseSizes, novelIpSrc, novelIpDst, interval);
      && r.pktsCount + base.pkts == cur.pkts
      && r.kbytes * 1024.0 == (cur.sumPktSize - base.sumPktSize) as real
      && r.pktRate * interval as real == r.pktsCount as real * 1000000.0
      && r.kbyteRate * interval as real == r.kbytes * 1000000.0
  {
    var r := IntervalCountsOf(cur, base, sizes, baseSizes, novelIpSrc, novelIpDst, interval);
    PerSecondTimesInterval(r.pktsCount as real, interval);
    PerSecondTimesInterval(r.kbytes, interval);
  }

  lemma PerSecondTimesInterval(amount: real, interval: int)
    requires interval > 0
    ensures PerSecond(amount, interval) * interval as real == amount * 1000000.0
  {
    var s := interval as real / 1000000.0;
    assert s * 1000000.0 == interval as real;
    assert PerSecond(amount, interval) * s == amount;
    calc {
      PerSecond(amount, interval) * interval as real;
      PerSecond(amount, interval) * (s * 1000000.0);
      (PerSecond(amount, interval) * s) * 1000000.0;
    }
  }

  /** Taken against a baseline equal to the current counters (as right after an
      interval was recorded), an interval record counts nothing. */
  lemma IntervalCountsAgainstSelf(c: Counters, s: Sizes, interval: int)
    requires interval > 0
    ensures IntervalCountsOf(c, c, s, s, 0, 0, interval) == IntervalCounts(0, 0.0, 0.0, 0.0, 0, 0, 0, 0, 0, Sizes(0, 0, 0, 0, 0))
  {
    assert PerSecond(0.0, interval) == 0.0;
  }

  /** Two consecutive intervals count, together, what arrived over both. */
  lemma IntervalCountsAdd(c0: Counters, c1: Counters, c2: Counters, s0: Sizes, s1: Sizes, s2: Sizes, interval: int)
    requires interval > 0
    ensures var a := IntervalCountsOf(c1, c0, s1, s0, 0, 0, interval);
      var b := IntervalCountsOf(c2, c1, s2, s1, 0, 0, interval);
      && a.pktsCount + b.pktsCount == c2.pkts - c0.pkts
      && a.kbytes + b.kbytes == (c2.sumPktSize - c0.sumPktSize) as real / 1024.0
      && a.novel.ttl + b.novel.ttl == s2.ttl - s0.ttl
      && a.novel.port + b.novel.port == s2.port - s0.port
  {
  }

  /** The eight values of calculateLastIntervalIPsEntropy for the address table
      `stats` against the baseline `base`, the addresses taken in the order `ks`. */
  function IpEntropiesAgainst(ks: seq<string>, stats: map<string, IpStat>, base: map<string, IpStat>,
                              lg: real -> real): (r: seq<real>)
    ensures |r| == 8
  {
    var sent, sent0 := SentCounts(stats), SentCounts(base);
    var recv, recv0 := ReceivedCounts(stats), ReceivedCounts(base);
    Entropy.IntervalIpEntropies(Entropy.IpAllCounts(ks, sent, sent0), Entropy.IpAllCounts(ks, recv, recv0),
                                Entropy.NovelCounts(ks, sent, sent0), Entropy.NovelCounts(ks, recv, recv0), lg)
  }

  /** The four values of calculateIPsCumEntropy for the address table `stats`. */
  function CumEntropiesOf(ks: seq<string>, stats: map<string, IpStat>, packetCount: int, lg: real -> real): (r: seq<real>)
    ensures |r| == 4
  {
    Entropy.CumIpEntropies(Entropy.ValuesIn(ks, SentCounts(stats)), Entropy.ValuesIn(ks, ReceivedCounts(stats)),
                           packetCount, lg)
  }

  /** The value the IP entropies take when extra tests are off. */
  const NoIpEntropies: seq<real> := [-1.0, -1.0, -1.0, -1.0, -1.0, -1.0, -1.0, -1.0]
  const NoIpCumEntropies: seq<real> := [-1.0, -1.0, -1.0, -1.0]

  /** Against a baseline equal to the table (as right after an interval was
      recorded) no address sent or received anything new: the eight IP entropies
      are all zero. */
  lemma IpEntropiesAgainstSelf(ks: seq<string>, stats: map<string, IpStat>, lg: real -> real)
    requires forall i :: 0 <= i < |ks| ==> ks[i] in stats
    ensures IpEntropiesAgainst(ks, stats, stats, lg) == [0.0, 0.0, 0.0, 0.0, 0.0, 0.0, 0.0, 0.0]
  {
    Entropy.UnchangedCountsEmpty(ks, SentCounts(stats), lg);
    Entropy.UnchangedCountsEmpty(ks, ReceivedCounts(stats), lg);
  }

  /** The number of addresses of `stats` that the baseline `base` does not know. */
  function NewAddressCount(stats: map<string, IpStat>, base: map<string, IpStat>): nat {
    |stats.Keys - base.Keys|
  }

  /** The entropy loop of calculateLastIntervalIPsEntropy (extra tests on) over
      the addresses in their iteration order `ks`: the sender and receiver lists
      against the baseline, their entropies, and the number of addresses new to
      the baseline (the novel counts the interval record takes). */
  method LastIntervalIpEntropies(stats: map<string, IpStat>, base: map<string, IpStat>, lg: real -> real)
    returns (r: seq<real>, ks: seq<string>, srcNovelCount: nat, dstNovelCount: nat)
    ensures IsEnumeration(ks, stats.Keys)
    ensures r == IpEntropiesAgainst(ks, stats, base, lg)
    ensures srcNovelCount == dstNovelCount == NewAddressCount(stats, base)
  {
    ks := Enumerate(stats.Keys);
    NovelAddresses(ks, stats, base);
    var srcAll, srcTotal, srcNovel, srcNovelTotal := Entropy.SplitIpCounts(SentCounts(stats), SentCounts(base), ks);
    var dstAll, dstTotal, dstNovel, dstNovelTotal := Entropy.SplitIpCounts(ReceivedCounts(stats), ReceivedCounts(base), ks);
    var srcEntropy := Entropy.AccumulatePositiveEntropy(srcAll, srcTotal, lg);
    var dstEntropy := Entropy.AccumulatePositiveEntropy(dstAll, dstTotal, lg);
    var srcNovelEntropy := Entropy.AccumulatePositiveEntropy(srcNovel, srcNovelTotal, lg);
    var dstNovelEntropy := Entropy.AccumulatePositiveEntropy(dstNovel, dstNovelTotal, lg);
    srcNovelCount, dstNovelCount := |srcNovel|, |dstNovel|;
    var normSrc := Entropy.Normalize(srcEntropy, |srcAll|, lg);
    var normDst := Entropy.Normalize(dstEntropy, |dstAll|, lg);
    var normNovelSrc := Entropy.Normalize(srcNovelEntropy, |srcNovel|, lg);
    var normNovelDst := Entropy.Normalize(dstNovelEntropy, |dstNovel|, lg);
    r := [srcEntropy, dstEntropy, srcNovelEntropy, dstNovelEntropy, normSrc, normDst, normNovelSrc, normNovelDst];
  }

  /** The per-address novel counts count the addresses the baseline does not
      know, as senders and as receivers alike. */
  lemma NovelAddresses(ks: seq<string>, stats: map<string, IpStat>, base: map<string, IpStat>)
    requires IsEnumeration(ks, stats.Keys)
    ensures |Entropy.NovelCounts(ks, SentCounts(stats), SentCounts(base))| == |stats.Keys - base.Keys|
    ensures |Entropy.NovelCounts(ks, ReceivedCounts(stats), ReceivedCounts(base))| == |stats.Keys - base.Keys|
  {
    Entropy.NovelCountsLength(ks, SentCounts(stats), SentCounts(base));
    Entropy.NovelCountsLength(ks, ReceivedCounts(stats), ReceivedCounts(base));
    assert Entropy.NewKeys(SentCounts(stats), SentCounts(base)) == stats.Keys - base.Keys;
    assert Entropy.NewKeys(ReceivedCounts(stats), ReceivedCounts(base)) == stats.Keys - base.Keys;
  }

  /** The addresses whose packets-sent count changed since the baseline (an
      address the baseline does not know counts from 0). */
  ghost function SendersSince(stats: map<string, IpStat>, base: map<string, IpStat>): set<string> {
    set a | a in stats && stats[a].traffic.pktsSent != Lookup(base, a).traffic.pktsSent
  }

  /** The addresses whose packets-received count changed since the baseline. */
  ghost function ReceiversSince(stats: map<string, IpStat>, base: map<string, IpStat>): set<string> {
    set a | a in stats && stats[a].traffic.pktsReceived != Lookup(base, a).traffic.pktsReceived
  }

  /** calculateLastIntervalIPsEntropy slot by slot: the source (destination)
      entropy is taken over the per-address packets sent (received) since the
      baseline, zero counts left out, each over its own list's sum; the novel
      entropies over the counts of the addresses new to the baseline; and each
      normalised value is guarded by the number of addresses its list holds:
      the senders (receivers) active since the baseline, or the addresses new
      to it. */
  lemma IpEntropiesMeaning(ks: seq<string>, stats: map<string, IpStat>, base: map<string, IpStat>, lg: real -> real)
    requires IsEnumeration(ks, stats.Keys)
    ensures var r := IpEntropiesAgainst(ks, stats, base, lg);
      var src := Entropy.IpAllCounts(ks, SentCounts(stats), SentCounts(base));
      var dst := Entropy.IpAllCounts(ks, ReceivedCounts(stats), ReceivedCounts(base));
      var srcNovel := Entropy.NovelCounts(ks, SentCounts(stats), SentCounts(base));
      var dstNovel := Entropy.NovelCounts(ks, ReceivedCounts(stats), ReceivedCounts(base));
      && r[0] == Entropy.ShannonPositive(src, Sum(src), lg)
      && r[1] == Entropy.ShannonPositive(dst, Sum(dst), lg)
      && r[2] == Entropy.ShannonPositive(srcNovel, Sum(srcNovel), lg)
      && r[3] == Entropy.ShannonPositive(dstNovel, Sum(dstNovel), lg)
      && Entropy.NormalisedBy(r[0], r[4], |SendersSince(stats, base)|, lg)
      && Entropy.NormalisedBy(r[1], r[5], |ReceiversSince(stats, base)|, lg)
      && Entropy.NormalisedBy(r[2], r[6], NewAddressCount(stats, base), lg)
      && Entropy.NormalisedBy(r[3], r[7], NewAddressCount(stats, base), lg)
      && (SendersSince(stats, base) == {} ==> r[0] == 0.0 && r[4] == 0.0)
      && (ReceiversSince(stats, base) == {} ==> r[1] == 0.0 && r[5] == 0.0)
      && (NewAddressCount(stats, base) == 0 ==> r[2] == 0.0 && r[3] == 0.0 && r[6] == 0.0 && r[7] == 0.0)
  {
    var sent, sent0 := SentCounts(stats), SentCounts(base);
    var recv, recv0 := ReceivedCounts(stats), ReceivedCounts(base);
    NovelAddresses(ks, stats, base);
    Entropy.IpAllCountsLength(ks, sent, sent0);
    Entropy.IpAllCountsLength(ks, recv, recv0);
    ActiveSinceBaseline(stats, base);
  }

  /** The keys the per-IP lists report are the addresses active since the baseline. */
  lemma ActiveSinceBaseline(stats: map<string, IpStat>, base: map<string, IpStat>)
    ensures Entropy.ActiveKeys(SentCounts(stats), SentCounts(base)) == SendersSince(stats, base)
    ensures Entropy.ActiveKeys(ReceivedCounts(stats), ReceivedCounts(base)) == ReceiversSince(stats, base)
  {
  }

  /** calculateIPsCumEntropy slot by slot: one entry per address, its packets
      sent (received) so far; the probabilities divide by the packet counter,
      not by the list's sum; and both normalised values are guarded by the
      number of addresses. */
  lemma CumEntropiesMeaning(ks: seq<string>, stats: map<string, IpStat>, packetCount: int, lg: real -> real)
    requires IsEnumeration(ks, stats.Keys)
    ensures var r := CumEntropiesOf(ks, stats, packetCount, lg);
      var sent := Entropy.ValuesIn(ks, SentCounts(stats));
      var received := Entropy.ValuesIn(ks, ReceivedCounts(stats));
      && |sent| == |received| == |stats|
      && (forall i :: 0 <= i < |ks| ==> sent[i] == stats[ks[i]].traffic.pktsSent)
      && (forall i :: 0 <= i < |ks| ==> received[i] == stats[ks[i]].traffic.pktsReceived)
      && r[0] == Entropy.ShannonPositive(sent, packetCount, lg)
      && r[1] == Entropy.ShannonPositive(received, packetCount, lg)
      && Entropy.NormalisedBy(r[0], r[2], |stats|, lg)
      && Entropy.NormalisedBy(r[1], r[3], |stats|, lg)
  {
    EnumerationSize(ks, stats.Keys);
  }

  /** The loop of calculateIPsCumEntropy (extra tests on): every address's
      packets sent and received, then the entropies of the two lists. */
  method CumIpEntropiesOfTable(ks: seq<string>, stats: map<string, IpStat>, packetCount: int, lg: real -> real)
    returns (r: seq<real>)
    requires forall i :: 0 <= i < |ks| ==> ks[i] in stats
    ensures r == CumEntropiesOf(ks, stats, packetCount, lg)
  {
    var sent: seq<int> := [];
    var received: seq<int> := [];
    var i := 0;
    while i < |ks|
      invariant 0 <= i <= |ks|
      invariant sent == Entropy.ValuesIn(ks[..i], SentCounts(stats))
      invariant received == Entropy.ValuesIn(ks[..i], ReceivedCounts(stats))
    {
      assert ks[..i + 1][..i] == ks[..i];
      var t := stats[ks[i]].traffic;
      sent := sent + [t.pktsSent];
      received := received + [t.pktsReceived];
      i := i + 1;
    }
    assert ks[..i] == ks;
    var srcEntropy := Entropy.AccumulatePositiveEntropy(sent, packetCount, lg);
    var dstEntropy := Entropy.AccumulatePositiveEntropy(received, packetCount, lg);
    var normSrc := Entropy.Normalize(srcEntropy, |sent|, lg);
    var normDst := Entropy.Normalize(dstEntropy, |received|, lg);
    r := [srcEntropy, dstEntropy, normSrc, normDst];
  }

  /** The four entropies calculateEntropies gives a value table `cur` against its
      baseline `base`, the values taken in the order `ks`. */
  function TableEntropies(ks: seq<int>, cur: map<int, int>, base: map<int, int>, lg: real -> real): Entropy.Entropies {
    Entropy.EntropiesOf(Entropy.AllCounts(ks, cur, base), Entropy.NovelCounts(ks, cur, base), lg)
  }

  /** The iteration orders of the five value tables. */
  datatype ValueKeys = ValueKeys(ttl: seq<int>, winSize: seq<int>, tos: seq<int>, mss: seq<int>, port: seq<int>)

  /** The iteration orders addIntervalStat walks: the address table twice (for
      the interval and the cumulative IP entropies) and the five value tables. */
  datatype IntervalOrders = IntervalOrders(ip: seq<string>, cumIp: seq<string>, values: ValueKeys)

  /** `orders` are iteration orders of the tables of `now`: of the address table
      when extra tests are on (otherwise it is not walked), and of each value table. */
  ghost predicate OrdersOf(orders: IntervalOrders, now: Snapshot, extraTests: bool) {
    && (extraTests ==> IsEnumeration(orders.ip, now.ipStats.Keys) && IsEnumeration(orders.cumIp, now.ipStats.Keys))
    && IsEnumeration(orders.values.ttl, now.ttlValues.Keys)
    && IsEnumeration(orders.values.winSize, now.winSizeValues.Keys)
    && IsEnumeration(orders.values.tos, now.tosValues.Keys)
    && IsEnumeration(orders.values.mss, now.mssValues.Keys)
    && IsEnumeration(orders.values.port, now.portValues.Keys)
  }

  /** The five calculateEntropies results of addIntervalStat: every value table
      of `now` against the same table of the baseline. */
  function ValueEntropiesOf(ks: ValueKeys, now: Snapshot, base: Snapshot, lg: real -> real): ValueEntropies {
    ValueEntropies(TableEntropies(ks.ttl, now.ttlValues, base.ttlValues, lg),
                   TableEntropies(ks.winSize, now.winSizeValues, base.winSizeValues, lg),
                   TableEntropies(ks.tos, now.tosValues, base.tosValues, lg),
                   TableEntropies(ks.mss, now.mssValues, base.mssValues, lg),
                   TableEntropies(ks.port, now.portValues, base.portValues, lg))
  }

  /** The record addIntervalStat stores for the interval from `start` to `end`:
      the growth of every counter since the baseline, the value-table entropies,
      and the IP entropies (eight, then four, values of -1 with extra tests
      off). `novelSrc` and `novelDst` are the novel address counts the engine
      holds at that point; `orders` the iteration orders walked. */
  function IntervalRecordOf(now: Snapshot, base: Snapshot, extraTests: bool, novelSrc: int, novelDst: int,
                            orders: IntervalOrders, interval: int, start: int, end: int, lg: real -> real)
    : IntervalStat
    requires interval > 0
  {
    IntervalStat(
      start, end,
      IntervalCountsOf(now.counters, base.counters, now.sizes, base.sizes, novelSrc, novelDst, interval),
      ValueEntropiesOf(orders.values, now, base, lg),
      if extraTests then IpEntropiesAgainst(orders.ip, now.ipStats, base.ipStats, lg) else NoIpEntropies,
      if extraTests then CumEntropiesOf(orders.cumIp, now.ipStats, now.counters.pkts, lg) else NoIpCumEntropies)
  }

  /** The five calculateEntropies calls of addIntervalStat, each value table
      walked in some iteration order. */
  method ValueTablesEntropies(now: Snapshot, base: Snapshot, lg: real -> real) returns (r: ValueEntropies, ks: ValueKeys)
    ensures OrdersOf(IntervalOrders([], [], ks), now, false)
    ensures r == ValueEntropiesOf(ks, now, base, lg)
  {
    var kTtl := Enumerate(now.ttlValues.Keys);
    var kWin := Enumerate(now.winSizeValues.Keys);
    var kTos := Enumerate(now.tosValues.Keys);
    var kMss := Enumerate(now.mssValues.Keys);
    var kPort := Enumerate(now.portValues.Keys);
    var eTtl := Entropy.CalculateEntropies(now.ttlValues, base.ttlValues, kTtl, lg);
    var eWin := Entropy.CalculateEntropies(now.winSizeValues, base.winSizeValues, kWin, lg);
    var eTos := Entropy.CalculateEntropies(now.tosValues, base.tosValues, kTos, lg);
    var eMss := Entropy.CalculateEntropies(now.mssValues, base.mssValues, kMss, lg);
    var ePort := Entropy.CalculateEntropies(now.portValues, base.portValues, kPort, lg);
    r, ks := ValueEntropies(eTtl, eWin, eTos, eMss, ePort), ValueKeys(kTtl, kWin, kTos, kMss, kPort);
  }

  /** calculateIPsCumEntropy with extra tests on: the address table walked in
      some iteration order. */
  method CumIpEntropiesOf(stats: map<string, IpStat>, packetCount: int, lg: real -> real)
    returns (r: seq<real>, ks: seq<string>)
    ensures IsEnumeration(ks, stats.Keys)
    ensures r == CumEntropiesOf(ks, stats, packetCount, lg)
  {
    ks := Enumerate(stats.Keys);
    r := CumIpEntropiesOfTable(ks, stats, packetCount, lg);
  }

  /** Everything addIntervalStat computes before it moves the baseline, on the
      tables `now` (already carrying the interval's packet rates): the novel
      address counts (kept at `novelSrc0`, `novelDst0` with extra tests off) and
      the record. */
  method MeasureInterval(now: Snapshot, base: Snapshot, extraTests: bool, novelSrc0: int, novelDst0: int,
                         interval: int, start: int, end: int, lg: real -> real)
    returns (rec: IntervalStat, orders: IntervalOrders, novelSrc: int, novelDst: int)
    requires interval > 0
    ensures OrdersOf(orders, now, extraTests)
    ensures extraTests ==> novelSrc == NewAddressCount(now.ipStats, base.ipStats) && novelDst == novelSrc
    ensures !extraTests ==> novelSrc == novelSrc0 && novelDst == novelDst0
    ensures rec == IntervalRecordOf(now, base, extraTests, novelSrc, novelDst, orders, interval, start, end, lg)
  {
    var ipEntropies, ipKeys, cumEntropies, cumKeys;
    if extraTests {
      ipEntropies, ipKeys, novelSrc, novelDst := LastIntervalIpEntropies(now.ipStats, base.ipStats, lg);
      cumEntropies, cumKeys := CumIpEntropiesOf(now.ipStats, now.counters.pkts, lg);
    } else {
      ipEntropies, ipKeys, novelSrc, novelDst := NoIpEntropies, [], novelSrc0, novelDst0;
      cumEntropies, cumKeys := NoIpCumEntropies, [];
    }
    var counts := IntervalCountsOf(now.counters, base.counters, now.sizes, base.sizes, novelSrc, novelDst, interval);
    var entropies, valueKeys := ValueTablesEntropies(now, base, lg);
    rec := IntervalStat(start, end, counts, entropies, ipEntropies, cumEntropies);
    orders := IntervalOrders(ipKeys, cumKeys, valueKeys);
  }

  /** What the record's numbers mean when the baseline's tables are a part of the
      current ones: the packets, bytes and checks since the baseline, each
      novelty count the number of values first seen in the interval, and (extra
      tests on) both novel address counts the number of addresses first seen. */
  lemma IntervalRecordMeaning(now: Snapshot, base: Snapshot, extraTests: bool, orders: IntervalOrders,
                              interval: int, start: int, end: int, lg: real -> real)
    requires interval > 0 && SizesMatch(now) && SizesMatch(base) && ValuesKept(base, now)
    requires base.ipStats.Keys <= now.ipStats.Keys
    ensures var n := NewAddressCount(now.ipStats, base.ipStats);
      var r := IntervalRecordOf(now, base, extraTests, n, n, orders, interval, start, end, lg);
      && r.start == start && r.end == end
      && r.counts.pktsCount == now.counters.pkts - base.counters.pkts
      && r.counts.kbytes * 1024.0 == (now.counters.sumPktSize - base.counters.sumPktSize) as real
      && r.counts.payloadCount == now.counters.payload - base.counters.payload
      && r.counts.novelIpSrcCount == r.counts.novelIpDstCount == |now.ipStats| - |base.ipStats|
      && r.counts.novel.ttl == |Entropy.NewKeys(now.ttlValues, base.ttlValues)|
      && r.counts.novel.winSize == |Entropy.NewKeys(now.winSizeValues, base.winSizeValues)|
      && r.counts.novel.tos == |Entropy.NewKeys(now.tosValues, base.tosValues)|
      && r.counts.novel.mss == |Entropy.NewKeys(now.mssValues, base.mssValues)|
      && r.counts.novel.port == |Entropy.NewKeys(now.portValues, base.portValues)|
  {
    var n := NewAddressCount(now.ipStats, base.ipStats);
    IntervalCountsMeaning(now.counters, base.counters, now.sizes, base.sizes, n, n, interval);
    Entropy.DisjointSplit(now.ipStats.Keys, base.ipStats.Keys);
    Entropy.NewKeysCount(now.ttlValues, base.ttlValues);
    Entropy.NewKeysCount(now.winSizeValues, base.winSizeValues);
    Entropy.NewKeysCount(now.tosValues, base.tosValues);
    Entropy.NewKeysCount(now.mssValues, base.mssValues);
    Entropy.NewKeysCount(now.portValues, base.portValues);
  }

  /** A record taken against a baseline that differs from the tables at most in
      the addresses' entries other than their packet counts (the rate tracks an
      interval appends) counts nothing and has every entropy zero. */
  lemma IntervalRecordAgainstSelf(now: Snapshot, base: Snapshot, extraTests: bool, orders: IntervalOrders,
                                  interval: int, start: int, end: int, lg: real -> real)
    requires interval > 0 && OrdersOf(orders, now, extraTests)
    requires base.(ipStats := now.ipStats) == now
    requires SentCounts(now.ipStats) == SentCounts(base.ipStats)
    requires ReceivedCounts(now.ipStats) == ReceivedCounts(base.ipStats)
    ensures var r := IntervalRecordOf(now, base, extraTests, 0, 0, orders, interval, start, end, lg);
      && r.counts == IntervalCounts(0, 0.0, 0.0, 0.0, 0, 0, 0, 0, 0, Sizes(0, 0, 0, 0, 0))
      && r.entropies == ValueEntropies(ZeroEntropies, ZeroEntropies, ZeroEntropies, ZeroEntropies, ZeroEntropies)
      && (extraTests ==> r.ipEntropies == [0.0, 0.0, 0.0, 0.0, 0.0, 0.0, 0.0, 0.0])
  {
    IntervalCountsAgainstSelf(now.counters, now.sizes, interval);
    TableEntropiesAgainstSelf(orders.values.ttl, now.ttlValues, lg);
    TableEntropiesAgainstSelf(orders.values.winSize, now.winSizeValues, lg);
    TableEntropiesAgainstSelf(orders.values.tos, now.tosValues, lg);
    TableEntropiesAgainstSelf(orders.values.mss, now.mssValues, lg);
    TableEntropiesAgainstSelf(orders.values.port, now.portValues, lg);
    if extraTests {
      assert IpEntropiesAgainst(orders.ip, now.ipStats, base.ipStats, lg)
          == IpEntropiesAgainst(orders.ip, now.ipStats, now.ipStats, lg);
      IpEntropiesAgainstSelf(orders.ip, now.ipStats, lg);
    }
  }

  /** A second interval recorded right after the first, with no packet in
      between: the tables are the baseline with one more rate per address, and
      the record counts nothing and has every entropy zero. */
  lemma IntervalRecordRightAfter(base: Snapshot, extraTests: bool, orders: IntervalOrders,
                                 interval: int, start: int, end: int, lg: real -> real)
    requires interval > 0
    requires OrdersOf(orders, base.(ipStats := WithIntervalRates(base.ipStats, interval, start)), extraTests)
    ensures var now := base.(ipStats := WithIntervalRates(base.ipStats, interval, start));
      var r := IntervalRecordOf(now, base, extraTests, 0, 0, orders, interval, start, end, lg);
      && r.counts == IntervalCounts(0, 0.0, 0.0, 0.0, 0, 0, 0, 0, 0, Sizes(0, 0, 0, 0, 0))
      && r.entropies == ValueEntropies(ZeroEntropies, ZeroEntropies, ZeroEntropies, ZeroEntropies, ZeroEntropies)
      && (extraTests ==> r.ipEntropies == [0.0, 0.0, 0.0, 0.0, 0.0, 0.0, 0.0, 0.0])
  {
    var now := base.(ipStats := WithIntervalRates(base.ipStats, interval, start));
    RatesKeepCounts(base.ipStats, interval, start);
    IntervalRecordAgainstSelf(now, base, extraTests, orders, interval, start, end, lg);
  }

  const ZeroEntropies := Entropy.Entropies(0.0, 0.0, 0.0, 0.0)

  lemma TableEntropiesAgainstSelf(ks: seq<int>, m: map<int, int>, lg: real -> real)
    requires IsEnumeration(ks, m.Keys)
    ensures TableEntropies(ks, m, m, lg) == ZeroEntropies
  {
    Entropy.UnchangedCountsEmpty(ks, m, lg);
  }

  // ---------------------------------------------------------------------------
  // Capture duration

  /** timersub: seconds and microseconds are subtracted separately, and a negative
      microsecond part borrows one second. */
  function Timersub(a: Timestamp, b: Timestamp): Timestamp {
    var sec := a.seconds - b.seconds;
    var usec := a.microseconds - b.microseconds;
    if usec < 0 then Timestamp(sec - 1, usec + 1000000) else Timestamp(sec, usec)
  }

  ghost predicate Normalised(t: Timestamp) {
    0 <= t.microseconds < 1000000
  }

  function Micros(t: Timestamp): int {
    t.seconds * 1000000 + t.microseconds
  }

  /** For timestamps whose microsecond part is in range, timersub yields the exact
      difference, again with its microsecond part in range. */
  lemma TimersubExact(a: Timestamp, b: Timestamp)
    requires Normalised(a) && Normalised(b)
    ensures Normalised(Timersub(a, b))
    ensures Micros(Timersub(a, b)) == Micros(a) - Micros(b)
  {
  }

  /** The hour, minute, second and microsecond parts of a duration. */
  datatype Hms = Hms(hour: int, minute: int, second: int, microseconds: int)

  /** The h/m/s decomposition of getCaptureDurationTimestamp, in C's truncating
      integer arithmetic. */
  function DurationParts(d: Timestamp): Hms {
    var hour := CDiv(d.seconds, 3600);
    var remainder := d.seconds - hour * 3600;
    var minute := CDiv(remainder, 60);
    var second := CRem(remainder - minute * 60, 60);
    Hms(hour, minute, second, d.microseconds)
  }

  /** The parts add up to the duration's seconds; minutes and seconds are below 60
      in magnitude, and not negative for a non-negative duration. */
  lemma DurationPartsExact(d: Timestamp)
    ensures var p := DurationParts(d);
      && p.hour * 3600 + p.minute * 60 + p.second == d.seconds
      && -60 < p.minute < 60 && -60 < p.second < 60
      && (d.seconds >= 0 ==> 0 <= p.minute && 0 <= p.second)
      && p.microseconds == d.microseconds
  {
    var hour := CDiv(d.seconds, 3600);
    var remainder := d.seconds - hour * 3600;
    assert -3600 < remainder < 3600 by {
      assert remainder == CRem(d.seconds, 3600);
    }
    var minute := CDiv(remainder, 60);
    var rest := remainder - minute * 60;
    assert rest == CRem(remainder, 60);
    assert CDiv(rest, 60) == 0;
    assert CRem(rest, 60) == rest;
    assert d.seconds >= 0 ==> remainder >= 0 && minute >= 0;
  }

  /** getCaptureDurationTimestamp's numbers for a capture from `first` to `last`. */
  function CaptureDuration(first: Timestamp, last: Timestamp): Hms {
    DurationParts(Timersub(last, first))
  }

  /** Between two timestamps in range, the parts spell out the capture length. */
  lemma CaptureDurationExact(first: Timestamp, last: Timestamp)
    requires Normalised(first) && Normalised(last)
    ensures var p := CaptureDuration(first, last);
      (p.hour * 3600 + p.minute * 60 + p.second) * 1000000 + p.microseconds == Micros(last) - Micros(first)
      && 0 <= p.microseconds < 1000000
  {
    TimersubExact(last, first);
    DurationPartsExact(Timersub(last, first));
  }

  /** 10 to the power `k`. */
  function Pow10(k: nat): (r: nat)
    ensures r >= 1
  {
    if k == 0 then 1 else 10 * Pow10(k - 1)
  }

  /** The number of decimal digits `%u` prints for `u`. */
  function DigitCount(u: nat): nat {
    if u < 10 then 1 else 1 + DigitCount(u / 10)
  }

  /** The value of the digits `%06u` prints for `u`, read after a decimal point:
      at least six digits, zero-padded on the left. */
  function FractionOf(u: nat): real {
    var width := if DigitCount(u) < 6 then 6 else DigitCount(u);
    u as real / Pow10(width) as real
  }

  /** `static_cast<uint>` of a C long: the value modulo 2^32. */
  function ToUint32(x: int): nat {
    x % 0x1_0000_0000
  }

  /** getCaptureDurationSeconds: the timersub difference printed as `%u.%06u`
      and read back as a number. */
  function CaptureDurationSeconds(first: Timestamp, last: Timestamp): real {
    var d := Timersub(last, first);
    ToUint32(d.seconds) as real + FractionOf(ToUint32(d.microseconds))
  }

  lemma {:induction false} DigitCountBelow(u: nat, k: nat)
    requires u < Pow10(k) && k > 0
    ensures DigitCount(u) <= k
  {
    if u >= 10 {
      assert u / 10 < Pow10(k - 1);
      DigitCountBelow(u / 10, k - 1);
    }
  }

  /** Below a million, `%06u` prints exactly six digits. */
  lemma FractionOfMicros(u: nat)
    requires u < 1000000
    ensures FractionOf(u) * 1000000.0 == u as real
  {
    assert Pow10(6) == 1000000;
    DigitCountBelow(u, 6);
  }

  /** Between two timestamps in range, with the later one first by less than 2^32
      seconds, the seconds read back are the capture length exactly. */
  lemma CaptureDurationSecondsExact(first: Timestamp, last: Timestamp)
    requires Normalised(first) && Normalised(last)
    requires 0 <= Micros(last) - Micros(first) < 0x1_0000_0000 * 1000000
    ensures CaptureDurationSeconds(first, last) * 1000000.0 == (Micros(last) - Micros(first)) as real
  {
    var d := Timersub(last, first);
    TimersubExact(last, first);
    assert 0 <= d.seconds < 0x1_0000_0000;
    assert ToUint32(d.seconds) == d.seconds;
    assert ToUint32(d.microseconds) == d.microseconds;
    FractionOfMicros(d.microseconds);
    var sec, frac := d.seconds as real, FractionOf(d.microseconds);
    assert CaptureDurationSeconds(first, last) == sec + frac;
    assert (sec + frac) * 1000000.0 == sec * 1000000.0 + frac * 1000000.0;
    assert (d.seconds * 1000000) as real == sec * 1000000.0;
  }

  // ---------------------------------------------------------------------------
  // Reports

  /** `ip_stats`, the derived figures of one address. */
  datatype IpReport = IpReport(
    bandwidthKBitsIn: FloatQuotient,
    bandwidthKBitsOut: FloatQuotient,
    packetPerSecondIn: FloatQuotient,
    packetPerSecondOut: FloatQuotient,
    avgPacketSizeSent: FloatQuotient,
    avgPacketSizeRecv: FloatQuotient)

  /** getStatsForIP on an entry, for a capture lasting `duration` seconds. */
  function ReportFor(e: IpStat, duration: real): IpReport {
    var t := e.traffic;
    IpReport(
      Scale(Divide(t.kbytesReceived, duration), 8.0),
      Scale(Divide(t.kbytesSent, duration), 8.0),
      Divide(t.pktsReceived as real, duration),
      Divide(t.pktsSent as real, duration),
      Divide(t.kbytesSent, t.pktsSent as real),
      Divide(t.kbytesReceived, t.pktsReceived as real))
  }

  /** What the per-address figures mean: over a capture of non-zero length the
      bandwidths are kbits per second and the packet rates packets per second; the
      average sizes are finite exactly when the address sent (received) a packet,
      and then times the number of packets give the kbytes. For an address never
      seen all rates are zero and both averages are the NaN of 0/0. */
  lemma ReportForMeaning(e: IpStat, duration: real)
    requires Consistent(e)
    ensures var r := ReportFor(e, duration);
      var t := e.traffic;
      && (duration != 0.0 ==>
            && r.bandwidthKBitsIn.Finite? && r.bandwidthKBitsIn.value * duration == t.kbytesReceived * 8.0
            && r.bandwidthKBitsOut.Finite? && r.bandwidthKBitsOut.value * duration == t.kbytesSent * 8.0
            && r.packetPerSecondIn.Finite?
            && r.packetPerSecondIn.value * duration == |t.pktsReceivedTimestamp| as real
            && r.packetPerSecondOut.Finite? && r.packetPerSecondOut.value * duration == |t.pktsSentTimestamp| as real)
      && (r.avgPacketSizeSent.Finite? <==> |t.pktsSentTimestamp| > 0)
      && (r.avgPacketSizeSent.Finite? ==> r.avgPacketSizeSent.value * |t.pktsSentTimestamp| as real == t.kbytesSent)
      && (r.avgPacketSizeRecv.Finite? <==> |t.pktsReceivedTimestamp| > 0)
      && (r.avgPacketSizeRecv.Finite? ==>
            r.avgPacketSizeRecv.value * |t.pktsReceivedTimestamp| as real == t.kbytesReceived)
  {
    var r := ReportFor(e, duration);
    var t := e.traffic;
    if duration != 0.0 {
      var q := Divide(t.kbytesReceived, duration);
      assert r.bandwidthKBitsIn.value * duration == q.value * duration * 8.0;
      var q' := Divide(t.kbytesSent, duration);
      assert r.bandwidthKBitsOut.value * duration == q'.value * duration * 8.0;
    }
  }

  /** The report of an address that has no entry: zero rates, NaN averages. */
  lemma ReportForUnknown(duration: real)
    requires duration != 0.0
    ensures var r := ReportFor(DefaultIpStat, duration);
      && r.bandwidthKBitsIn == Finite(0.0) && r.bandwidthKBitsOut == Finite(0.0)
      && r.packetPerSecondIn == Finite(0.0) && r.packetPerSecondOut == Finite(0.0)
      && r.avgPacketSizeSent == NonFinite && r.avgPacketSizeRecv == NonFinite
  {
  }

  /** getAvgPacketSize: the mean packet size in kbytes. */
  function AvgPacketSize(sumPacketSize: int, packetCount: int): (q: FloatQuotient)
    ensures q.Finite? <==> packetCount != 0
    ensures q.Finite? ==> q.value * packetCount as real * 1024.0 == sumPacketSize as real
  {
    var m := Divide(sumPacketSize as real, packetCount as real);
    assert m.Finite? ==> m.value * packetCount as real == sumPacketSize as real;
    Scale(m, 1.0 / 1024.0)
  }

  /** The general file statistics computed by writeToDatabase. */
  datatype FileSummary = FileSummary(
    packetCount: int,
    avgPacketRate: FloatQuotient,
    avgPacketSize: FloatQuotient,
    avgPacketsSentPerHost: int,
    avgBandwidthInKBits: FloatQuotient,
    avgBandwidthOutKBits: FloatQuotient)

  const NoStatisticsError := "ERROR: Statistics could not be collected from the input PCAP!"

  /** The traffic counters of the entries of `m`, in the order `ks`. */
  function TrafficOf(ks: seq<string>, m: map<string, IpStat>): (r: seq<Traffic>)
    ensures |r| == |ks|
  {
    seq(|ks|, i requires 0 <= i < |ks| => Lookup(m, ks[i]).traffic)
  }

  /** The packets sent, summed over the first `n` counters of `ts`. */
  function SentTo(ts: seq<Traffic>, n: nat): int
    requires n <= |ts|
  {
    if n == 0 then 0 else SentTo(ts, n - 1) + ts[n - 1].pktsSent
  }

  /** The kbytes received, summed over the first `n` counters of `ts`. */
  function KbytesReceivedTo(ts: seq<Traffic>, n: nat): real
    requires n <= |ts|
  {
    if n == 0 then 0.0 else KbytesReceivedTo(ts, n - 1) + ts[n - 1].kbytesReceived
  }

  /** The kbytes sent, summed over the first `n` counters of `ts`. */
  function KbytesSentTo(ts: seq<Traffic>, n: nat): real
    requires n <= |ts|
  {
    if n == 0 then 0.0 else KbytesSentTo(ts, n - 1) + ts[n - 1].kbytesSent
  }

  function SentTotal(ts: seq<Traffic>): int {
    SentTo(ts, |ts|)
  }

  /** The mean over `n` addresses of their kbytes per second, in kbits: each
      address's kbytes are divided by the duration, which gives infinities or NaN
      when the duration is zero. */
  function MeanBandwidth(kbytesTotal: real, duration: real, n: nat): FloatQuotient
    requires n > 0
  {
    if duration == 0.0 then NonFinite else Finite(kbytesTotal / duration / n as real * 8.0)
  }

  /** The file statistics of writeToDatabase from the entries' counters; without
      any entry nothing is written and an error is reported. */
  function SummaryOf(ts: seq<Traffic>, packetCount: int, sumPacketSize: int, duration: real): Result<FileSummary, string> {
    var n := |ts|;
    if n > 0 then
      Ok(FileSummary(packetCount, Divide(packetCount as real, duration), AvgPacketSize(sumPacketSize, packetCount),
                     CDiv(SentTotal(ts), n),
                     MeanBandwidth(KbytesReceivedTo(ts, n), duration, n),
                     MeanBandwidth(KbytesSentTo(ts, n), duration, n)))
    else Err(NoStatisticsError)
  }

  lemma {:induction false} SentToNonNegative(ts: seq<Traffic>, n: nat)
    requires n <= |ts|
    ensures SentTo(ts, n) >= 0
  {
    if n > 0 {
      SentToNonNegative(ts, n - 1);
    }
  }

  /** The loop of writeToDatabase over the address table, walked in the order
      `ks`: the packets sent and the kbytes received and sent are summed, the
      entries counted, and the file statistics derived from the sums. */
  method SummarizeTable(stats: map<string, IpStat>, packetCount: int, sumPacketSize: int, duration: real)
    returns (r: Result<FileSummary, string>, ks: seq<string>)
    ensures IsEnumeration(ks, stats.Keys)
    ensures r == SummaryOf(TrafficOf(ks, stats), packetCount, sumPacketSize, duration)
  {
    ks := Enumerate(stats.Keys);
    ghost var ts := TrafficOf(ks, stats);
    var sumPacketsSent, sumKbytesIn, sumKbytesOut, senderCount := 0, 0.0, 0.0, 0;
    while senderCount < |ks|
      invariant 0 <= senderCount <= |ks|
      invariant sumPacketsSent == SentTo(ts, senderCount)
      invariant sumKbytesIn == KbytesReceivedTo(ts, senderCount)
      invariant sumKbytesOut == KbytesSentTo(ts, senderCount)
    {
      var t := Lookup(stats, ks[senderCount]).traffic;
      assert t == ts[senderCount];
      sumPacketsSent := sumPacketsSent + t.pktsSent;
      sumKbytesIn := sumKbytesIn + t.kbytesReceived;
      sumKbytesOut := sumKbytesOut + t.kbytesSent;
      senderCount := senderCount + 1;
    }
    if senderCount > 0 {
      r := Ok(FileSummary(packetCount, Divide(packetCount as real, duration), AvgPacketSize(sumPacketSize, packetCount),
                          CDiv(sumPacketsSent, senderCount),
                          MeanBandwidth(sumKbytesIn, duration, senderCount),
                          MeanBandwidth(sumKbytesOut, duration, senderCount)));
    } else {
      r := Err(NoStatisticsError);
    }
  }

  /** What the file statistics mean: an error exactly when there is no address;
      otherwise the packets sent per host are the whole-number mean of the packets
      sent, and the bandwidths are finite exactly when the capture has a length. */
  lemma SummaryMeaning(ts: seq<Traffic>, packetCount: int, sumPacketSize: int, duration: real)
    ensures var r := SummaryOf(ts, packetCount, sumPacketSize, duration);
      && (r.Err? <==> ts == [])
      && (r.Err? ==> r.error == NoStatisticsError)
      && (r.Ok? ==>
            && r.value.packetCount == packetCount
            && r.value.avgPacketsSentPerHost * |ts| <= SentTotal(ts) < (r.value.avgPacketsSentPerHost + 1) * |ts|
            && (r.value.avgBandwidthInKBits.Finite? <==> duration != 0.0)
            && (r.value.avgBandwidthOutKBits.Finite? <==> duration != 0.0)
            && (r.value.avgPacketSize.Finite? <==> packetCount != 0))
  {
    if ts != [] {
      SentToNonNegative(ts, |ts|);
      MeanBounds(SentTotal(ts), |ts|);
    }
  }

  /** Truncating division of a non-negative number brackets it between multiples. */
  lemma MeanBounds(a: int, n: int)
    requires a >= 0 && n > 0
    ensures CDiv(a, n) * n <= a < (CDiv(a, n) + 1) * n
  {
    var q := a / n;
    assert q * n + a % n == a;
    assert (q + 1) * n == q * n + n;
  }
}
