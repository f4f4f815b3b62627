/** The statistics engine (class `statistics`): one object that is fed packet
    events one at a time and keeps every table in place. Each method below is
    one event or query of the engine; its contract states the new value of the
    tables it touches, in terms of the specification functions of the modules it
    imports, and that the object invariant is kept. */
module Engine {
  import opened Common
  import opened Entropy
  import opened IpStats
  import opened Conversations
  import opened Records

  class Statistics {
    var resourcePath: string
    /** COMM_INTERVAL_THRESHOLD, the idle time (µs) that splits a conversation
        into communication intervals. */
    const commIntervalThreshold: nat
    var doExtraTests: bool
    var defaultInterval: int
    var timestampFirstPacket: Timestamp
    var timestampLastPacket: Timestamp

    // running counters
    var packetCount: int
    var sumPacketSize: int
    var payloadCount: int
    var correctTcpChecksumCount: int
    var incorrectTcpChecksumCount: int

    // per-address tables
    var ipStatistics: map<string, IpStat>
    var contactedIps: map<string, set<string>>
    var ipMacMapping: map<string, string>

    // value tables: how often each value was seen, overall and per address
    var ttlValues: map<int, int>
    var winValues: map<int, int>
    var tosValues: map<int, int>
    var mssValues: map<int, int>
    var portValues: map<int, int>
    var ttlDistribution: map<IpValue, int>
    var winDistribution: map<IpValue, int>
    var tosDistribution: map<IpValue, int>
    var mssDistribution: map<IpValue, int>
    var protocolDistribution: map<IpProtocol, ProtocolCounter>
    var ipPorts: map<PortKey, PortCounter>
    var unrecognizedPdus: map<PduKey, PduCounter>

    // conversations
    var convStatistics: map<Conv, ConvEntry>
    var convStatisticsExtended: map<ConvWithProt, ConvExtEntry>

    // interval records, keyed by the interval's end
    var intervalStatistics: map<int, IntervalStat>
    var ipSrcNovelCount: int
    var ipDstNovelCount: int

    // the baseline: the state when the previous interval was recorded
    var baseline: Snapshot

    // ---------------------------------------------------------------------------
    // The object invariant, in parts that read only the fields they are about

    /** The address tables are consistent (entries, contacts, degrees). */
    ghost predicate IpOk()
      reads this`ipStatistics, this`contactedIps
    {
      TablesOk(IpTables(ipStatistics, contactedIps))
    }

    /** Every conversation entry is consistent and none is kept under both keys. */
    ghost predicate ConvsOk()
      reads this`convStatistics
    {
      AllConvOk(convStatistics) && OneDirection(convStatistics)
    }

    /** Every extended conversation entry has its communication intervals right. */
    ghost predicate ExtConvsOk()
      reads this`convStatisticsExtended
    {
      AllExtOk(convStatisticsExtended, commIntervalThreshold)
    }

    /** No address of the baseline has been forgotten. */
    ghost predicate IpsKept()
      reads this`ipStatistics, this`baseline
    {
      baseline.ipStats.Keys <= ipStatistics.Keys
    }

    /** No value of a value table's baseline has been forgotten. */
    ghost predicate ValuesOk()
      reads this`ttlValues, this`winValues, this`tosValues, this`mssValues, this`portValues, this`baseline
    {
      && baseline.ttlValues.Keys <= ttlValues.Keys
      && baseline.winSizeValues.Keys <= winValues.Keys
      && baseline.tosValues.Keys <= tosValues.Keys
      && baseline.mssValues.Keys <= mssValues.Keys
      && baseline.portValues.Keys <= portValues.Keys
    }

    /** The baseline's novelty counts are the sizes of the baseline's tables. */
    ghost predicate BaselineSizesOk()
      reads this`baseline
    {
      SizesMatch(baseline)
    }

    /** The running counters never fall below their baseline. */
    ghost predicate CountersOk()
      reads this`packetCount, this`sumPacketSize, this`payloadCount, this`correctTcpChecksumCount,
            this`incorrectTcpChecksumCount, this`baseline
    {
      CountersBelow(baseline.counters, Current())
    }

    ghost predicate Valid()
      reads this
    {
      IpOk() && ConvsOk() && ExtConvsOk() && ValuesOk() && IpsKept() && BaselineSizesOk() && CountersOk()
    }

    /** The running counters an interval record is taken from. */
    function Current(): Counters
      reads this`packetCount, this`sumPacketSize, this`payloadCount, this`incorrectTcpChecksumCount,
            this`correctTcpChecksumCount
    {
      Counters(packetCount, sumPacketSize, payloadCount, incorrectTcpChecksumCount, correctTcpChecksumCount)
    }

    /** The tables an interval record is computed from, as a snapshot; the
        baseline is this snapshot as of the previous interval. */
    function Now(): Snapshot
      reads this`packetCount, this`sumPacketSize, this`payloadCount, this`incorrectTcpChecksumCount,
            this`correctTcpChecksumCount, this`ipStatistics, this`ttlValues, this`winValues, this`tosValues,
            this`mssValues, this`portValues
    {
      Snapshot(Current(), |ipStatistics|, ValueSizes(), ipStatistics, ttlValues, winValues, tosValues, mssValues, portValues)
    }

    /** The number of distinct values in each value table. */
    function ValueSizes(): Sizes
      reads this`ttlValues, this`winValues, this`tosValues, this`mssValues, this`portValues
    {
      Sizes(|ttlValues|, |winValues|, |tosValues|, |mssValues|, |portValues|)
    }

    // ---------------------------------------------------------------------------
    // Construction and per-packet counters

    /** A fresh engine: every counter zero, every table empty, extra tests off. */
    constructor (resourcePath: string, commIntervalThreshold: nat)
      ensures Valid()
      ensures this.resourcePath == resourcePath && this.commIntervalThreshold == commIntervalThreshold
      ensures !doExtraTests && packetCount == 0 && sumPacketSize == 0
      ensures ipStatistics == map[] && convStatistics == map[] && intervalStatistics == map[]
    {
      this.resourcePath := resourcePath;
      this.commIntervalThreshold := commIntervalThreshold;
      doExtraTests := false;
      defaultInterval := 0;
      timestampFirstPacket := Timestamp(0, 0);
      timestampLastPacket := Timestamp(0, 0);
      packetCount, sumPacketSize, payloadCount := 0, 0, 0;
      correctTcpChecksumCount, incorrectTcpChecksumCount := 0, 0;
      ipStatistics, contactedIps, ipMacMapping := map[], map[], map[];
      ttlValues, winValues, tosValues, mssValues, portValues := map[], map[], map[], map[], map[];
      ttlDistribution, winDistribution, tosDistribution, mssDistribution := map[], map[], map[], map[];
      protocolDistribution, ipPorts, unrecognizedPdus := map[], map[], map[];
      convStatistics, convStatisticsExtended := map[], map[];
      intervalStatistics := map[];
      ipSrcNovelCount, ipDstNovelCount := 0, 0;
      baseline := EmptySnapshot;
    }

    /** checkPayload: with extra tests on, a layer-4 PDU longer than its header
        counts as one more packet with payload. */
    method CheckPayload(pktSize: int, headerSize: int)
      requires CountersOk()
      modifies this`payloadCount
      ensures CountersOk()
      ensures payloadCount == old(payloadCount) + (if doExtraTests && pktSize - headerSize > 0 then 1 else 0)
    {
      if doExtraTests {
        var payloadSize := pktSize - headerSize;
        if payloadSize > 0 {
          payloadCount := payloadCount + 1;
        }
      }
    }

    /** checkTCPChecksum: with extra tests on, counts the packet as having a
        correct or an incorrect checksum (`checksumCorrect` is the verdict of
        check_tcpChecksum). */
    method CheckTcpChecksum(checksumCorrect: bool)
      requires CountersOk()
      modifies this`correctTcpChecksumCount, this`incorrectTcpChecksumCount
      ensures CountersOk()
      ensures correctTcpChecksumCount == old(correctTcpChecksumCount) + (if doExtraTests && checksumCorrect then 1 else 0)
      ensures incorrectTcpChecksumCount == old(incorrectTcpChecksumCount) + (if doExtraTests && !checksumCorrect then 1 else 0)
    {
      if doExtraTests {
        if checksumCorrect {
          correctTcpChecksumCount := correctTcpChecksumCount + 1;
        } else {
          incorrectTcpChecksumCount := incorrectTcpChecksumCount + 1;
        }
      }
    }

    /** incrementTTLcount. */
    method IncrementTtlCount(ipAddress: string, ttlValue: int)
      requires ValuesOk()
      modifies this`ttlValues, this`ttlDistribution
      ensures ValuesOk()
      ensures ttlValues == Increment(old(ttlValues), ttlValue)
      ensures ttlDistribution == Increment(old(ttlDistribution), IpValue(ipAddress, ttlValue))
    {
      ttlValues, ttlDistribution := Increment(ttlValues, ttlValue), Increment(ttlDistribution, IpValue(ipAddress, ttlValue));
    }

    /** incrementWinCount. */
    method IncrementWinCount(ipAddress: string, winSize: int)
      requires ValuesOk()
      modifies this`winValues, this`winDistribution
      ensures ValuesOk()
      ensures winValues == Increment(old(winValues), winSize)
      ensures winDistribution == Increment(old(winDistribution), IpValue(ipAddress, winSize))
    {
      winValues, winDistribution := Increment(winValues, winSize), Increment(winDistribution, IpValue(ipAddress, winSize));
    }

    /** incrementToScount. */
    method IncrementTosCount(ipAddress: string, tosValue: int)
      requires ValuesOk()
      modifies this`tosValues, this`tosDistribution
      ensures ValuesOk()
      ensures tosValues == Increment(old(tosValues), tosValue)
      ensures tosDistribution == Increment(old(tosDistribution), IpValue(ipAddress, tosValue))
    {
      tosValues, tosDistribution := Increment(tosValues, tosValue), Increment(tosDistribution, IpValue(ipAddress, tosValue));
    }

    /** incrementMSScount. */
    method IncrementMssCount(ipAddress: string, mssValue: int)
      requires ValuesOk()
      modifies this`mssValues, this`mssDistribution
      ensures ValuesOk()
      ensures mssValues == Increment(old(mssValues), mssValue)
      ensures mssDistribution == Increment(old(mssDistribution), IpValue(ipAddress, mssValue))
    {
      mssValues, mssDistribution := Increment(mssValues, mssValue), Increment(mssDistribution, IpValue(ipAddress, mssValue));
    }
  
    /** incrementProtocolCount. */
    method IncrementProtocolCount(ipAddress: string, protocol: string)
      modifies this`protocolDistribution
      ensures var k := IpProtocol(ipAddress, protocol);
        var c := LookupProtocol(old(protocolDistribution), k);
        protocolDistribution == old(protocolDistribution)[k := c.(count := c.count + 1)]
    {
      var k := IpProtocol(ipAddress, protocol);
      var c := LookupProtocol(protocolDistribution, k);
      protocolDistribution := protocolDistribution[k := c.(count := c.count + 1)];
    }

    /** getProtocolCount: a read through `operator[]`, which inserts a zero
        counter for a pair never seen. */
    method GetProtocolCount(ipAddress: string, protocol: string) returns (count: int)
      modifies this`protocolDistribution
      ensures var k := IpProtocol(ipAddress, protocol);
        && count == LookupProtocol(old(protocolDistribution), k).count
        && protocolDistribution == old(protocolDistribution)[k := LookupProtocol(old(protocolDistribution), k)]
    {
      var k := IpProtocol(ipAddress, protocol);
      var c := LookupProtocol(protocolDistribution, k);
      protocolDistribution := protocolDistribution[k := c];
      count := c.count;
    }

    /** increaseProtocolByteCount. */
    method IncreaseProtocolByteCount(ipAddress: string, protocol: string, bytesSent: int)
      modifies this`protocolDistribution
      ensures var k := IpProtocol(ipAddress, protocol);
        var c := LookupProtocol(old(protocolDistribution), k);
        protocolDistribution == old(protocolDistribution)[k := c.(byteCount := c.byteCount + bytesSent)]
    {
      var k := IpProtocol(ipAddress, protocol);
      var c := LookupProtocol(protocolDistribution, k);
      protocolDistribution := protocolDistribution[k := c.(byteCount := c.byteCount + bytesSent)];
    }

    /** getProtocolByteCount, as a float; inserts a zero counter like getProtocolCount. */
    method GetProtocolByteCount(ipAddress: string, protocol: string) returns (byteCount: real)
      modifies this`protocolDistribution
      ensures var k := IpProtocol(ipAddress, protocol);
        && byteCount == LookupProtocol(old(protocolDistribution), k).byteCount as real
        && protocolDistribution == old(protocolDistribution)[k := LookupProtocol(old(protocolDistribution), k)]
    {
      var k := IpProtocol(ipAddress, protocol);
      var c := LookupProtocol(protocolDistribution, k);
      protocolDistribution := protocolDistribution[k := c];
      byteCount := c.byteCount as real;
    }

    /** incrementPortCount: both ports are counted in the port table, and the
        sender's outgoing and the receiver's incoming port each in `ip_ports` (the
        two keys differ in their direction, so neither count is lost). */
    method IncrementPortCount(ipAddressSender: string, outgoingPort: int, ipAddressReceiver: string,
                              incomingPort: int, protocol: string)
      requires ValuesOk()
      modifies this`portValues, this`ipPorts
      ensures ValuesOk()
      ensures portValues == Increment(Increment(old(portValues), outgoingPort), incomingPort)
      ensures var kOut := PortKey(ipAddressSender, "out", outgoingPort, protocol);
        var kIn := PortKey(ipAddressReceiver, "in", incomingPort, protocol);
        var cOut := LookupPort(old(ipPorts), kOut);
        var cIn := LookupPort(old(ipPorts), kIn);
        ipPorts == old(ipPorts)[kOut := cOut.(count := cOut.count + 1)][kIn := cIn.(count := cIn.count + 1)]
    {
      var kOut := PortKey(ipAddressSender, "out", outgoingPort, protocol);
      var kIn := PortKey(ipAddressReceiver, "in", incomingPort, protocol);
      var cOut := LookupPort(ipPorts, kOut);
      var cIn := LookupPort(ipPorts, kIn);
      portValues, ipPorts := Increment(Increment(portValues, outgoingPort), incomingPort),
                             ipPorts[kOut := cOut.(count := cOut.count + 1)][kIn := cIn.(count := cIn.count + 1)];
    }

    /** increasePortByteCount. */
    method IncreasePortByteCount(ipAddressSender: string, outgoingPort: int, ipAddressReceiver: string,
                                 incomingPort: int, bytesSent: int, protocol: string)
      modifies this`ipPorts
      ensures var kOut := PortKey(ipAddressSender, "out", outgoingPort, protocol);
        var kIn := PortKey(ipAddressReceiver, "in", incomingPort, protocol);
        var cOut := LookupPort(old(ipPorts), kOut);
        var cIn := LookupPort(old(ipPorts), kIn);
        ipPorts == old(ipPorts)[kOut := cOut.(byteCount := cOut.byteCount + bytesSent)]
                               [kIn := cIn.(byteCount := cIn.byteCount + bytesSent)]
    {
      var kOut := PortKey(ipAddressSender, "out", outgoingPort, protocol);
      var kIn := PortKey(ipAddressReceiver, "in", incomingPort, protocol);
      var cOut := LookupPort(ipPorts, kOut);
      var cIn := LookupPort(ipPorts, kIn);
      ipPorts := ipPorts[kOut := cOut.(byteCount := cOut.byteCount + bytesSent)]
                        [kIn := cIn.(byteCount := cIn.byteCount + bytesSent)];
    }

    /** incrementUnrecognizedPDUCount: one more occurrence, and the newest timestamp. */
    method IncrementUnrecognizedPduCount(srcMac: string, dstMac: string, typeNumber: int, timestamp: string)
      modifies this`unrecognizedPdus
      ensures var k := PduKey(srcMac, dstMac, typeNumber);
        unrecognizedPdus == old(unrecognizedPdus)[k := PduCounter(LookupPdu(old(unrecognizedPdus), k).count + 1, timestamp)]
    {
      var k := PduKey(srcMac, dstMac, typeNumber);
      var c := LookupPdu(unrecognizedPdus, k);
      unrecognizedPdus := unrecognizedPdus[k := PduCounter(c.count + 1, timestamp)];
    }

    /** assignMacAddress: the newest assignment wins. */
    method AssignMacAddress(ipAddress: string, macAddress: string)
      modifies this`ipMacMapping
      ensures ipMacMapping == old(ipMacMapping)[ipAddress := macAddress]
    {
      ipMacMapping := ipMacMapping[ipAddress := macAddress];
    }

    /** incrementPacketCount. */
    method IncrementPacketCount()
      requires CountersOk()
      modifies this`packetCount
      ensures CountersOk()
      ensures packetCount == old(packetCount) + 1
    {
      packetCount := packetCount + 1;
    }

    /** addPacketSize. */
    method AddPacketSize(packetSize: nat)
      requires CountersOk()
      modifies this`sumPacketSize
      ensures CountersOk()
      ensures sumPacketSize == old(sumPacketSize) + packetSize
    {
      sumPacketSize := sumPacketSize + packetSize;
    }

    method SetTimestampFirstPacket(ts: Timestamp)
      modifies this`timestampFirstPacket
      ensures timestampFirstPacket == ts
    {
      timestampFirstPacket := ts;
    }

    method SetTimestampLastPacket(ts: Timestamp)
      modifies this`timestampLastPacket
      ensures timestampLastPacket == ts
    {
      timestampLastPacket := ts;
    }

    method SetDoExtraTests(value: bool)
      modifies this`doExtraTests
      ensures doExtraTests == value
    {
      doExtraTests := value;
    }

    method SetDefaultInterval(interval: int)
      modifies this`defaultInterval
      ensures defaultInterval == interval
    {
      defaultInterval := interval;
    }

    // ---------------------------------------------------------------------------
    // Per-address statistics

    /** addIpStat_packetSent; `senderClass` and `receiverClass` are what
        getIPv4Class answers for the two addresses. The address tables stay
        consistent, and no address of the baseline is lost. */
    method AddIpStatPacketSent(ipAddressSender: string, ipAddressReceiver: string, bytesSent: nat, timestamp: int,
                               senderClass: string, receiverClass: string)
      requires IpOk()
      modifies this`ipStatistics, this`contactedIps
      ensures IpOk()
      ensures old(IpsKept()) ==> IpsKept()
      ensures IpTables(ipStatistics, contactedIps)
           == PacketSent(IpTables(old(ipStatistics), old(contactedIps)), ipAddressSender, ipAddressReceiver,
                         bytesSent, timestamp, senderClass, receiverClass, old(doExtraTests))
    {
      ipStatistics, contactedIps := ApplyPacketSent(IpTables(ipStatistics, contactedIps), ipAddressSender,
                                                    ipAddressReceiver, bytesSent, timestamp, senderClass,
                                                    receiverClass, doExtraTests);
    }

    /** getStatsForIP over the capture's length in seconds. The entry is read
        through `operator[]`, so an unknown address gets a zero entry. */
    method GetStatsForIp(ipAddress: string) returns (r: IpReport)
      requires IpOk()
      modifies this`ipStatistics
      ensures IpOk() && (old(IpsKept()) ==> IpsKept())
      ensures ipStatistics == old(ipStatistics)[ipAddress := Lookup(old(ipStatistics), ipAddress)]
      ensures r == ReportFor(Lookup(old(ipStatistics), ipAddress),
                             CaptureDurationSeconds(timestampFirstPacket, timestampLastPacket))
    {
      DefaultInsertOk(IpTables(ipStatistics, contactedIps), ipAddress);
      var e := Lookup(ipStatistics, ipAddress);
      ipStatistics := ipStatistics[ipAddress := e];
      r := ReportFor(e, CaptureDurationSeconds(timestampFirstPacket, timestampLastPacket));
    }

    /** The general file statistics writeToDatabase derives before writing
        anything, over the capture's length in seconds; `ks` is the order its
        loop walked the address table in. */
    method FileStatistics() returns (r: Result<FileSummary, string>, ks: seq<string>)
      ensures IsEnumeration(ks, ipStatistics.Keys)
      ensures r == SummaryOf(TrafficOf(ks, ipStatistics), packetCount, sumPacketSize,
                             CaptureDurationSeconds(timestampFirstPacket, timestampLastPacket))
    {
      r, ks := SummarizeTable(ipStatistics, packetCount, sumPacketSize,
                              CaptureDurationSeconds(timestampFirstPacket, timestampLastPacket));
    }

    // ---------------------------------------------------------------------------
    // Conversations

    /** addConvStat: the packet joins the conversation under its reverse key when
        that is already known, else under its own key. */
    method AddConvStat(ipAddressSender: string, sport: int, ipAddressReceiver: string, dport: int,
                       timestamp: int, flags: int)
      requires ConvsOk()
      modifies this`convStatistics
      ensures ConvsOk()
      ensures convStatistics == AddConv(old(convStatistics), ipAddressSender, sport, ipAddressReceiver, dport, timestamp, flags)
    {
      AddConvOk(convStatistics, ipAddressSender, sport, ipAddressReceiver, dport, timestamp, flags);
      convStatistics := AddConv(convStatistics, ipAddressSender, sport, ipAddressReceiver, dport, timestamp, flags);
    }

    /** addConvStatExt: only with extra tests on. */
    method AddConvStatExt(ipAddressSender: string, sport: int, ipAddressReceiver: string, dport: int,
                          protocol: string, timestamp: int)
      requires ExtConvsOk()
      modifies this`convStatisticsExtended
      ensures ExtConvsOk()
      ensures convStatisticsExtended
           == if doExtraTests
              then AddConvExt(old(convStatisticsExtended), ipAddressSender, sport, ipAddressReceiver, dport,
                              protocol, timestamp, commIntervalThreshold)
              else old(convStatisticsExtended)
    {
      if doExtraTests {
        AddConvExtOk(convStatisticsExtended, ipAddressSender, sport, ipAddressReceiver, dport, protocol, timestamp,
                     commIntervalThreshold);
        convStatisticsExtended := AddConvExt(convStatisticsExtended, ipAddressSender, sport, ipAddressReceiver, dport,
                                             protocol, timestamp, commIntervalThreshold);
      }
    }

    /** createCommIntervalStats: every extended conversation gets its interval
        averages, one entry at a time. */
    method CreateCommIntervalStats()
      requires ExtConvsOk()
      modifies this`convStatisticsExtended
      ensures ExtConvsOk()
      ensures AllStamped(old(convStatisticsExtended))
      ensures convStatisticsExtended == AllAggregated(old(convStatisticsExtended))
    {
      AllAggregatedOk(convStatisticsExtended, commIntervalThreshold);
      convStatisticsExtended := AggregateAll(convStatisticsExtended);
    }

    // ---------------------------------------------------------------------------
    // Interval records

    /** calculateIPIntervalPacketRate: every address gets this interval's packet
        and kbyte rate appended and its running extremes updated. */
    method CalculateIpIntervalPacketRate(interval: int, intervalStartTimestamp: int)
      requires interval > 0 && IpOk()
      modifies this`ipStatistics
      ensures IpOk() && (old(IpsKept()) ==> IpsKept())
      ensures ipStatistics == WithIntervalRates(old(ipStatistics), interval, intervalStartTimestamp)
    {
      WithIntervalRatesOk(IpTables(ipStatistics, contactedIps), interval, intervalStartTimestamp);
      ipStatistics := IntervalRatesOf(ipStatistics, interval, intervalStartTimestamp);
    }

    /** calculateLastIntervalIPsEntropy: with extra tests on, the eight IP
        entropies of the interval against the baseline, in the iteration order
        `ks` of the address table; the novel counts become the number of addresses
        the baseline does not know. With extra tests off, eight times -1. */
    method CalculateLastIntervalIpsEntropy(lg: real -> real) returns (r: seq<real>, ks: seq<string>)
      modifies this`ipSrcNovelCount, this`ipDstNovelCount
      ensures old(doExtraTests) ==>
        && IsEnumeration(ks, old(ipStatistics).Keys)
        && r == IpEntropiesAgainst(ks, old(ipStatistics), old(baseline).ipStats, lg)
        && ipSrcNovelCount == NewAddressCount(old(ipStatistics), old(baseline).ipStats)
        && ipDstNovelCount == NewAddressCount(old(ipStatistics), old(baseline).ipStats)
      ensures !old(doExtraTests) ==>
        r == NoIpEntropies && ipSrcNovelCount == old(ipSrcNovelCount) && ipDstNovelCount == old(ipDstNovelCount)
    {
      if doExtraTests {
        var srcNovel, dstNovel;
        r, ks, srcNovel, dstNovel := LastIntervalIpEntropies(ipStatistics, baseline.ipStats, lg);
        ipSrcNovelCount, ipDstNovelCount := srcNovel, dstNovel;
      } else {
        r, ks := NoIpEntropies, [];
      }
    }

    /** calculateIPsCumEntropy: with extra tests on, the entropies of every
        address's share of all packets so far, as sender and as receiver. */
    method CalculateIpsCumEntropy(lg: real -> real) returns (r: seq<real>, ks: seq<string>)
      ensures doExtraTests ==> IsEnumeration(ks, ipStatistics.Keys) && r == CumEntropiesOf(ks, ipStatistics, packetCount, lg)
      ensures !doExtraTests ==> r == NoIpCumEntropies
    {
      if doExtraTests {
        r, ks := CumIpEntropiesOf(ipStatistics, packetCount, lg);
      } else {
        r, ks := NoIpCumEntropies, [];
      }
    }

    /** The five calculateEntropies calls of addIntervalStat, each value table
        against its baseline. */
    method ValueTableEntropies(lg: real -> real) returns (r: ValueEntropies, ks: ValueKeys)
      ensures OrdersOf(IntervalOrders([], [], ks), Now(), false)
      ensures r == ValueEntropiesOf(ks, Now(), baseline, lg)
    {
      r, ks := ValueTablesEntropies(Now(), baseline, lg);
    }

    /** The measuring part of addIntervalStat, once the rates are in: the record
        of the interval, taken against the baseline, and the novel address counts
        the IP entropy pass leaves behind (with extra tests off, the old ones).
        `orders` are the iteration orders the entropy loops walked. */
    method MeasureIntervalRecord(interval: int, intervalStartTimestamp: int, intervalEndTimestamp: int, lg: real -> real)
      returns (rec: IntervalStat, orders: IntervalOrders, novelSrc: int, novelDst: int)
      requires interval > 0
      ensures OrdersOf(orders, Now(), doExtraTests)
      ensures doExtraTests ==> novelSrc == novelDst == NewAddressCount(ipStatistics, baseline.ipStats)
      ensures !doExtraTests ==> novelSrc == ipSrcNovelCount && novelDst == ipDstNovelCount
      ensures rec == IntervalRecordOf(Now(), baseline, doExtraTests, novelSrc, novelDst, orders,
                                      interval, intervalStartTimestamp, intervalEndTimestamp, lg)
    {
      rec, orders, novelSrc, novelDst := MeasureInterval(Now(), baseline, doExtraTests, ipSrcNovelCount, ipDstNovelCount,
                                                         interval, intervalStartTimestamp, intervalEndTimestamp, lg);
    }

    /** The storing part of addIntervalStat: the record goes under the interval's
        end, replacing one with the same end, and the novel counts are kept. */
    method StoreInterval(intervalEndTimestamp: int, rec: IntervalStat, novelSrc: int, novelDst: int)
      modifies this`intervalStatistics, this`ipSrcNovelCount, this`ipDstNovelCount
      ensures intervalStatistics == old(intervalStatistics)[intervalEndTimestamp := rec]
      ensures ipSrcNovelCount == novelSrc && ipDstNovelCount == novelDst
    {
      intervalStatistics := intervalStatistics[intervalEndTimestamp := rec];
      ipSrcNovelCount, ipDstNovelCount := novelSrc, novelDst;
    }

    /** The last part of addIntervalStat: the baseline becomes the current state,
        which keeps the invariant parts about the baseline. */
    method UpdateBaseline()
      requires CountersOk()
      modifies this`baseline
      ensures baseline == old(Now())
      ensures CountersOk() && ValuesOk() && IpsKept() && BaselineSizesOk()
    {
      baseline := Now();
    }
}
}
