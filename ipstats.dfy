/** Per-address statistics: the entry kept for every IP address, what one packet
    does to the sender's and the receiver's entry (and to the degree bookkeeping
    through the set of contacted addresses), and what an interval boundary does
    to an entry's running packet and kbyte rates. */
module IpStats {
  import opened Common

  /** The traffic counters of an `ip_statistics` entry. */
  datatype Traffic = Traffic(
    kbytesSent: real,
    kbytesReceived: real,
    pktsSent: nat,
    pktsReceived: nat,
    pktsSentTimestamp: seq<int>,
    pktsReceivedTimestamp: seq<int>,
    /** one size per packet this address took part in, sent or received */
    pktsKbytes: seq<real>)

  datatype Degrees = Degrees(inDegree: nat, outDegree: nat, overallDegree: nat)

  /** A list of per-interval rates with its running maximum and minimum
      (`interval_pkt_rate`, `max_interval_pkt_rate`, `min_interval_pkt_rate`, and
      likewise for kbytes). */
  datatype RateTrack = RateTrack(rates: seq<real>, max: real, min: real)

  /** One entry of `ip_statistics`, its fields grouped by concern. */
  datatype IpStat = IpStat(
    traffic: Traffic,
    ipClass: string,
    degrees: Degrees,
    pktRate: RateTrack,
    kbyteRate: RateTrack,
    /** written only by code outside this model; it stays empty */
    interarrivalTimes: seq<int>)

  /** The value-initialised entry that `operator[]` inserts for an unknown address. */
  const DefaultIpStat: IpStat :=
    IpStat(Traffic(0.0, 0.0, 0, 0, [], [], []), "", Degrees(0, 0, 0),
           RateTrack([], 0.0, 0.0), RateTrack([], 0.0, 0.0), [])

  function Lookup(m: map<string, IpStat>, ip: string): IpStat {
    if ip in m then m[ip] else DefaultIpStat
  }

  function LookupSet(m: map<string, set<string>>, ip: string): set<string> {
    if ip in m then m[ip] else {}
  }

  /** The addresses that have sent at least one packet to `b` (with extra tests on). */
  ghost function Contactors(contacted: map<string, set<string>>, b: string): set<string> {
    set a | a in contacted && b in contacted[a]
  }

  /** The largest recorded rate, or 0 when none is recorded. */
  function MaxOrZero(s: seq<real>): real
    decreases |s|
  {
    if s == [] then 0.0
    else
      var m := MaxOrZero(s[..|s| - 1]);
      if s[|s| - 1] > m then s[|s| - 1] else m
  }

  /** The smallest recorded rate, or 0 when none is recorded. */
  function MinOrZero(s: seq<real>): real
    decreases |s|
  {
    if s == [] then 0.0
    else if |s| == 1 then s[0]
    else
      var m := MinOrZero(s[..|s| - 1]);
      if s[|s| - 1] < m then s[|s| - 1] else m
  }

  /** What the running maximum and minimum of an interval-rate list promise:
      the maximum is the largest rate (or 0), the minimum is 0 or a recorded rate,
      and it is the smallest rate whenever no recorded rate is zero. */
  ghost predicate RunningRates(t: RateTrack) {
    && (forall i :: 0 <= i < |t.rates| ==> t.rates[i] >= 0.0)
    && t.max == MaxOrZero(t.rates)
    && (t.min == 0.0 || t.min in t.rates)
    && ((forall i :: 0 <= i < |t.rates| ==> t.rates[i] > 0.0) ==> t.min == MinOrZero(t.rates))
  }

  /** The packet counters equal the lengths of their timestamp lists and every
      packet left one non-negative size. */
  ghost predicate TrafficOk(t: Traffic) {
    && t.pktsSent == |t.pktsSentTimestamp|
    && t.pktsReceived == |t.pktsReceivedTimestamp|
    && |t.pktsKbytes| == |t.pktsSentTimestamp| + |t.pktsReceivedTimestamp|
    && (forall i :: 0 <= i < |t.pktsKbytes| ==> t.pktsKbytes[i] >= 0.0)
  }

  /** The entry invariant. */
  ghost predicate Consistent(e: IpStat) {
    TrafficOk(e.traffic) && RunningRates(e.pktRate) && RunningRates(e.kbyteRate)
  }

  /** `ip_statistics` together with `contacted_ips`. */
  datatype IpTables = IpTables(stats: map<string, IpStat>, contacted: map<string, set<string>>)

  /** The table invariant: every entry is consistent, every contacted address has
      an entry, and the in- and out-degree of an address count the distinct
      addresses it received from and sent to. */
  ghost predicate TablesOk(t: IpTables) {
    && AllConsistent(t.stats)
    && ContactsKnown(t)
    && OutDegreesOk(t)
    && InDegreesOk(t)
  }

  ghost predicate AllConsistent(m: map<string, IpStat>) {
    forall ip :: ip in m ==> Consistent(m[ip])
  }

  ghost predicate ContactsKnown(t: IpTables) {
    forall a :: a in t.contacted ==> a in t.stats && t.contacted[a] <= t.stats.Keys
  }

  ghost predicate OutDegreesOk(t: IpTables) {
    forall ip :: ip in t.stats ==> t.stats[ip].degrees.outDegree == |LookupSet(t.contacted, ip)|
  }

  ghost predicate InDegreesOk(t: IpTables) {
    forall ip :: ip in t.stats ==> t.stats[ip].degrees.inDegree == |Contactors(t.contacted, ip)|
  }

  /** Packet sizes are kept in kbytes (bytes / 1024). */
  function Kbytes(bytes: nat): (kb: real)
    ensures kb >= 0.0 && kb * 1024.0 == bytes as real
  {
    bytes as real / 1024.0
  }

  function RecordSent(t: Traffic, kb: real, ts: int): Traffic {
    t.(kbytesSent := t.kbytesSent + kb, pktsKbytes := t.pktsKbytes + [kb],
       pktsSent := t.pktsSent + 1, pktsSentTimestamp := t.pktsSentTimestamp + [ts])
  }

  function RecordReceived(t: Traffic, kb: real, ts: int): Traffic {
    t.(kbytesReceived := t.kbytesReceived + kb, pktsKbytes := t.pktsKbytes + [kb],
       pktsReceived := t.pktsReceived + 1, pktsReceivedTimestamp := t.pktsReceivedTimestamp + [ts])
  }

  /** What the counter half of a packet leaves alone: degrees and rates. */
  function Labels(m: map<string, IpStat>, ip: string): (Degrees, RateTrack, RateTrack) {
    var e := Lookup(m, ip);
    (e.degrees, e.pktRate, e.kbyteRate)
  }

  /** Sets the IP class of an address that has not sent a packet yet. */
  function ClassIfNewSender(m: map<string, IpStat>, ip: string, cls: string): (r: map<string, IpStat>)
    ensures r.Keys == m.Keys + {ip}
    ensures forall j :: Labels(r, j) == Labels(m, j)
    ensures forall j :: j != ip ==> Lookup(r, j) == Lookup(m, j)
    ensures r[ip].traffic == Lookup(m, ip).traffic
    ensures r[ip].ipClass == if Lookup(m, ip).traffic.pktsSent == 0 then cls else Lookup(m, ip).ipClass
  {
    var e := Lookup(m, ip);
    m[ip := if e.traffic.pktsSent == 0 then e.(ipClass := cls) else e]
  }

  /** Sets the IP class of an address that has not received a packet yet. */
  function ClassIfNewReceiver(m: map<string, IpStat>, ip: string, cls: string): (r: map<string, IpStat>)
    ensures r.Keys == m.Keys + {ip}
    ensures forall j :: Labels(r, j) == Labels(m, j)
    ensures forall j :: j != ip ==> Lookup(r, j) == Lookup(m, j)
    ensures r[ip].traffic == Lookup(m, ip).traffic
    ensures r[ip].ipClass == if Lookup(m, ip).traffic.pktsReceived == 0 then cls else Lookup(m, ip).ipClass
  {
    var e := Lookup(m, ip);
    m[ip := if e.traffic.pktsReceived == 0 then e.(ipClass := cls) else e]
  }

  /** Records a packet sent by `ip`, of `kb` kbytes, at `ts`. */
  function SentBy(m: map<string, IpStat>, ip: string, kb: real, ts: int): (r: map<string, IpStat>)
    ensures r.Keys == m.Keys + {ip}
    ensures forall j :: Labels(r, j) == Labels(m, j)
    ensures forall j :: j != ip ==> Lookup(r, j) == Lookup(m, j)
    ensures r[ip].ipClass == Lookup(m, ip).ipClass
    ensures r[ip].traffic == RecordSent(Lookup(m, ip).traffic, kb, ts)
  {
    var e := Lookup(m, ip);
    m[ip := e.(traffic := RecordSent(e.traffic, kb, ts))]
  }

  /** Records a packet received by `ip`, of `kb` kbytes, at `ts`. */
  function ReceivedBy(m: map<string, IpStat>, ip: string, kb: real, ts: int): (r: map<string, IpStat>)
    ensures r.Keys == m.Keys + {ip}
    ensures forall j :: Labels(r, j) == Labels(m, j)
    ensures forall j :: j != ip ==> Lookup(r, j) == Lookup(m, j)
    ensures r[ip].ipClass == Lookup(m, ip).ipClass
    ensures r[ip].traffic == RecordReceived(Lookup(m, ip).traffic, kb, ts)
  {
    var e := Lookup(m, ip);
    m[ip := e.(traffic := RecordReceived(e.traffic, kb, ts))]
  }

  /** The counter half of addIpStat_packetSent: the IP class is set for a first-time
      sender or receiver, then the sender's and the receiver's counters are updated,
      in that order (so a packet from an address to itself updates one entry twice). */
  function CountPacket(stats: map<string, IpStat>, sender: string, receiver: string, bytesSent: nat, ts: int,
                       senderClass: string, receiverClass: string): (r: map<string, IpStat>)
    ensures r.Keys == stats.Keys + {sender, receiver}
    ensures SameExceptTraffic(stats, r, {sender, receiver})
  {
    var m2 := ClassIfNewReceiver(ClassIfNewSender(stats, sender, senderClass), receiver, receiverClass);
    var kb := Kbytes(bytesSent);
    ReceivedBy(SentBy(m2, sender, kb, ts), receiver, kb, ts)
  }

  function BumpOut(m: map<string, IpStat>, ip: string): (r: map<string, IpStat>)
    requires ip in m
    ensures r.Keys == m.Keys
    ensures forall j :: j != ip ==> Lookup(r, j) == Lookup(m, j)
  {
    var d := m[ip].degrees;
    m[ip := m[ip].(degrees := d.(outDegree := d.outDegree + 1))]
  }

  function BumpIn(m: map<string, IpStat>, ip: string): (r: map<string, IpStat>)
    requires ip in m
    ensures r.Keys == m.Keys
    ensures forall j :: j != ip ==> Lookup(r, j) == Lookup(m, j)
  {
    var d := m[ip].degrees;
    m[ip := m[ip].(degrees := d.(inDegree := d.inDegree + 1))]
  }

  function BumpOverall(m: map<string, IpStat>, ip: string): (r: map<string, IpStat>)
    requires ip in m
    ensures r.Keys == m.Keys
    ensures forall j :: j != ip ==> Lookup(r, j) == Lookup(m, j)
  {
    var d := m[ip].degrees;
    m[ip := m[ip].(degrees := d.(overallDegree := d.overallDegree + 1))]
  }

  /** The degree half of addIpStat_packetSent (extra tests on): on the first packet
      from `sender` to `receiver` the out- and in-degree grow, and the overall
      degree of both grows unless `receiver` had already sent to `sender`. */
  function RecordContact(stats: map<string, IpStat>, contacted: map<string, set<string>>,
                         sender: string, receiver: string): (r: IpTables)
    requires sender in stats && receiver in stats
    ensures r.stats.Keys == stats.Keys
  {
    var c1 := contacted[sender := LookupSet(contacted, sender)];
    if receiver in c1[sender] then IpTables(stats, c1)
    else
      var m6 := BumpIn(BumpOut(stats, sender), receiver);
      var c2 := c1[receiver := LookupSet(c1, receiver)];
      var m8 := if sender in c2[receiver] then m6 else BumpOverall(BumpOverall(m6, sender), receiver);
      IpTables(m8, c2[sender := c2[sender] + {receiver}])
  }

  /** addIpStat_packetSent. */
  function PacketSent(t: IpTables, sender: string, receiver: string, bytesSent: nat, ts: int,
                      senderClass: string, receiverClass: string, extraTests: bool): (r: IpTables)
    ensures r.stats.Keys == t.stats.Keys + {sender, receiver}
  {
    var m4 := CountPacket(t.stats, sender, receiver, bytesSent, ts, senderClass, receiverClass);
    if extraTests then RecordContact(m4, t.contacted, sender, receiver) else IpTables(m4, t.contacted)
  }

  /** Only the traffic counters and the class of the listed addresses may differ. */
  ghost predicate SameExceptTraffic(m: map<string, IpStat>, m': map<string, IpStat>, changed: set<string>) {
    && (forall ip :: Labels(m', ip) == Labels(m, ip))
    && (forall ip :: ip !in changed ==> Lookup(m', ip) == Lookup(m, ip))
  }

  /** The counters of one packet of `bytesSent` bytes: the sender sent one more
      packet (last sent timestamp `ts`) and its kbytes sent grow by the packet's
      size in kbytes; the receiver received one more (last received timestamp
      `ts`) and its kbytes received grow by the same size; each endpoint records
      that size once more, so an address sending to itself records it twice. */
  lemma CountPacketTraffic(stats: map<string, IpStat>, sender: string, receiver: string, bytesSent: nat, ts: int,
                           senderClass: string, receiverClass: string)
    ensures var r := CountPacket(stats, sender, receiver, bytesSent, ts, senderClass, receiverClass);
      var s := Lookup(stats, sender).traffic;
      var v := Lookup(stats, receiver).traffic;
      var kb := Kbytes(bytesSent);
      && r[sender].traffic.pktsSent == s.pktsSent + 1
      && r[sender].traffic.pktsSentTimestamp == s.pktsSentTimestamp + [ts]
      && r[sender].traffic.kbytesSent == s.kbytesSent + kb
      && r[receiver].traffic.pktsReceived == v.pktsReceived + 1
      && r[receiver].traffic.pktsReceivedTimestamp == v.pktsReceivedTimestamp + [ts]
      && r[receiver].traffic.kbytesReceived == v.kbytesReceived + kb
      && (sender != receiver ==>
            && r[sender].traffic.pktsKbytes == s.pktsKbytes + [kb]
            && r[receiver].traffic.pktsKbytes == v.pktsKbytes + [kb]
            && r[sender].traffic.pktsReceived == s.pktsReceived
            && r[sender].traffic.kbytesReceived == s.kbytesReceived
            && r[receiver].traffic.pktsSent == v.pktsSent
            && r[receiver].traffic.kbytesSent == v.kbytesSent)
      && (sender == receiver ==> r[sender].traffic.pktsKbytes == s.pktsKbytes + [kb, kb])
  {
    var m1 := ClassIfNewSender(stats, sender, senderClass);
    var m2 := ClassIfNewReceiver(m1, receiver, receiverClass);
    assert m2[sender].traffic == Lookup(stats, sender).traffic;
    assert m2[receiver].traffic == Lookup(stats, receiver).traffic;
    var kb := Kbytes(bytesSent);
    var m3 := SentBy(m2, sender, kb, ts);
    assert m3[sender].traffic == RecordSent(Lookup(stats, sender).traffic, kb, ts);
    var m4 := ReceivedBy(m3, receiver, kb, ts);
    assert m4[receiver].traffic == RecordReceived(Lookup(m3, receiver).traffic, kb, ts);
    if sender == receiver {
      var sizes := Lookup(stats, sender).traffic.pktsKbytes;
      assert sizes + [kb] + [kb] == sizes + [kb, kb];
    }
  }

  /** The class of one packet's endpoints: an address takes the class given
      for it when it sends (receives) its first packet, and keeps its class
      otherwise; for a packet from an address to itself the receiver's test
      comes second and wins. */
  lemma CountPacketClass(stats: map<string, IpStat>, sender: string, receiver: string, bytesSent: nat, ts: int,
                         senderClass: string, receiverClass: string)
    ensures var r := CountPacket(stats, sender, receiver, bytesSent, ts, senderClass, receiverClass);
      var es, ev := Lookup(stats, sender), Lookup(stats, receiver);
      && (sender != receiver ==>
            && r[sender].ipClass == (if es.traffic.pktsSent == 0 then senderClass else es.ipClass)
            && r[receiver].ipClass == (if ev.traffic.pktsReceived == 0 then receiverClass else ev.ipClass))
      && (sender == receiver ==>
            r[sender].ipClass == (if es.traffic.pktsReceived == 0 then receiverClass
                                  else if es.traffic.pktsSent == 0 then senderClass else es.ipClass))
  {
    var m1 := ClassIfNewSender(stats, sender, senderClass);
    var m2 := ClassIfNewReceiver(m1, receiver, receiverClass);
    var kb := Kbytes(bytesSent);
    var m3 := SentBy(m2, sender, kb, ts);
    var m4 := ReceivedBy(m3, receiver, kb, ts);
    assert m4[sender].ipClass == m2[sender].ipClass;
    assert m4[receiver].ipClass == m2[receiver].ipClass;
  }

  lemma RecordSentOk(t: Traffic, kb: real, ts: int)
    requires TrafficOk(t) && kb >= 0.0
    ensures TrafficOk(RecordSent(t, kb, ts))
  {
    var r := RecordSent(t, kb, ts);
    assert forall i :: 0 <= i < |t.pktsKbytes| ==> r.pktsKbytes[i] == t.pktsKbytes[i];
  }

  lemma RecordReceivedOk(t: Traffic, kb: real, ts: int)
    requires TrafficOk(t) && kb >= 0.0
    ensures TrafficOk(RecordReceived(t, kb, ts))
  {
    var r := RecordReceived(t, kb, ts);
    assert forall i :: 0 <= i < |t.pktsKbytes| ==> r.pktsKbytes[i] == t.pktsKbytes[i];
  }

  lemma ClassKeepsConsistent(m: map<string, IpStat>, ip: string, cls: string)
    requires AllConsistent(m)
    ensures AllConsistent(ClassIfNewSender(m, ip, cls)) && AllConsistent(ClassIfNewReceiver(m, ip, cls))
  {
    assert Consistent(Lookup(m, ip));
  }

  lemma TrafficKeepsConsistent(m: map<string, IpStat>, ip: string, kb: real, ts: int)
    requires AllConsistent(m) && kb >= 0.0
    ensures AllConsistent(SentBy(m, ip, kb, ts)) && AllConsistent(ReceivedBy(m, ip, kb, ts))
  {
    assert Consistent(Lookup(m, ip));
    RecordSentOk(Lookup(m, ip).traffic, kb, ts);
    RecordReceivedOk(Lookup(m, ip).traffic, kb, ts);
  }

  lemma CountPacketConsistent(stats: map<string, IpStat>, sender: string, receiver: string, bytesSent: nat, ts: int,
                              senderClass: string, receiverClass: string)
    requires AllConsistent(stats)
    ensures AllConsistent(CountPacket(stats, sender, receiver, bytesSent, ts, senderClass, receiverClass))
  {
    ClassKeepsConsistent(stats, sender, senderClass);
    var m1 := ClassIfNewSender(stats, sender, senderClass);
    ClassKeepsConsistent(m1, receiver, receiverClass);
    var m2 := ClassIfNewReceiver(m1, receiver, receiverClass);
    var kb := Kbytes(bytesSent);
    TrafficKeepsConsistent(m2, sender, kb, ts);
    var m3 := SentBy(m2, sender, kb, ts);
    TrafficKeepsConsistent(m3, receiver, kb, ts);
  }

  /** The degree bookkeeping of one packet from `sender` to `receiver` (extra
      tests on), as a relation between the tables before and after: out- and
      in-degree grow exactly when `receiver` is not yet among the addresses
      `sender` contacted, counters and rates stay as they are, `receiver` joins
      the addresses `sender` contacted, and nobody else's contacts change. */
  ghost predicate ContactEffect(before: IpTables, after: IpTables, sender: string, receiver: string) {
    ContactStatsEffect(before, after, sender, receiver) && ContactSetEffect(before, after, sender, receiver)
  }

  ghost predicate ContactStatsEffect(before: IpTables, after: IpTables, sender: string, receiver: string) {
    var first := receiver !in LookupSet(before.contacted, sender);
    && after.stats.Keys == before.stats.Keys
    && (forall ip :: ip in before.stats ==>
          (after.stats[ip].degrees.outDegree == before.stats[ip].degrees.outDegree + (if first && ip == sender then 1 else 0)
           && after.stats[ip].degrees.inDegree == before.stats[ip].degrees.inDegree + (if first && ip == receiver then 1 else 0)
           && after.stats[ip].traffic == before.stats[ip].traffic
           && after.stats[ip].pktRate == before.stats[ip].pktRate
           && after.stats[ip].kbyteRate == before.stats[ip].kbyteRate))
  }

  ghost predicate ContactSetEffect(before: IpTables, after: IpTables, sender: string, receiver: string) {
    && (forall ip :: ip in after.contacted ==>
          LookupSet(after.contacted, ip) == LookupSet(before.contacted, ip) + (if ip == sender then {receiver} else {}))
    && before.contacted.Keys + {sender} <= after.contacted.Keys <= before.contacted.Keys + {sender, receiver}
  }

  lemma RecordContactEffect(stats: map<string, IpStat>, contacted: map<string, set<string>>,
                            sender: string, receiver: string)
    requires sender in stats && receiver in stats
    ensures ContactEffect(IpTables(stats, contacted), RecordContact(stats, contacted, sender, receiver), sender, receiver)
  {
    RecordContactStats(stats, contacted, sender, receiver);
    RecordContactSets(stats, contacted, sender, receiver);
  }

  lemma RecordContactStats(stats: map<string, IpStat>, contacted: map<string, set<string>>,
                           sender: string, receiver: string)
    requires sender in stats && receiver in stats
    ensures ContactStatsEffect(IpTables(stats, contacted), RecordContact(stats, contacted, sender, receiver), sender, receiver)
  {
    forall ip | ip in stats
      ensures var r := RecordContact(stats, contacted, sender, receiver);
        var first := receiver !in LookupSet(contacted, sender);
        && r.stats[ip].degrees.outDegree == stats[ip].degrees.outDegree + (if first && ip == sender then 1 else 0)
        && r.stats[ip].degrees.inDegree == stats[ip].degrees.inDegree + (if first && ip == receiver then 1 else 0)
        && r.stats[ip].traffic == stats[ip].traffic
        && r.stats[ip].pktRate == stats[ip].pktRate
        && r.stats[ip].kbyteRate == stats[ip].kbyteRate
    {
      RecordContactStatsAt(stats, contacted, sender, receiver, ip);
    }
  }

  lemma RecordContactStatsAt(stats: map<string, IpStat>, contacted: map<string, set<string>>,
                             sender: string, receiver: string, ip: string)
    requires sender in stats && receiver in stats && ip in stats
    ensures var r := RecordContact(stats, contacted, sender, receiver);
      var first := receiver !in LookupSet(contacted, sender);
      && r.stats[ip].degrees.outDegree == stats[ip].degrees.outDegree + (if first && ip == sender then 1 else 0)
      && r.stats[ip].degrees.inDegree == stats[ip].degrees.inDegree + (if first && ip == receiver then 1 else 0)
      && r.stats[ip].traffic == stats[ip].traffic
      && r.stats[ip].pktRate == stats[ip].pktRate
      && r.stats[ip].kbyteRate == stats[ip].kbyteRate
  {
    var c1 := contacted[sender := LookupSet(contacted, sender)];
    if receiver !in c1[sender] {
      var m5 := BumpOut(stats, sender);
      var m6 := BumpIn(m5, receiver);
      var c2 := c1[receiver := LookupSet(c1, receiver)];
      if sender !in c2[receiver] {
        var m7 := BumpOverall(m6, sender);
        var m8 := BumpOverall(m7, receiver);
        assert m8[ip].degrees.outDegree == m6[ip].degrees.outDegree;
        assert m8[ip].degrees.inDegree == m6[ip].degrees.inDegree;
      }
    }
  }

  lemma RecordContactSets(stats: map<string, IpStat>, contacted: map<string, set<string>>,
                          sender: string, receiver: string)
    requires sender in stats && receiver in stats
    ensures ContactSetEffect(IpTables(stats, contacted), RecordContact(stats, contacted, sender, receiver), sender, receiver)
  {
  }

  /** The overall-degree rule of one packet between two distinct addresses: both
      overall degrees grow exactly when neither had contacted the other before. */
  lemma RecordContactOverall(stats: map<string, IpStat>, contacted: map<string, set<string>>,
                             sender: string, receiver: string)
    requires sender in stats && receiver in stats && sender != receiver
    ensures var r := RecordContact(stats, contacted, sender, receiver);
      var both := receiver !in LookupSet(contacted, sender) && sender !in LookupSet(contacted, receiver);
      && r.stats[sender].degrees.overallDegree == stats[sender].degrees.overallDegree + (if both then 1 else 0)
      && r.stats[receiver].degrees.overallDegree == stats[receiver].degrees.overallDegree + (if both then 1 else 0)
  {
  }

  /** Adding `b` to the addresses `a` contacted makes `a` a contactor of `b` and
      changes nobody else's contactors. */
  lemma ContactorsAfterAdd(c: map<string, set<string>>, c': map<string, set<string>>, a: string, b: string, x: string)
    requires c.Keys + {a} <= c'.Keys
    requires forall y :: y in c' ==> LookupSet(c', y) == LookupSet(c, y) + (if y == a then {b} else {})
    ensures Contactors(c', x) == Contactors(c, x) + (if x == b then {a} else {})
  {
    forall y | y in Contactors(c', x)
      ensures y in Contactors(c, x) || (x == b && y == a)
    {
      assert x in LookupSet(c', y);
    }
    forall y | y in Contactors(c, x)
      ensures y in Contactors(c', x)
    {
      assert x in LookupSet(c, y);
      assert x in LookupSet(c', y);
    }
    if x == b {
      assert b in LookupSet(c', a);
    }
  }

  /** One packet adds at most one address to what `sender` contacted. */
  lemma ContactSetSize(before: IpTables, after: IpTables, sender: string, receiver: string, ip: string)
    requires ContactSetEffect(before, after, sender, receiver)
    ensures |LookupSet(after.contacted, ip)|
         == |LookupSet(before.contacted, ip)| + (if receiver !in LookupSet(before.contacted, sender) && ip == sender then 1 else 0)
  {
    var old_ := LookupSet(before.contacted, ip);
    var new_ := LookupSet(after.contacted, ip);
    assert new_ == old_ + (if ip == sender then {receiver} else {}) by {
      if ip !in after.contacted {
        assert ip !in before.contacted && ip != sender;
      }
    }
    SizeAfterAdd(old_, new_, receiver, ip == sender);
  }

  /** One packet adds at most one contactor, `sender`, to `receiver`. */
  lemma ContactorsSize(before: IpTables, after: IpTables, sender: string, receiver: string, ip: string)
    requires ContactSetEffect(before, after, sender, receiver)
    ensures |Contactors(after.contacted, ip)|
         == |Contactors(before.contacted, ip)| + (if receiver !in LookupSet(before.contacted, sender) && ip == receiver then 1 else 0)
  {
    var old_ := Contactors(before.contacted, ip);
    var new_ := Contactors(after.contacted, ip);
    assert new_ == old_ + (if ip == receiver then {sender} else {}) by {
      ContactorsAfterAdd(before.contacted, after.contacted, sender, receiver, ip);
    }
    assert ip == receiver ==> (sender in old_ <==> receiver in LookupSet(before.contacted, sender));
    SizeAfterAdd(old_, new_, sender, ip == receiver);
  }

  lemma SizeAfterAdd<T>(s: set<T>, s': set<T>, x: T, add: bool)
    requires s' == s + (if add then {x} else {})
    ensures |s'| == |s| + (if add && x !in s then 1 else 0)
  {
    if add && x in s {
      assert s' == s;
    }
  }

  lemma ContactKeepsConsistent(before: IpTables, after: IpTables, sender: string, receiver: string)
    requires ContactEffect(before, after, sender, receiver) && AllConsistent(before.stats)
    ensures AllConsistent(after.stats)
  {
    forall ip | ip in after.stats
      ensures Consistent(after.stats[ip])
    {
      assert Consistent(before.stats[ip]);
    }
  }

  lemma ContactKeepsKnown(before: IpTables, after: IpTables, sender: string, receiver: string)
    requires ContactSetEffect(before, after, sender, receiver) && after.stats.Keys == before.stats.Keys
    requires ContactsKnown(before)
    requires sender in before.stats && receiver in before.stats
    ensures ContactsKnown(after)
  {
    forall a | a in after.contacted
      ensures a in after.stats && after.contacted[a] <= after.stats.Keys
    {
      assert a in before.contacted || a == sender || a == receiver;
      assert after.contacted[a] == LookupSet(before.contacted, a) + (if a == sender then {receiver} else {});
      assert LookupSet(before.contacted, a) <= before.stats.Keys;
    }
  }

  lemma ContactOk(before: IpTables, after: IpTables, sender: string, receiver: string)
    requires ContactEffect(before, after, sender, receiver)
    requires sender in before.stats && receiver in before.stats
    requires TablesOk(before)
    ensures TablesOk(after)
  {
    ContactKeepsConsistent(before, after, sender, receiver);
    ContactKeepsKnown(before, after, sender, receiver);
    forall ip | ip in after.stats
      ensures after.stats[ip].degrees.outDegree == |LookupSet(after.contacted, ip)|
      ensures after.stats[ip].degrees.inDegree == |Contactors(after.contacted, ip)|
    {
      ContactSetSize(before, after, sender, receiver, ip);
      ContactorsSize(before, after, sender, receiver, ip);
    }
  }

  /** addIpStat_packetSent keeps the table invariant. */
  lemma PacketSentOk(t: IpTables, sender: string, receiver: string, bytesSent: nat, ts: int,
                     senderClass: string, receiverClass: string, extraTests: bool)
    requires TablesOk(t)
    ensures TablesOk(PacketSent(t, sender, receiver, bytesSent, ts, senderClass, receiverClass, extraTests))
  {
    var m4 := CountPacket(t.stats, sender, receiver, bytesSent, ts, senderClass, receiverClass);
    CountPacketConsistent(t.stats, sender, receiver, bytesSent, ts, senderClass, receiverClass);
    forall ip | ip in m4
      ensures m4[ip].degrees.outDegree == |LookupSet(t.contacted, ip)|
      ensures m4[ip].degrees.inDegree == |Contactors(t.contacted, ip)|
    {
      assert Labels(m4, ip) == Labels(t.stats, ip);
      if ip !in t.stats {
        assert ip !in t.contacted;
        assert Contactors(t.contacted, ip) == {};
      }
    }
    assert TablesOk(IpTables(m4, t.contacted));
    if extraTests {
      RecordContactEffect(m4, t.contacted, sender, receiver);
      ContactOk(IpTables(m4, t.contacted), RecordContact(m4, t.contacted, sender, receiver), sender, receiver);
    }
  }

  /** addIpStat_packetSent applied to a consistent table. */
  method ApplyPacketSent(t: IpTables, sender: string, receiver: string, bytesSent: nat, ts: int,
                         senderClass: string, receiverClass: string, extraTests: bool)
    returns (stats: map<string, IpStat>, contacted: map<string, set<string>>)
    requires TablesOk(t)
    ensures IpTables(stats, contacted) == PacketSent(t, sender, receiver, bytesSent, ts, senderClass, receiverClass, extraTests)
    ensures TablesOk(IpTables(stats, contacted)) && t.stats.Keys <= stats.Keys
  {
    PacketSentOk(t, sender, receiver, bytesSent, ts, senderClass, receiverClass, extraTests);
    var t' := PacketSent(t, sender, receiver, bytesSent, ts, senderClass, receiverClass, extraTests);
    stats, contacted := t'.stats, t'.contacted;
  }

  /** `d'` is `d` with the in-, out- and overall degree each grown by one exactly
      when the corresponding flag is set. */
  ghost predicate DegreeStep(d: Degrees, d': Degrees, moreIn: bool, moreOut: bool, moreOverall: bool) {
    && d'.inDegree == d.inDegree + (if moreIn then 1 else 0)
    && d'.outDegree == d.outDegree + (if moreOut then 1 else 0)
    && d'.overallDegree == d.overallDegree + (if moreOverall then 1 else 0)
  }

  /** The degree rules of addIpStat_packetSent between two distinct addresses
      (extra tests on): the sender's out-degree and the receiver's in-degree grow
      exactly on the first packet from `sender` to `receiver`, both overall
      degrees grow exactly when neither had contacted the other, and `receiver`
      joins the addresses `sender` contacted. */
  lemma PacketSentDegrees(t: IpTables, sender: string, receiver: string, bytesSent: nat, ts: int,
                          senderClass: string, receiverClass: string, t': IpTables)
    requires sender != receiver
    requires t' == PacketSent(t, sender, receiver, bytesSent, ts, senderClass, receiverClass, true)
    ensures sender in t'.stats && receiver in t'.stats
    ensures var first := receiver !in LookupSet(t.contacted, sender);
      var both := first && sender !in LookupSet(t.contacted, receiver);
      && DegreeStep(Lookup(t.stats, sender).degrees, t'.stats[sender].degrees, false, first, both)
      && DegreeStep(Lookup(t.stats, receiver).degrees, t'.stats[receiver].degrees, first, false, both)
    ensures LookupSet(t'.contacted, sender) == LookupSet(t.contacted, sender) + {receiver}
    ensures LookupSet(t'.contacted, receiver) == LookupSet(t.contacted, receiver)
  {
    var m4 := CountPacket(t.stats, sender, receiver, bytesSent, ts, senderClass, receiverClass);
    assert t' == RecordContact(m4, t.contacted, sender, receiver);
    CountPacketDegrees(t.stats, sender, receiver, bytesSent, ts, senderClass, receiverClass, m4);
    ContactDegrees(m4, t.contacted, sender, receiver, t');
    ContactSets(m4, t.contacted, sender, receiver, t');
  }

  /** The counter half of a packet leaves both endpoints' degrees as they were. */
  lemma CountPacketDegrees(stats: map<string, IpStat>, sender: string, receiver: string, bytesSent: nat, ts: int,
                           senderClass: string, receiverClass: string, m4: map<string, IpStat>)
    requires m4 == CountPacket(stats, sender, receiver, bytesSent, ts, senderClass, receiverClass)
    ensures sender in m4 && receiver in m4
    ensures m4[sender].degrees == Lookup(stats, sender).degrees
    ensures m4[receiver].degrees == Lookup(stats, receiver).degrees
  {
    assert Labels(m4, sender) == Labels(stats, sender);
    assert Labels(m4, receiver) == Labels(stats, receiver);
  }

  lemma ContactDegrees(m: map<string, IpStat>, c: map<string, set<string>>, sender: string, receiver: string,
                       t': IpTables)
    requires sender != receiver && sender in m && receiver in m
    requires t' == RecordContact(m, c, sender, receiver)
    ensures var first := receiver !in LookupSet(c, sender);
      var both := first && sender !in LookupSet(c, receiver);
      && DegreeStep(m[sender].degrees, t'.stats[sender].degrees, false, first, both)
      && DegreeStep(m[receiver].degrees, t'.stats[receiver].degrees, first, false, both)
  {
    RecordContactStatsAt(m, c, sender, receiver, sender);
    RecordContactStatsAt(m, c, sender, receiver, receiver);
    RecordContactOverall(m, c, sender, receiver);
  }

  lemma ContactSets(m: map<string, IpStat>, c: map<string, set<string>>, sender: string, receiver: string,
                    t': IpTables)
    requires sender != receiver && sender in m && receiver in m
    requires t' == RecordContact(m, c, sender, receiver)
    ensures LookupSet(t'.contacted, sender) == LookupSet(c, sender) + {receiver}
    ensures LookupSet(t'.contacted, receiver) == LookupSet(c, receiver)
  {
    RecordContactSets(m, c, sender, receiver);
    if receiver !in t'.contacted {
      assert receiver !in c;
    }
  }

  /** Without extra tests no degree and no contact set changes. */
  lemma PacketSentPlain(t: IpTables, sender: string, receiver: string, bytesSent: nat, ts: int,
                        senderClass: string, receiverClass: string)
    ensures var t' := PacketSent(t, sender, receiver, bytesSent, ts, senderClass, receiverClass, false);
      && t'.contacted == t.contacted
      && forall ip :: ip in t'.stats ==> t'.stats[ip].degrees == Lookup(t.stats, ip).degrees
  {
    var t' := PacketSent(t, sender, receiver, bytesSent, ts, senderClass, receiverClass, false);
    assert forall ip :: ip in t'.stats ==> Labels(t'.stats, ip) == Labels(t.stats, ip);
  }

  /** A packet from A to B followed by one from B to A, on two addresses never
      seen before, leaves both with in-, out- and overall degree 1. */
  lemma Exchange(t: IpTables, a: string, b: string, bytes1: nat, bytes2: nat, t1: int, t2: int, classA: string, classB: string,
                 t1': IpTables, t2': IpTables)
    requires a != b
    requires a !in t.stats && b !in t.stats && a !in t.contacted && b !in t.contacted
    requires t1' == PacketSent(t, a, b, bytes1, t1, classA, classB, true)
    requires t2' == PacketSent(t1', b, a, bytes2, t2, classB, classA, true)
    ensures t2'.stats[a].degrees == Degrees(1, 1, 1)
    ensures t2'.stats[b].degrees == Degrees(1, 1, 1)
  {
    FirstPacket(t, a, b, bytes1, t1, classA, classB, t1');
    ReplyPacket(t1', b, a, bytes2, t2, classB, classA, t2');
  }

  /** The first packet between two unseen addresses. */
  lemma FirstPacket(t: IpTables, a: string, b: string, bytes: nat, ts: int, classA: string, classB: string,
                    t': IpTables)
    requires a != b
    requires a !in t.stats && b !in t.stats && a !in t.contacted && b !in t.contacted
    requires t' == PacketSent(t, a, b, bytes, ts, classA, classB, true)
    ensures DegreeStep(Degrees(0, 0, 0), Lookup(t'.stats, a).degrees, false, true, true)
    ensures DegreeStep(Degrees(0, 0, 0), Lookup(t'.stats, b).degrees, true, false, true)
    ensures LookupSet(t'.contacted, b) == {} && LookupSet(t'.contacted, a) == {b}
  {
    assert LookupSet(t.contacted, a) == {} && LookupSet(t.contacted, b) == {};
    PacketSentDegrees(t, a, b, bytes, ts, classA, classB, t');
  }

  /** The answer to that first packet. */
  lemma ReplyPacket(t: IpTables, a: string, b: string, bytes: nat, ts: int, classA: string, classB: string,
                    t': IpTables)
    requires a != b
    requires DegreeStep(Degrees(0, 0, 0), Lookup(t.stats, b).degrees, false, true, true)
    requires DegreeStep(Degrees(0, 0, 0), Lookup(t.stats, a).degrees, true, false, true)
    requires LookupSet(t.contacted, a) == {} && LookupSet(t.contacted, b) == {a}
    requires t' == PacketSent(t, a, b, bytes, ts, classA, classB, true)
    ensures t'.stats[a].degrees == Degrees(1, 1, 1)
    ensures t'.stats[b].degrees == Degrees(1, 1, 1)
  {
    PacketSentDegrees(t, a, b, bytes, ts, classA, classB, t');
  }

  /** Packets counted towards the interval that started at `start`: the sent
      timestamps at or after `start`, walked in step with the size list. */
  function ActiveCount(ts: seq<int>, start: int, n: nat): (c: nat)
    requires n <= |ts|
    ensures c <= n
  {
    if n == 0 then 0 else ActiveCount(ts, start, n - 1) + (if ts[n - 1] >= start then 1 else 0)
  }

  /** Sizes of the packets counted by ActiveCount; the size list holds received
      sizes too, so position i is not necessarily the i-th sent packet's size. */
  function ActiveKbytes(ts: seq<int>, kb: seq<real>, start: int, n: nat): real
    requires n <= |ts| && n <= |kb|
  {
    if n == 0 then 0.0 else ActiveKbytes(ts, kb, start, n - 1) + (if ts[n - 1] >= start then kb[n - 1] else 0.0)
  }

  lemma {:induction false} ActiveKbytesNonNegative(ts: seq<int>, kb: seq<real>, start: int, n: nat)
    requires n <= |ts| && n <= |kb|
    requires forall i :: 0 <= i < |kb| ==> kb[i] >= 0.0
    ensures ActiveKbytes(ts, kb, start, n) >= 0.0
  {
    if n > 0 {
      ActiveKbytesNonNegative(ts, kb, start, n - 1);
    }
  }

  /** The packet rate of an interval: packets times 10^6 over the interval length in µs. */
  function PktRate(count: nat, interval: int): (r: real)
    requires interval > 0
    ensures r >= 0.0
  {
    count as real * 1000000.0 / interval as real
  }

  /** The kbyte rate of an interval, with the source's factor 100000. */
  function KbyteRate(kbytes: real, interval: int): (r: real)
    requires interval > 0
    ensures kbytes >= 0.0 ==> r >= 0.0
  {
    kbytes * 100000.0 / interval as real
  }

  /** Appends a rate and updates the running extremes: a zero extreme is taken as "unset". */
  function RecordRate(t: RateTrack, rate: real): RateTrack {
    RateTrack(t.rates + [rate],
              if rate > t.max || t.max == 0.0 then rate else t.max,
              if rate < t.min || t.min == 0.0 then rate else t.min)
  }

  /** The effect of calculateIPIntervalPacketRate on one entry. */
  function WithIntervalRate(e: IpStat, interval: int, start: int): IpStat
    requires interval > 0
  {
    var t := e.traffic;
    var n := Min(|t.pktsSentTimestamp|, |t.pktsKbytes|);
    var pktRate := PktRate(ActiveCount(t.pktsSentTimestamp, start, n), interval);
    var kbyteRate := KbyteRate(ActiveKbytes(t.pktsSentTimestamp, t.pktsKbytes, start, n), interval);
    e.(pktRate := RecordRate(e.pktRate, pktRate), kbyteRate := RecordRate(e.kbyteRate, kbyteRate))
  }

  /** Recording a non-negative rate keeps the running extremes right, and leaves
      the new rate between them. */
  lemma RecordRateOk(t: RateTrack, rate: real)
    requires RunningRates(t) && rate >= 0.0
    ensures RunningRates(RecordRate(t, rate))
    ensures RecordRate(t, rate).min <= rate <= RecordRate(t, rate).max
  {
    var t' := RecordRate(t, rate);
    assert t'.rates[..|t.rates|] == t.rates;
    assert MaxOrZero(t'.rates) == if rate > t.max then rate else t.max;
    if forall i :: 0 <= i < |t'.rates| ==> t'.rates[i] > 0.0 {
      assert forall i :: 0 <= i < |t.rates| ==> t.rates[i] > 0.0 by {
        forall i | 0 <= i < |t.rates| ensures t.rates[i] > 0.0 { assert t'.rates[i] == t.rates[i]; }
      }
      if t.rates != [] {
        MinOrZeroInList(t.rates);
      }
    }
  }

  lemma {:induction false} MinOrZeroInList(s: seq<real>)
    requires s != []
    ensures MinOrZero(s) in s
  {
    if |s| > 1 {
      MinOrZeroInList(s[..|s| - 1]);
    }
  }

  /** The interval-rate update keeps an entry consistent and changes nothing but
      its rate lists. */
  lemma WithIntervalRateConsistent(e: IpStat, interval: int, start: int)
    requires Consistent(e) && interval > 0
    ensures Consistent(WithIntervalRate(e, interval, start))
    ensures WithIntervalRate(e, interval, start).(pktRate := e.pktRate, kbyteRate := e.kbyteRate) == e
  {
    var t := e.traffic;
    var n := Min(|t.pktsSentTimestamp|, |t.pktsKbytes|);
    ActiveKbytesNonNegative(t.pktsSentTimestamp, t.pktsKbytes, start, n);
    RecordRateOk(e.pktRate, PktRate(ActiveCount(t.pktsSentTimestamp, start, n), interval));
    RecordRateOk(e.kbyteRate, KbyteRate(ActiveKbytes(t.pktsSentTimestamp, t.pktsKbytes, start, n), interval));
  }

  /** The inner loop of calculateIPIntervalPacketRate: walks the sent timestamps
      and the size list side by side, as far as the shorter one reaches, counting
      and summing the entries at or after the interval start. */
  method ActiveTotals(ts: seq<int>, kb: seq<real>, start: int) returns (count: nat, kbytes: real)
    ensures count == ActiveCount(ts, start, Min(|ts|, |kb|))
    ensures kbytes == ActiveKbytes(ts, kb, start, Min(|ts|, |kb|))
  {
    count, kbytes := 0, 0.0;
    var i := 0;
    while i < |ts| && i < |kb|
      invariant 0 <= i <= Min(|ts|, |kb|)
      invariant count == ActiveCount(ts, start, i)
      invariant kbytes == ActiveKbytes(ts, kb, start, i)
    {
      if ts[i] >= start {
        count := count + 1;
        kbytes := kbytes + kb[i];
      }
      i := i + 1;
    }
  }

  /** calculateIPIntervalPacketRate over the whole table. */
  function WithIntervalRates(stats: map<string, IpStat>, interval: int, start: int): (r: map<string, IpStat>)
    requires interval > 0
    ensures r.Keys == stats.Keys
  {
    map ip | ip in stats :: WithIntervalRate(stats[ip], interval, start)
  }

  /** The outer loop of calculateIPIntervalPacketRate: every entry's rates are
      updated in place, one address at a time. */
  method IntervalRatesOf(stats: map<string, IpStat>, interval: int, start: int) returns (r: map<string, IpStat>)
    requires interval > 0
    ensures r == WithIntervalRates(stats, interval, start)
  {
    ghost var done := WithIntervalRates(stats, interval, start);
    r := stats;
    var rest := stats.Keys;
    while rest != {}
      invariant rest <= stats.Keys && r.Keys == stats.Keys
      invariant forall ip :: ip in stats ==> r[ip] == if ip in rest then stats[ip] else done[ip]
      decreases |rest|
    {
      var ip :| ip in rest;
      var e := stats[ip];
      var count, kbytes := ActiveTotals(e.traffic.pktsSentTimestamp, e.traffic.pktsKbytes, start);
      r := r[ip := e.(pktRate := RecordRate(e.pktRate, PktRate(count, interval)),
                      kbyteRate := RecordRate(e.kbyteRate, KbyteRate(kbytes, interval)))];
      rest := rest - {ip};
    }
    assert r == done;
  }

  /** Taking an interval's rates keeps the address tables consistent: it adds
      one rate to each address's lists and touches no counter or degree. */
  lemma WithIntervalRatesOk(t: IpTables, interval: int, start: int)
    requires TablesOk(t) && interval > 0
    ensures var r := WithIntervalRates(t.stats, interval, start);
      && TablesOk(IpTables(r, t.contacted))
      && (forall ip :: ip in r ==>
            (r[ip].traffic == t.stats[ip].traffic
             && |r[ip].pktRate.rates| == |t.stats[ip].pktRate.rates| + 1
             && |r[ip].kbyteRate.rates| == |t.stats[ip].kbyteRate.rates| + 1))
  {
    var r := WithIntervalRates(t.stats, interval, start);
    forall ip | ip in r
      ensures Consistent(r[ip]) && r[ip].degrees == t.stats[ip].degrees
    {
      WithIntervalRateConsistent(t.stats[ip], interval, start);
    }
    assert OutDegreesOk(IpTables(r, t.contacted)) by {
      forall ip | ip in r ensures Lookup(r, ip).degrees == Lookup(t.stats, ip).degrees { }
    }
    assert InDegreesOk(IpTables(r, t.contacted)) by {
      forall ip | ip in r ensures Lookup(r, ip).degrees == Lookup(t.stats, ip).degrees { }
    }
  }

  /** A default-inserting read (`ip_statistics[ip]` on an unknown address) adds a
      zero entry and keeps the address tables consistent. */
  lemma DefaultInsertOk(t: IpTables, ip: string)
    requires TablesOk(t)
    ensures TablesOk(IpTables(t.stats[ip := Lookup(t.stats, ip)], t.contacted))
    ensures t.stats[ip := Lookup(t.stats, ip)].Keys == t.stats.Keys + {ip}
    ensures ip !in t.stats ==> t.stats[ip := Lookup(t.stats, ip)][ip] == DefaultIpStat
  {
    if ip in t.stats {
      KnownInsertOk(t, ip);
    } else {
      UnknownInsertOk(t, ip);
    }
  }

  lemma KnownInsertOk(t: IpTables, ip: string)
    requires TablesOk(t) && ip in t.stats
    ensures TablesOk(IpTables(t.stats[ip := Lookup(t.stats, ip)], t.contacted))
  {
    assert t.stats[ip := Lookup(t.stats, ip)] == t.stats;
  }

  lemma UnknownInsertOk(t: IpTables, ip: string)
    requires TablesOk(t) && ip !in t.stats
    ensures TablesOk(IpTables(t.stats[ip := Lookup(t.stats, ip)], t.contacted))
  {
    assert t.stats[ip := Lookup(t.stats, ip)] == t.stats[ip := DefaultIpStat];
    InsertDefaultOk(t, ip);
  }

  lemma InsertDefaultOk(t: IpTables, ip: string)
    requires TablesOk(t) && ip !in t.stats
    ensures TablesOk(IpTables(t.stats[ip := DefaultIpStat], t.contacted))
  {
    var t' := IpTables(t.stats[ip := DefaultIpStat], t.contacted);
    assert AllConsistent(t'.stats) by {
      forall j | j in t'.stats
        ensures Consistent(t'.stats[j])
      {
        if j != ip {
          assert Consistent(t.stats[j]);
        }
      }
    }
    assert ContactsKnown(t') by {
      forall a | a in t'.contacted
        ensures a in t'.stats && t'.contacted[a] <= t'.stats.Keys
      {
        assert t.contacted[a] <= t.stats.Keys;
      }
    }
    assert ip !in t.contacted;
    assert Contactors(t.contacted, ip) == {};
    assert OutDegreesOk(t') && InDegreesOk(t') by {
      forall j | j in t'.stats
        ensures t'.stats[j].degrees.outDegree == |LookupSet(t.contacted, j)|
        ensures t'.stats[j].degrees.inDegree == |Contactors(t.contacted, j)|
      {
        if j != ip {
          assert t'.stats[j] == t.stats[j];
        }
      }
    }
  }

  // ---------------------------------------------------------------------------
  // The per-address counts the IP entropies are taken over

  /** `pkts_sent` of every entry. */
  function SentCounts(m: map<string, IpStat>): (r: map<string, int>)
    ensures r.Keys == m.Keys
    ensures forall ip :: ip in m ==> r[ip] == m[ip].traffic.pktsSent
  {
    map ip | ip in m :: m[ip].traffic.pktsSent
  }

  /** `pkts_received` of every entry. */
  function ReceivedCounts(m: map<string, IpStat>): (r: map<string, int>)
    ensures r.Keys == m.Keys
    ensures forall ip :: ip in m ==> r[ip] == m[ip].traffic.pktsReceived
  {
    map ip | ip in m :: m[ip].traffic.pktsReceived
  }

  /** Taking an interval's rates changes no packet count, so the IP entropies
      are the same before and after it. */
  lemma RatesKeepCounts(stats: map<string, IpStat>, interval: int, start: int)
    requires interval > 0
    ensures SentCounts(WithIntervalRates(stats, interval, start)) == SentCounts(stats)
    ensures ReceivedCounts(WithIntervalRates(stats, interval, start)) == ReceivedCounts(stats)
  {
    var r := WithIntervalRates(stats, interval, start);
    forall ip | ip in stats
      ensures r[ip].traffic == stats[ip].traffic
    {
      assert r[ip] == WithIntervalRate(stats[ip], interval, start);
    }
  }
}
