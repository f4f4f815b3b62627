/** The computations of the database writer: the file name rule of its
    constructor, the delay statistics and round-trip scan of the conversation
    rows, the delay, rate and emission rules of the extended conversation rows,
    the port-service fallback, the reading of the nmap services file, and the
    choice of interval tables. The SQL statements themselves are not modelled. */
module Database {
  import opened Common
  import opened Conversations

  // ---------------------------------------------------------------------------
  // Database file name

  /** `t` occurs in `s` starting at position `i`. */
  ghost predicate OccursAt(t: string, s: string, i: int) {
    0 <= i && i + |t| <= |s| && s[i..i + |t|] == t
  }

  /** `s.find(t) != npos`: `t` is found somewhere in `s`, looking from the front. */
  function Contains(s: string, t: string): bool
    decreases |s|
  {
    if |s| < |t| then false else s[..|t|] == t || Contains(s[1..], t)
  }

  /** The front-to-back search finds exactly the strings that occur somewhere. */
  lemma {:induction false} ContainsMeaning(s: string, t: string)
    ensures Contains(s, t) <==> exists i :: OccursAt(t, s, i)
    decreases |s|
  {
    if |s| >= |t| {
      if s[..|t|] == t {
        assert OccursAt(t, s, 0);
      } else {
        ContainsMeaning(s[1..], t);
        if Contains(s[1..], t) {
          var i :| OccursAt(t, s[1..], i);
          SliceOfTail(s, i + 1, |t|);
          assert OccursAt(t, s, i + 1);
        }
        if exists i :: OccursAt(t, s, i) {
          var i :| OccursAt(t, s, i);
          assert i != 0;
          SliceOfTail(s, i, |t|);
          assert OccursAt(t, s[1..], i - 1);
        }
      }
    }
  }

  /** A slice of the tail is the slice of the whole one position further on. */
  lemma SliceOfTail(s: string, i: int, n: nat)
    requires 1 <= i && i + n <= |s|
    ensures s[1..][i - 1..i - 1 + n] == s[i..i + n]
  {
    var a, b := s[1..][i - 1..i - 1 + n], s[i..i + n];
    forall j | 0 <= j < n
      ensures a[j] == b[j]
    {
    }
  }

  const SqliteExtension := ".sqlite3"

  /** The constructor's file name rule: ".sqlite3" is appended unless the path
      already contains it somewhere. */
  function DatabasePath(path: string): string {
    if Contains(path, SqliteExtension) then path else path + SqliteExtension
  }

  /** The resulting name always contains ".sqlite3", starts with the given path,
      and is the path itself when that already contained ".sqlite3". */
  lemma DatabasePathMeaning(path: string)
    ensures Contains(DatabasePath(path), SqliteExtension)
    ensures DatabasePath(path)[..|path|] == path
    ensures (exists i :: OccursAt(SqliteExtension, path, i)) <==> DatabasePath(path) == path
  {
    var t := SqliteExtension;
    ContainsMeaning(path, t);
    ContainsMeaning(path + t, t);
    if !Contains(path, t) {
      assert (path + t)[|path|..|path| + |t|] == t;
      assert OccursAt(t, path + t, |path|);
    }
  }

  /** Applying the rule twice names the same file as applying it once. */
  lemma DatabasePathIdempotent(path: string)
    ensures DatabasePath(DatabasePath(path)) == DatabasePath(path)
  {
    DatabasePathMeaning(path);
  }

  // ---------------------------------------------------------------------------
  // 32-bit integers

  const TWO_31: int := 0x8000_0000
  const TWO_32: int := 0x1_0000_0000

  /** Conversion of a wider integer to a 32-bit `int`: the value modulo 2^32 in
      the range -2^31 .. 2^31 - 1. */
  function ToInt32(x: int): (r: int)
    ensures -TWO_31 <= r < TWO_31
    ensures -TWO_31 <= x < TWO_31 ==> r == x
  {
    var m := x % TWO_32;
    if m >= TWO_31 then m - TWO_32 else m
  }

  // ---------------------------------------------------------------------------
  // calculate_latency

  /** The loop variables of calculate_latency after some of the samples. */
  datatype LatencyRun = LatencyRun(sum: int, maxLatency: int, minLatency: int)

  /** One iteration: the sample is cut to an `int`, added to the `int` sum, and
      taken as the new maximum when larger, and as the new minimum when smaller
      or when the minimum is still 0. */
  function LatencyStep(r: LatencyRun, sample: int): LatencyRun {
    var interTime := ToInt32(sample);
    LatencyRun(ToInt32(r.sum + sample),
               if r.maxLatency < interTime then interTime else r.maxLatency,
               if r.minLatency > interTime || r.minLatency == 0 then interTime else r.minLatency)
  }

  /** The loop variables after the first `n` samples. */
  function LatencyTo(samples: seq<int>, n: nat): LatencyRun
    requires n <= |samples|
  {
    if n == 0 then LatencyRun(0, 0, 0) else LatencyStep(LatencyTo(samples, n - 1), samples[n - 1])
  }

  /** What calculate_latency hands back: maximum, minimum and mean. */
  datatype Latency = Latency(maxLatency: int, minLatency: int, avg: int)

  function LatencyOf(samples: seq<int>): Latency {
    var r := LatencyTo(samples, |samples|);
    Latency(r.maxLatency, r.minLatency, if |samples| > 0 then ChronoDivBySize(r.sum, |samples|) else 0)
  }

  /** calculate_latency over the inter-arrival samples of one conversation. */
  method CalculateLatency(samples: seq<int>) returns (maxLatency: int, minLatency: int, avg: int)
    ensures Latency(maxLatency, minLatency, avg) == LatencyOf(samples)
  {
    var sumLatency := 0;
    minLatency, maxLatency := 0, 0;
    var i := 0;
    while i < |samples|
      invariant 0 <= i <= |samples|
      invariant LatencyRun(sumLatency, maxLatency, minLatency) == LatencyTo(samples, i)
    {
      var interTime := ToInt32(samples[i]);
      sumLatency := ToInt32(sumLatency + samples[i]);
      if maxLatency < interTime {
        maxLatency := interTime;
      }
      if minLatency > interTime || minLatency == 0 {
        minLatency := interTime;
      }
      i := i + 1;
    }
    if |samples| > 0 {
      avg := ChronoDivBySize(sumLatency, |samples|);
    } else {
      avg := 0;
    }
  }

  /** Every sample is non-negative and fits an `int`, and so does their sum. */
  ghost predicate SmallSamples(samples: seq<int>) {
    && (forall i :: 0 <= i < |samples| ==> 0 <= samples[i] < TWO_31)
    && Sum(samples) < TWO_31
  }

  /** The loop invariant behind LatencyMeaning: for small non-negative samples
      the sum is exact, the maximum is the largest sample or 0, and the minimum
      is a sample or 0, and the smallest sample when none is 0. */
  lemma {:induction false} LatencyToMeaning(samples: seq<int>, n: nat)
    requires n <= |samples|
    requires forall i :: 0 <= i < |samples| ==> 0 <= samples[i] < TWO_31
    requires SumTo(samples, n) < TWO_31
    ensures var r := LatencyTo(samples, n);
      && r.sum == SumTo(samples, n) && r.sum >= 0
      && r.maxLatency >= 0 && (forall i :: 0 <= i < n ==> samples[i] <= r.maxLatency)
      && (r.maxLatency == 0 || exists i :: 0 <= i < n && samples[i] == r.maxLatency)
      && (r.minLatency == 0 || exists i :: 0 <= i < n && samples[i] == r.minLatency)
      && ((forall i :: 0 <= i < n ==> samples[i] > 0) ==> forall i :: 0 <= i < n ==> r.minLatency <= samples[i])
      && (n > 0 && samples[n - 1] > 0 ==> r.minLatency > 0)
  {
    if n > 0 {
      assert SumTo(samples, n) == SumTo(samples, n - 1) + samples[n - 1];
      LatencyToMeaning(samples, n - 1);
    }
  }

  /** What calculate_latency computes for small non-negative samples: without
      samples everything is 0; otherwise the maximum is the largest sample, the
      minimum is one of the samples (the smallest when none is 0), and the mean
      is the truncated mean of the samples. */
  lemma LatencyMeaning(samples: seq<int>)
    requires SmallSamples(samples)
    ensures samples == [] ==> LatencyOf(samples) == Latency(0, 0, 0)
    ensures samples != [] ==> LatencyOf(samples).avg == Sum(samples) / |samples|
    ensures forall i :: 0 <= i < |samples| ==> samples[i] <= LatencyOf(samples).maxLatency
    ensures samples != [] ==> exists i :: 0 <= i < |samples| && samples[i] == LatencyOf(samples).maxLatency
    ensures LatencyOf(samples).minLatency == 0 || exists i :: 0 <= i < |samples| && samples[i] == LatencyOf(samples).minLatency
    ensures (forall i :: 0 <= i < |samples| ==> samples[i] > 0) ==>
      && (samples != [] ==> exists i :: 0 <= i < |samples| && samples[i] == LatencyOf(samples).minLatency)
      && forall i :: 0 <= i < |samples| ==> LatencyOf(samples).minLatency <= samples[i]
  {
    LatencyToMeaning(samples, |samples|);
    var r := LatencyTo(samples, |samples|);
    if samples != [] {
      assert r.sum == Sum(samples);
      if r.maxLatency == 0 {
        assert samples[0] == r.maxLatency;
      }
    }
  }

  /** The minimum is reset by the sample after a 0: for the samples 5, 0, 7
      calculate_latency reports the minimum 7. */
  lemma LatencyMinimumAfterZero()
    ensures LatencyOf([5, 0, 7]) == Latency(7, 7, 4)
  {
    assert LatencyTo([5, 0, 7], 1) == LatencyRun(5, 5, 5);
    assert LatencyTo([5, 0, 7], 2) == LatencyRun(5, 5, 0);
  }

  // ---------------------------------------------------------------------------
  // The round-trip scan of writeStatisticsConv

  /** The flag values the scan compares against (libtins TCP::SYN and TCP::ACK);
      the flags are compared for equality, so a SYN+ACK packet is neither. */
  const SYN := 2
  const ACK := 16

  /** The loop variables of the scan: `roundTripTime` holds the timestamp of the
      pending SYN while `pending` is set, and 0 (or its initial 0) otherwise. */
  datatype RttScan = RttScan(roundTripTime: int, pending: bool, samples: seq<int>)

  /** One packet: a SYN with nothing pending is remembered; an ACK with a SYN
      pending yields a sample, the time since the SYN; anything else is skipped. */
  function RttStep(r: RttScan, timestamp: int, flags: int): RttScan {
    if flags == SYN && !r.pending then RttScan(timestamp, true, r.samples)
    else if flags == ACK && r.pending then RttScan(0, false, r.samples + [timestamp - r.roundTripTime])
    else r
  }

  /** The scan after the first `n` packets. */
  function RttScanTo(timestamps: seq<int>, flags: seq<int>, n: nat): RttScan
    requires n <= |flags| <= |timestamps|
  {
    if n == 0 then RttScan(0, false, []) else RttStep(RttScanTo(timestamps, flags, n - 1), timestamps[n - 1], flags[n - 1])
  }

  /** The scan loop. Its condition is a comma expression, so it runs once per
      flag entry and reads the timestamp at the same position. */
  method ScanRoundTrips(timestamps: seq<int>, flags: seq<int>) returns (r: RttScan)
    requires |flags| <= |timestamps|
    ensures r == RttScanTo(timestamps, flags, |flags|)
  {
    var roundTripTime, flag, roundTripTimes := 0, false, [];
    var i := 0;
    while i < |flags|
      invariant 0 <= i <= |flags|
      invariant RttScan(roundTripTime, flag, roundTripTimes) == RttScanTo(timestamps, flags, i)
    {
      if flags[i] == SYN && !flag {
        roundTripTime := timestamps[i];
        flag := true;
      } else if flags[i] == ACK && flag {
        roundTripTime := timestamps[i] - roundTripTime;
        flag := false;
        roundTripTimes := roundTripTimes + [roundTripTime];
        roundTripTime := 0;
      }
      i := i + 1;
    }
    r := RttScan(roundTripTime, flag, roundTripTimes);
  }

  /** SYN at position `i` answered by ACK at position `j`. */
  ghost predicate Answers(timestamps: seq<int>, flags: seq<int>, i: int, j: int, sample: int)
    requires |flags| <= |timestamps|
  {
    0 <= i < j < |flags| && flags[i] == SYN && flags[j] == ACK && sample == timestamps[j] - timestamps[i]
  }

  /** `sample` is the time from a SYN to a later ACK among the first `n` packets. */
  ghost predicate AnsweredWithin(timestamps: seq<int>, flags: seq<int>, n: nat, sample: int)
    requires |flags| <= |timestamps|
  {
    exists i, j :: j < n && Answers(timestamps, flags, i, j, sample)
  }

  /** What the scan collects: every sample is the time from a SYN to a later
      ACK; with nothing pending the held value is 0, and a pending SYN's
      timestamp is held otherwise. */
  lemma {:induction false} RttScanMeaning(timestamps: seq<int>, flags: seq<int>, n: nat)
    requires n <= |flags| <= |timestamps|
    ensures var r := RttScanTo(timestamps, flags, n);
      && (forall k :: 0 <= k < |r.samples| ==> AnsweredWithin(timestamps, flags, n, r.samples[k]))
      && (!r.pending ==> r.roundTripTime == 0)
      && (r.pending ==> exists i :: 0 <= i < n && flags[i] == SYN && r.roundTripTime == timestamps[i])
  {
    if n > 0 {
      RttScanMeaning(timestamps, flags, n - 1);
      var p := RttScanTo(timestamps, flags, n - 1);
      var r := RttScanTo(timestamps, flags, n);
      assert |p.samples| <= |r.samples|;
      forall k | 0 <= k < |r.samples|
        ensures AnsweredWithin(timestamps, flags, n, r.samples[k])
      {
        if k < |p.samples| {
          assert r.samples[k] == p.samples[k];
          assert AnsweredWithin(timestamps, flags, n - 1, p.samples[k]);
          var i, j :| j < n - 1 && Answers(timestamps, flags, i, j, p.samples[k]);
          assert j < n && Answers(timestamps, flags, i, j, r.samples[k]);
        } else {
          var i :| 0 <= i < n - 1 && flags[i] == SYN && p.roundTripTime == timestamps[i];
          assert Answers(timestamps, flags, i, n - 1, r.samples[k]);
        }
      }
    }
  }

  /** The round-trip time writeStatisticsConv stores, as written: the samples are
      added onto the scan variable, which still holds a pending SYN's timestamp
      when the last SYN went unanswered; -1 without any sample. */
  function RoundTripTimeAsWritten(r: RttScan): int {
    if |r.samples| != 0 then ToInt32(ChronoDivBySize(r.roundTripTime + Sum(r.samples), |r.samples|)) else -1
  }

  /** The round-trip time as evidently intended: the truncated mean of the
      samples only, and -1 without any sample. */
  function RoundTripAverage(r: RttScan): int {
    if |r.samples| != 0 then ToInt32(ChronoDivBySize(Sum(r.samples), |r.samples|)) else -1
  }

  /** The intended average is the mean of the samples for small non-negative
      samples, and -1 exactly when there is none; the written one agrees with it
      whenever no SYN is left pending. */
  lemma RoundTripAverageMeaning(r: RttScan)
    requires !r.pending ==> r.roundTripTime == 0
    ensures RoundTripAverage(r) == -1 <== r.samples == []
    ensures SmallSamples(r.samples) && r.samples != [] ==> RoundTripAverage(r) == Sum(r.samples) / |r.samples|
    ensures !r.pending ==> RoundTripTimeAsWritten(r) == RoundTripAverage(r)
  {
    if SmallSamples(r.samples) && r.samples != [] {
      SumNonNegative(r.samples, |r.samples|);
      DivBelow(Sum(r.samples), |r.samples|);
    }
  }

  lemma {:induction false} SumNonNegative(s: seq<int>, n: nat)
    requires n <= |s| && forall i :: 0 <= i < |s| ==> s[i] >= 0
    ensures SumTo(s, n) >= 0
  {
    if n > 0 {
      SumNonNegative(s, n - 1);
    }
  }

  /** Two answered SYNs, 100 and 50 microseconds: the round-trip time is 75. */
  lemma RoundTripTwoAnswered()
    ensures var r := RttScanTo([0, 100, 500, 550], [SYN, ACK, SYN, ACK], 4);
      r.samples == [100, 50] && RoundTripTimeAsWritten(r) == 75 && RoundTripAverage(r) == 75
  {
    var ts, fs := [0, 100, 500, 550], [SYN, ACK, SYN, ACK];
    assert RttScanTo(ts, fs, 1) == RttScan(0, true, []);
    assert [] + [100 - 0] == [100];
    assert RttScanTo(ts, fs, 2) == RttScan(0, false, [100]);
    assert RttScanTo(ts, fs, 3) == RttScan(500, true, [100]);
    assert [100] + [550 - 500] == [100, 50];
    assert RttScanTo(ts, fs, 4) == RttScan(0, false, [100, 50]);
  }

  /** A trailing unanswered SYN is counted into the average: one sample of 100
      microseconds followed by a SYN at 500 gives 600 as written, 100 intended. */
  lemma RoundTripPendingSyn()
    ensures var r := RttScanTo([0, 100, 500], [SYN, ACK, SYN], 3);
      r.samples == [100] && RoundTripTimeAsWritten(r) == 600 && RoundTripAverage(r) == 100
  {
    var ts, fs := [0, 100, 500], [SYN, ACK, SYN];
    assert RttScanTo(ts, fs, 1) == RttScan(0, true, []);
    assert [] + [100 - 0] == [100];
    assert RttScanTo(ts, fs, 2) == RttScan(0, false, [100]);
    assert RttScanTo(ts, fs, 3) == RttScan(500, true, [100]);
  }

  // ---------------------------------------------------------------------------
  // Rows of conv_statistics

  /** The values of one conv_statistics row. */
  datatype ConvRow = ConvRow(pktsCount: int, avgPktRate: FloatQuotient, avgDelay: int, minDelay: int, maxDelay: int,
                             roundTripTime: int)

  /** The row of a conversation: none for a conversation of at most one packet;
      otherwise the delay statistics of its inter-arrival samples, its packets
      per second from first to last packet, and its round-trip time, taken as
      the mean of the round-trip samples. */
  function ConvRowOf(e: ConvEntry): Option<ConvRow>
    requires |e.tcpTypes| <= |e.pktsTimestamp|
    requires e.pktsCount > 1 ==> e.pktsTimestamp != []
  {
    if e.pktsCount <= 1 then None
    else
      var l := LatencyOf(e.interarrivalTime);
      var ts := e.pktsTimestamp;
      Some(ConvRow(e.pktsCount, Divide(e.pktsCount as real * 1000000.0, (ts[|ts| - 1] - ts[0]) as real),
                   ToInt32(l.avg), l.minLatency, l.maxLatency,
                   RoundTripAverage(RttScanTo(ts, e.tcpTypes, |e.tcpTypes|))))
  }

  /** The row writeStatisticsConv writes, as written: the same row, with the
      round-trip time that sums a pending SYN's timestamp into the average. */
  function ConvRowAsWritten(e: ConvEntry): (r: Option<ConvRow>)
    requires |e.tcpTypes| <= |e.pktsTimestamp|
    requires e.pktsCount > 1 ==> e.pktsTimestamp != []
    ensures r.Some? <==> ConvRowOf(e).Some?
    ensures r.Some? ==> r.value.(roundTripTime := 0) == ConvRowOf(e).value.(roundTripTime := 0)
  {
    match ConvRowOf(e)
    case None => None
    case Some(row) =>
      Some(row.(roundTripTime := RoundTripTimeAsWritten(RttScanTo(e.pktsTimestamp, e.tcpTypes, |e.tcpTypes|))))
  }

  /** For an entry the engine keeps, the row as written is the corrected row
      unless the conversation ends on an unanswered SYN. */
  lemma ConvRowAsWrittenAgrees(e: ConvEntry)
    requires ConvOk(e)
    ensures !RttScanTo(e.pktsTimestamp, e.tcpTypes, e.pktsCount).pending ==> ConvRowAsWritten(e) == ConvRowOf(e)
  {
    RttScanMeaning(e.pktsTimestamp, e.tcpTypes, e.pktsCount);
    RoundTripAverageMeaning(RttScanTo(e.pktsTimestamp, e.tcpTypes, e.pktsCount));
  }

  /** The conversation SYN, ACK, SYN at 0, 100 and 500 microseconds gets 600 as
      its written round-trip time, and 100 in the corrected row. */
  lemma ConvRowPendingSyn()
    ensures var e := ConvEntry(3, [100, 400], [0, 100, 500], [SYN, ACK, SYN]);
      && ConvOk(e)
      && ConvRowAsWritten(e).Some? && ConvRowAsWritten(e).value.roundTripTime == 600
      && ConvRowOf(e).Some? && ConvRowOf(e).value.roundTripTime == 100
  {
    var e := ConvEntry(3, [100, 400], [0, 100, 500], [SYN, ACK, SYN]);
    RoundTripPendingSyn();
    assert Gaps(e.interarrivalTime, e.pktsTimestamp);
  }

  /** The body of the writeStatisticsConv loop for one entry. */
  method ConvRowFor(e: ConvEntry) returns (row: Option<ConvRow>)
    requires |e.tcpTypes| <= |e.pktsTimestamp|
    requires e.pktsCount > 1 ==> e.pktsTimestamp != []
    ensures row == ConvRowOf(e)
  {
    if e.pktsCount > 1 {
      var maxDelay, minDelay, avg := CalculateLatency(e.interarrivalTime);
      var scan := ScanRoundTrips(e.pktsTimestamp, e.tcpTypes);
      var ts := e.pktsTimestamp;
      var rate := Divide(e.pktsCount as real * 1000000.0, (ts[|ts| - 1] - ts[0]) as real);
      row := Some(ConvRow(e.pktsCount, rate, ToInt32(avg), minDelay, maxDelay, RoundTripAverage(scan)));
    } else {
      row := None;
    }
  }

  /** For an entry the engine keeps: a row exactly for two packets or more,
      with the entry's packet count, a finite rate exactly when the first and
      last packet are apart, and the round-trip time of its own packets, -1
      when no SYN of it was answered. */
  lemma ConvRowMeaning(e: ConvEntry)
    requires ConvOk(e)
    ensures ConvRowOf(e).None? <==> e.pktsCount <= 1
    ensures ConvRowOf(e).Some? ==>
      var row := ConvRowOf(e).value;
      var scan := RttScanTo(e.pktsTimestamp, e.tcpTypes, e.pktsCount);
      && row.pktsCount == e.pktsCount
      && (row.avgPktRate.Finite? <==> e.pktsTimestamp[e.pktsCount - 1] != e.pktsTimestamp[0])
      && (row.roundTripTime == -1 <== scan.samples == [])
      && (SmallSamples(scan.samples) && scan.samples != [] ==> row.roundTripTime == Sum(scan.samples) / |scan.samples|)
  {
    if e.pktsCount > 1 {
      RttScanMeaning(e.pktsTimestamp, e.tcpTypes, e.pktsCount);
      RoundTripAverageMeaning(RttScanTo(e.pktsTimestamp, e.tcpTypes, e.pktsCount));
    }
  }

  // ---------------------------------------------------------------------------
  // Rows of conv_statistics_extended

  /** The delay loop variables of writeStatisticsConvExt: the `int` sum, and
      the maximum and minimum, -1 until a sample is seen. */
  datatype ExtDelays = ExtDelays(sum: int, minDelay: int, maxDelay: int)

  /** One sample: compared at full width, stored as an `int`. */
  function ExtDelayStep(d: ExtDelays, sample: int): ExtDelays {
    ExtDelays(ToInt32(d.sum + sample),
              if d.minDelay > sample || d.minDelay == -1 then ToInt32(sample) else d.minDelay,
              if d.maxDelay < sample then ToInt32(sample) else d.maxDelay)
  }

  function ExtDelaysTo(samples: seq<int>, n: nat): ExtDelays
    requires n <= |samples|
  {
    if n == 0 then ExtDelays(0, -1, -1) else ExtDelayStep(ExtDelaysTo(samples, n - 1), samples[n - 1])
  }

  /** The delay loop over a conversation's inter-arrival samples. */
  method ExtDelaysOf(samples: seq<int>) returns (d: ExtDelays)
    ensures d == ExtDelaysTo(samples, |samples|)
  {
    var sumDelay, minDelay, maxDelay := 0, -1, -1;
    var i := 0;
    while i < |samples|
      invariant 0 <= i <= |samples|
      invariant ExtDelays(sumDelay, minDelay, maxDelay) == ExtDelaysTo(samples, i)
    {
      sumDelay := ToInt32(sumDelay + samples[i]);
      if maxDelay < samples[i] {
        maxDelay := ToInt32(samples[i]);
      }
      if minDelay > samples[i] || minDelay == -1 {
        minDelay := ToInt32(samples[i]);
      }
      i := i + 1;
    }
    d := ExtDelays(sumDelay, minDelay, maxDelay);
  }

  /** For samples in the `int` range and not negative, the loop finds the
      smallest and largest sample, and -1 for both without a sample. */
  lemma {:induction false} ExtDelaysMeaning(samples: seq<int>, n: nat)
    requires n <= |samples|
    requires forall i :: 0 <= i < |samples| ==> 0 <= samples[i] < TWO_31
    ensures var d := ExtDelaysTo(samples, n);
      && (n == 0 <==> d.minDelay == -1) && (n == 0 <==> d.maxDelay == -1)
      && (n > 0 ==> exists i :: 0 <= i < n && samples[i] == d.minDelay)
      && (n > 0 ==> exists i :: 0 <= i < n && samples[i] == d.maxDelay)
      && (forall i :: 0 <= i < n ==> d.minDelay <= samples[i] <= d.maxDelay)
  {
    if n > 0 {
      ExtDelaysMeaning(samples, n - 1);
    }
  }

  /** The values of one conv_statistics_extended row; a missing value is NULL. */
  datatype ExtRow = ExtRow(
    pktsCount: int,
    avgPktRate: real,
    avgDelay: Option<int>,
    minDelay: Option<int>,
    maxDelay: Option<int>,
    avgIntPktsCount: real,
    avgTimeBetweenInts: real,
    avgIntervalTime: real,
    totalCommDuration: real)

  function Abs(x: int): int {
    if x < 0 then -x else x
  }

  /** Delays are measured only for UDP and TCP conversations of two packets or more. */
  predicate DelaysMeasured(k: ConvWithProt, e: ConvExtEntry) {
    e.pktsCount > 1 && (k.protocol == "UDP" || k.protocol == "TCP")
  }

  /** The row of an extended conversation, `priorAvg` being the entry's stored
      mean delay, which stays in place when the delays are not measured. The
      packet rate divides by the total duration unless that is 0, and a row is
      written only when the mean packets per interval is positive. */
  function ExtRowOf(k: ConvWithProt, e: ConvExtEntry, priorAvg: int): Option<ExtRow> {
    var measured := DelaysMeasured(k, e);
    var ia := e.interarrivalTime;
    var d := if measured then ExtDelaysTo(ia, |ia|) else ExtDelays(0, -1, -1);
    var avg := if !measured then priorAvg else if |ia| > 0 then ChronoDivBySize(d.sum, |ia|) else 0;
    var rate := if e.totalCommDuration == 0.0 then e.pktsCount as real else e.pktsCount as real / e.totalCommDuration;
    if e.avgIntPktsCount > 0.0 then
      Some(ExtRow(e.pktsCount, rate,
                  if (k.protocol == "UDP" || k.protocol == "TCP") && e.pktsCount < 2 then None else Some(Abs(ToInt32(avg))),
                  if d.minDelay == -1 then None else Some(d.minDelay),
                  if d.maxDelay == -1 then None else Some(d.maxDelay),
                  e.avgIntPktsCount, e.avgTimeBetweenInts, e.avgIntervalTime, e.totalCommDuration))
    else None
  }

  /** The body of the writeStatisticsConvExt loop for one entry. */
  method ExtRowFor(k: ConvWithProt, e: ConvExtEntry, priorAvg: int) returns (row: Option<ExtRow>)
    ensures row == ExtRowOf(k, e, priorAvg)
  {
    var d := ExtDelays(0, -1, -1);
    var avg := priorAvg;
    if DelaysMeasured(k, e) {
      d := ExtDelaysOf(e.interarrivalTime);
      if |e.interarrivalTime| > 0 {
        avg := ChronoDivBySize(d.sum, |e.interarrivalTime|);
      } else {
        avg := 0;
      }
    }
    var rate;
    if e.totalCommDuration == 0.0 {
      rate := e.pktsCount as real;
    } else {
      rate := e.pktsCount as real / e.totalCommDuration;
    }
    if e.avgIntPktsCount > 0.0 {
      var udpOrTcp := k.protocol == "UDP" || k.protocol == "TCP";
      row := Some(ExtRow(e.pktsCount, rate,
                         if udpOrTcp && e.pktsCount < 2 then None else Some(Abs(ToInt32(avg))),
                         if d.minDelay == -1 then None else Some(d.minDelay),
                         if d.maxDelay == -1 then None else Some(d.maxDelay),
                         e.avgIntPktsCount, e.avgTimeBetweenInts, e.avgIntervalTime, e.totalCommDuration));
    } else {
      row := None;
    }
  }

  /** The extended row rules: a row exactly when the mean packets per interval
      is positive; minimum and maximum delay only for measured conversations,
      where (for non-negative samples in the `int` range) they are present
      exactly when there is a sample and bound every sample; the rate is the
      packet count when the duration is 0, and packets per duration otherwise. */
  lemma ExtRowMeaning(k: ConvWithProt, e: ConvExtEntry, priorAvg: int)
    ensures ExtRowOf(k, e, priorAvg).Some? <==> e.avgIntPktsCount > 0.0
    ensures ExtRowOf(k, e, priorAvg).Some? ==>
      var row := ExtRowOf(k, e, priorAvg).value;
      && row.pktsCount == e.pktsCount
      && (row.minDelay.Some? || row.maxDelay.Some? ==> DelaysMeasured(k, e))
      && (e.totalCommDuration == 0.0 ==> row.avgPktRate == e.pktsCount as real)
      && (e.totalCommDuration != 0.0 ==> row.avgPktRate * e.totalCommDuration == e.pktsCount as real)
      && (DelaysMeasured(k, e) && (forall i :: 0 <= i < |e.interarrivalTime| ==> 0 <= e.interarrivalTime[i] < TWO_31) ==>
            && (row.minDelay.Some? <==> e.interarrivalTime != [])
            && (row.maxDelay.Some? <==> e.interarrivalTime != [])
            && (row.minDelay.Some? ==>
                  forall i :: 0 <= i < |e.interarrivalTime| ==>
                    row.minDelay.value <= e.interarrivalTime[i] <= row.maxDelay.value))
  {
    if DelaysMeasured(k, e) && (forall i :: 0 <= i < |e.interarrivalTime| ==> 0 <= e.interarrivalTime[i] < TWO_31) {
      ExtDelaysMeaning(e.interarrivalTime, |e.interarrivalTime|);
    }
  }

  // ---------------------------------------------------------------------------
  // Port services

  /** `services[port]` through `operator[]`: the empty name for an unknown port. */
  function ServiceAt(services: map<int, string>, port: int): string {
    if port in services then services[port] else ""
  }

  /** The service written for a port in writeStatisticsPorts. */
  function PortService(services: map<int, string>, port: int): string {
    var s := ServiceAt(services, port);
    if s != "" then s else if ServiceAt(services, 0) == "unavailable" then "unavailable" else "unknown"
  }

  /** The service table after one such lookup: each `operator[]` inserts the
      empty name under a port it does not know. */
  function AfterPortLookup(services: map<int, string>, port: int): map<int, string> {
    var m := services[port := ServiceAt(services, port)];
    if ServiceAt(services, port) != "" then m else m[0 := ServiceAt(m, 0)]
  }

  /** A port with a known name gets that name; otherwise "unavailable" exactly
      when the table was never read (port 0 then says so), else "unknown". */
  lemma PortServiceMeaning(services: map<int, string>, port: int)
    ensures port in services && services[port] != "" ==> PortService(services, port) == services[port]
    ensures (port !in services || services[port] == "") ==>
      && (PortService(services, port) == "unavailable" <==> 0 in services && services[0] == "unavailable")
      && (PortService(services, port) != "unavailable" ==> PortService(services, port) == "unknown")
  {
  }

  /** The names inserted by the lookups never change a later answer. */
  lemma PortLookupKeepsAnswers(services: map<int, string>, port: int, other: int)
    ensures PortService(AfterPortLookup(services, port), other) == PortService(services, other)
  {
  }

  // ---------------------------------------------------------------------------
  // std::stoi

  /** `isspace` in the C locale. */
  predicate IsSpace(c: char) {
    c == ' ' || 9 <= c as int <= 13
  }

  predicate IsDigit(c: char) {
    '0' as int <= c as int <= '9' as int
  }

  /** The first position at or after `i` that is not white space. */
  function SkipSpace(s: string, i: nat): (j: nat)
    requires i <= |s|
    ensures i <= j <= |s|
    decreases |s| - i
  {
    if i < |s| && IsSpace(s[i]) then SkipSpace(s, i + 1) else i
  }

  /** The end of the run of digits starting at `i`. */
  function DigitsEnd(s: string, i: nat): (j: nat)
    requires i <= |s|
    ensures i <= j <= |s|
    ensures forall k :: i <= k < j ==> IsDigit(s[k])
    ensures j < |s| ==> !IsDigit(s[j])
    decreases |s| - i
  {
    if i < |s| && IsDigit(s[i]) then DigitsEnd(s, i + 1) else i
  }

  /** The decimal value of the digits `s[i..j]`. */
  function DigitsValue(s: string, i: nat, j: nat): nat
    requires i <= j <= |s|
    requires forall k :: i <= k < j ==> IsDigit(s[k])
    decreases j - i
  {
    if j == i then 0 else 10 * DigitsValue(s, i, j - 1) + DigitValue(s[j - 1])
  }

  function DigitValue(c: char): nat
    requires IsDigit(c)
  {
    c as int - '0' as int
  }

  const InvalidArgument := "stoi: invalid_argument"
  const OutOfRange := "stoi: out_of_range"

  /** std::stoi in base 10: leading white space, an optional sign and at least
      one digit; what follows the digits is ignored; a value outside the `int`
      range is an error, as is a string without digits. */
  function Stoi(s: string): Result<int, string> {
    var i := SkipSpace(s, 0);
    var k := if i < |s| && (s[i] == '-' || s[i] == '+') then i + 1 else i;
    var j := DigitsEnd(s, k);
    if j == k then Err(InvalidArgument)
    else
      var v: int := if i < |s| && s[i] == '-' then 0 - DigitsValue(s, k, j) else DigitsValue(s, k, j);
      if -TWO_31 <= v < TWO_31 then Ok(v) else Err(OutOfRange)
  }

  /** Digit runs at different places with the same digits have the same value. */
  lemma {:induction false} DigitsValueShift(s: string, a: nat, t: string, b: nat, m: nat)
    requires a + m <= |s| && b + m <= |t|
    requires forall k :: a <= k < a + m ==> IsDigit(s[k])
    requires forall k :: b <= k < b + m ==> IsDigit(t[k])
    requires forall k :: a <= k < a + m ==> s[k] == t[k - a + b]
    ensures DigitsValue(s, a, a + m) == DigitsValue(t, b, b + m)
  {
    if m > 0 {
      assert s[a + m - 1] == t[b + m - 1];
      DigitsValueShift(s, a, t, b, m - 1);
    }
  }

  lemma DigitCharValue(d: nat)
    requires d < 10
    ensures IsDigit(DigitChar(d)) && DigitChar(d) as int - '0' as int == d
  {
  }

  /** The decimal rendering of a natural number is all digits, of that value. */
  lemma {:induction false} NatToStringDigits(n: nat)
    ensures forall k :: 0 <= k < |NatToString(n)| ==> IsDigit(NatToString(n)[k])
    ensures DigitsValue(NatToString(n), 0, |NatToString(n)|) == n
    decreases n
  {
    var s := NatToString(n);
    if n < 10 {
      DigitCharValue(n);
    } else {
      var p := NatToString(n / 10);
      NatToStringDigits(n / 10);
      DigitCharValue(n % 10);
      assert s == p + [DigitChar(n % 10)];
      assert forall k :: 0 <= k < |p| ==> s[k] == p[k - 0 + 0];
      DigitsValueShift(s, 0, p, 0, |p|);
    }
  }

  /** Stoi of a run of digits, possibly after a minus sign. */
  lemma StoiOfDigits(s: string, negative: bool)
    requires |s| >= 2 || (!negative && |s| >= 1)
    requires negative ==> s[0] == '-'
    requires forall k :: (if negative then 1 else 0) <= k < |s| ==> IsDigit(s[k])
    ensures var v := DigitsValue(s, if negative then 1 else 0, |s|);
      var w := if negative then 0 - v else v;
      Stoi(s) == if -TWO_31 <= w < TWO_31 then Ok(w) else Err(OutOfRange)
  {
    assert !IsSpace(s[0]);
    assert SkipSpace(s, 0) == 0;
    var k := if negative then 1 else 0;
    assert DigitsEnd(s, k) == |s|;
  }

  /** Reading back a printed `int` gives the `int`. */
  lemma StoiIntToString(n: int)
    requires -TWO_31 <= n < TWO_31
    ensures Stoi(IntToString(n)) == Ok(n)
  {
    var s := IntToString(n);
    if n < 0 {
      var p := NatToString(-n);
      NatToStringDigits(-n);
      assert s == "-" + p;
      assert forall k :: 1 <= k < 1 + |p| ==> s[k] == p[k - 1 + 0];
      DigitsValueShift(s, 1, p, 0, |p|);
      StoiOfDigits(s, true);
    } else {
      NatToStringDigits(n);
      StoiOfDigits(s, false);
    }
  }

  // ---------------------------------------------------------------------------
  // readPortServicesFromNmap

  /** An input file stream over a file's contents: the read position and the
      eof and fail flags. */
  datatype InStream = InStream(data: string, pos: nat, eof: bool, fail: bool)

  /** The states the reads below can reach: in range, and failed only at the end. */
  ghost predicate StreamOk(st: InStream) {
    st.pos <= |st.data| && (st.fail ==> st.eof)
  }

  /** The first position at or after `i` holding `delim`, or the end. */
  function FindFrom(s: string, i: nat, delim: char): (j: nat)
    requires i <= |s|
    ensures i <= j <= |s|
    ensures j < |s| ==> s[j] == delim
    decreases |s| - i
  {
    if i == |s| || s[i] == delim then i else FindFrom(s, i + 1, delim)
  }

  /** std::getline(stream, str, delim). A stream that is no longer good only
      gains the fail flag and `str` keeps its old contents. Otherwise the
      characters up to the delimiter, which is consumed, replace `str`; running
      into the end sets eof, and fail as well when nothing was extracted. */
  function Getline(st: InStream, delim: char, str: string): (r: (InStream, string))
    requires StreamOk(st)
    ensures StreamOk(r.0) && r.0.data == st.data && st.pos <= r.0.pos
    ensures st.eof ==> r.0.eof
    ensures !st.eof ==> st.pos < r.0.pos || r.0.eof
  {
    if st.eof || st.fail then (st.(fail := true), str)
    else
      var j := FindFrom(st.data, st.pos, delim);
      if j < |st.data| then (st.(pos := j + 1), st.data[st.pos..j])
      else (st.(pos := j, eof := true, fail := st.pos == j), st.data[st.pos..])
  }

  /** A record of the services file: the port field and the service field. */
  datatype ServiceRecord = ServiceRecord(port: string, service: string)

  /** The records the reading loop keeps from stream state `st` on, in order:
      each pass reads a port field and a service field up to a comma each and
      drops the rest of the line, and keeps the two fields when neither is
      empty. `portnumber` and `service` are the strings' current contents. */
  function RecordsFrom(st: InStream, portnumber: string, service: string): seq<ServiceRecord>
    requires StreamOk(st)
    decreases |st.data| - st.pos, if st.eof then 0 else 1
  {
    if st.eof then []
    else
      var (s1, p) := Getline(st, ',', portnumber);
      var (s2, v) := Getline(s1, ',', service);
      var (s3, _) := Getline(s2, '\n', "");
      (if v != "" && p != "" then [ServiceRecord(p, v)] else []) + RecordsFrom(s3, p, v)
  }

  /** `insert` of each record in turn: a port already present keeps its
      service; a port field stoi cannot read ends the reading with its error. */
  function InsertAll(records: seq<ServiceRecord>, services: map<int, string>): Result<map<int, string>, string>
    decreases |records|
  {
    if records == [] then Ok(services)
    else
      match Stoi(records[0].port)
      case Err(e) => Err(e)
      case Ok(k) => InsertAll(records[1..], if k in services then services else services[k := records[0].service])
  }

  /** The records of a services file after its header line. */
  function NmapRecords(data: string): seq<ServiceRecord> {
    var (st, _) := Getline(InStream(data, 0, false, false), '\n', "");
    RecordsFrom(st, "", "")
  }

  /** One line of a services file as written: a port field, a service field and
      the rest of the line, separated by commas. */
  datatype ServicesLine = ServicesLine(port: string, service: string, rest: string)

  /** A line's text, newline included. */
  function LineText(l: ServicesLine): string {
    l.port + "," + l.service + "," + l.rest + "\n"
  }

  /** The text of a sequence of lines. */
  function ServicesText(lines: seq<ServicesLine>): string
    decreases |lines|
  {
    if lines == [] then "" else LineText(lines[0]) + ServicesText(lines[1..])
  }

  /** A line the reading loop splits as written: neither field holds a comma and
      the rest holds no newline (a field may hold a newline: reading up to a
      comma goes through it). */
  ghost predicate LineOk(l: ServicesLine) {
    ',' !in l.port && ',' !in l.service && '\n' !in l.rest
  }

  /** The records a sequence of lines stands for: the two fields of every line
      whose port and service are both non-empty, in order. */
  function KeptRecords(lines: seq<ServicesLine>): (r: seq<ServiceRecord>)
    ensures |r| <= |lines|
    decreases |lines|
  {
    if lines == [] then []
    else
      (if lines[0].port != "" && lines[0].service != "" then [ServiceRecord(lines[0].port, lines[0].service)] else [])
      + KeptRecords(lines[1..])
  }

  /** The search for a delimiter stops at its first occurrence. */
  lemma {:induction false} FindFromFirst(s: string, i: nat, j: nat, delim: char)
    requires i <= j < |s| && s[j] == delim
    requires forall k :: i <= k < j ==> s[k] != delim
    ensures FindFrom(s, i, delim) == j
    decreases j - i
  {
    if i < j {
      FindFromFirst(s, i + 1, j, delim);
    }
  }

  /** Reading a field up to a delimiter it does not hold, from a good stream:
      the field comes back and the stream stands just after the delimiter, at
      `next`. */
  lemma GetlineField(data: string, pos: nat, next: nat, f: string, delim: char, tail: string, str: string)
    requires pos <= |data| && data[pos..] == f + [delim] + tail
    requires delim !in f && next == pos + |f| + 1
    ensures next <= |data| && data[next..] == tail
    ensures Getline(InStream(data, pos, false, false), delim, str) == (InStream(data, next, false, false), f)
  {
    var rest := data[pos..];
    var j := pos + |f|;
    assert rest[|f|] == delim;
    forall k | pos <= k < j
      ensures data[k] != delim
    {
      assert data[k] == rest[k - pos] == f[k - pos];
    }
    FindFromFirst(data, pos, j, delim);
    assert data[pos..j] == rest[..|f|] == f;
    assert data[j + 1..] == rest[|f| + 1..] == tail;
  }

  /** The three reads of one pass over a well-formed line, its port field, its
      service field and its rest in turn: each read returns its field and the
      stream stands after the field's delimiter, at `p1`, `p2` and `p3`. */
  lemma ReadsLine(data: string, pos: nat, p1: nat, p2: nat, p3: nat, l: ServicesLine, t: string,
                  portnumber: string, service: string)
    requires pos <= |data| && data[pos..] == l.port + [','] + (l.service + [','] + (l.rest + ['\n'] + t))
    requires LineOk(l)
    requires p1 == pos + |l.port| + 1 && p2 == p1 + |l.service| + 1 && p3 == p2 + |l.rest| + 1
    ensures Getline(InStream(data, pos, false, false), ',', portnumber) == (InStream(data, p1, false, false), l.port)
    ensures Getline(InStream(data, p1, false, false), ',', service) == (InStream(data, p2, false, false), l.service)
    ensures Getline(InStream(data, p2, false, false), '\n', "").0 == InStream(data, p3, false, false)
    ensures data[p3..] == t
  {
    var afterService := l.rest + ['\n'] + t;
    GetlineField(data, pos, p1, l.port, ',', l.service + [','] + afterService, portnumber);
    GetlineField(data, p1, p2, l.service, ',', afterService, service);
    GetlineField(data, p2, p3, l.rest, '\n', t, "");
  }

  /** One pass of the reading loop from a good stream, given its three reads. */
  lemma RecordsFromPass(st: InStream, portnumber: string, service: string,
                        s1: InStream, p: string, s2: InStream, v: string, s3: InStream)
    requires StreamOk(st) && !st.eof
    requires Getline(st, ',', portnumber) == (s1, p)
    requires Getline(s1, ',', service) == (s2, v)
    requires Getline(s2, '\n', "").0 == s3
    ensures RecordsFrom(st, portnumber, service)
         == (if v != "" && p != "" then [ServiceRecord(p, v)] else []) + RecordsFrom(s3, p, v)
  {
  }

  /** A line's text followed by `t`, split at its first comma. */
  lemma LineTextSplits(l: ServicesLine, t: string)
    ensures |LineText(l)| == |l.port| + |l.service| + |l.rest| + 3
    ensures LineText(l) + t == l.port + [','] + (l.service + [','] + (l.rest + ['\n'] + t))
  {
  }

  /** The pass that starts at the end of the file keeps nothing: its port field
      comes back empty. */
  lemma RecordsFromEnd(data: string, portnumber: string, service: string)
    ensures RecordsFrom(InStream(data, |data|, false, false), portnumber, service) == []
  {
    var st := InStream(data, |data|, false, false);
    var (s1, p) := Getline(st, ',', portnumber);
    assert p == "" && s1.eof;
  }

  /** The reading loop over well-formed lines keeps exactly their records. */
  lemma {:induction false} RecordsFromText(data: string, pos: nat, lines: seq<ServicesLine>,
                                           portnumber: string, service: string)
    requires pos <= |data| && data[pos..] == ServicesText(lines)
    requires forall i :: 0 <= i < |lines| ==> LineOk(lines[i])
    ensures RecordsFrom(InStream(data, pos, false, false), portnumber, service) == KeptRecords(lines)
    decreases |lines|
  {
    if lines == [] {
      assert |data[pos..]| == 0;
      RecordsFromEnd(data, portnumber, service);
    } else {
      var l, t := lines[0], ServicesText(lines[1..]);
      assert LineOk(l);
      LineTextSplits(l, t);
      var p1 := pos + |l.port| + 1;
      var p2 := p1 + |l.service| + 1;
      var p3 := pos + |LineText(l)|;
      ReadsLine(data, pos, p1, p2, p3, l, t, portnumber, service);
      RecordsFromPass(InStream(data, pos, false, false), portnumber, service, InStream(data, p1, false, false), l.port,
                      InStream(data, p2, false, false), l.service, InStream(data, p3, false, false));
      RecordsFromText(data, p3, lines[1..], l.port, l.service);
    }
  }

  /** A services file made of a header line and well-formed lines yields the
      records of those lines, in order: the header is skipped, every line with
      a non-empty port and service gives its record, and the pass that meets
      the end of the file gives none. */
  lemma NmapRecordsOfLines(header: string, lines: seq<ServicesLine>)
    requires '\n' !in header
    requires forall i :: 0 <= i < |lines| ==> LineOk(lines[i])
    ensures NmapRecords(header + "\n" + ServicesText(lines)) == KeptRecords(lines)
  {
    var data := header + "\n" + ServicesText(lines);
    GetlineField(data, 0, |header| + 1, header, '\n', ServicesText(lines), "");
    RecordsFromText(data, |header| + 1, lines, "", "");
  }

  /** The port table of readPortServicesFromNmap, from the file's contents, or
      from None when the file cannot be opened. */
  function PortServicesOf(file: Option<string>): Result<map<int, string>, string> {
    match file
    case None => Ok(map[0 := "unavailable"])
    case Some(data) => InsertAll(NmapRecords(data), map[])
  }

  /** readPortServicesFromNmap: the header line is skipped, then each pass of
      the loop reads one record and inserts it when both fields are present. */
  method ReadPortServices(file: Option<string>) returns (r: Result<map<int, string>, string>)
    ensures r == PortServicesOf(file)
    ensures file.None? ==> r == Ok(map[0 := "unavailable"])
  {
    if file.None? {
      return Ok(map[0 := "unavailable"]);
    }
    var services: map<int, string> := map[];
    var portnumber, service, dump := "", "", "";
    var line := Getline(InStream(file.value, 0, false, false), '\n', dump);
    var reader := line.0;
    while !reader.eof
      invariant StreamOk(reader) && reader.data == file.value
      invariant InsertAll(RecordsFrom(reader, portnumber, service), services) == PortServicesOf(file)
      decreases |reader.data| - reader.pos, if reader.eof then 0 else 1
    {
      ghost var before, p0, v0 := reader, portnumber, service;
      line := Getline(reader, ',', portnumber);
      reader, portnumber := line.0, line.1;
      line := Getline(reader, ',', service);
      reader, service := line.0, line.1;
      line := Getline(reader, '\n', dump);
      reader, dump := line.0, line.1;
      ghost var rest := RecordsFrom(reader, portnumber, service);
      if service != "" && portnumber != "" {
        var rec := ServiceRecord(portnumber, service);
        assert RecordsFrom(before, p0, v0) == [rec] + rest;
        assert ([rec] + rest)[1..] == rest;
        var k := Stoi(portnumber);
        if k.Err? {
          return Err(k.error);
        }
        if k.value !in services {
          services := services[k.value := service];
        }
      } else {
        assert RecordsFrom(before, p0, v0) == rest;
      }
    }
    r := Ok(services);
  }

  /** The port of record `i` is read, and no earlier record has the same port. */
  ghost predicate FirstOfPort(records: seq<ServiceRecord>, i: int, k: int) {
    0 <= i < |records| && Stoi(records[i].port) == Ok(k)
    && forall j :: 0 <= j < i ==> Stoi(records[j].port) != Ok(k)
  }

  /** Inserting the records fails exactly when some port field cannot be read. */
  lemma {:induction false} InsertAllFails(records: seq<ServiceRecord>, services: map<int, string>)
    ensures InsertAll(records, services).Err? <==> exists i :: 0 <= i < |records| && Stoi(records[i].port).Err?
    decreases |records|
  {
    if records != [] && Stoi(records[0].port).Ok? {
      var rest := records[1..];
      var k0 := Stoi(records[0].port).value;
      InsertAllFails(rest, if k0 in services then services else services[k0 := records[0].service]);
      if exists i :: 0 <= i < |records| && Stoi(records[i].port).Err? {
        var i :| 0 <= i < |records| && Stoi(records[i].port).Err?;
        assert rest[i - 1] == records[i];
      }
      if exists i :: 0 <= i < |rest| && Stoi(rest[i].port).Err? {
        var i :| 0 <= i < |rest| && Stoi(rest[i].port).Err?;
        assert rest[i] == records[i + 1];
      }
    }
  }

  /** A successful insertion keeps every entry it started from and adds every
      port it read. */
  lemma {:induction false} InsertAllKeeps(records: seq<ServiceRecord>, services: map<int, string>)
    requires InsertAll(records, services).Ok?
    ensures forall k :: k in services ==> k in InsertAll(records, services).value && InsertAll(records, services).value[k] == services[k]
    ensures forall i :: 0 <= i < |records| ==> Stoi(records[i].port).Ok? && Stoi(records[i].port).value in InsertAll(records, services).value
    decreases |records|
  {
    if records != [] {
      var rest := records[1..];
      var k0 := Stoi(records[0].port).value;
      var next := if k0 in services then services else services[k0 := records[0].service];
      InsertAllKeeps(rest, next);
      forall i | 1 <= i < |records|
        ensures Stoi(records[i].port).Ok? && Stoi(records[i].port).value in InsertAll(records, services).value
      {
        assert rest[i - 1] == records[i];
      }
    }
  }

  /** A successful insertion adds no port other than those of the records. */
  lemma {:induction false} InsertAllOnlyRead(records: seq<ServiceRecord>, services: map<int, string>)
    requires InsertAll(records, services).Ok?
    ensures forall k :: k in InsertAll(records, services).value ==> k in services || exists i :: FirstOfPort(records, i, k)
    decreases |records|
  {
    if records != [] {
      var rest := records[1..];
      var k0 := Stoi(records[0].port).value;
      var next := if k0 in services then services else services[k0 := records[0].service];
      var m := InsertAll(records, services).value;
      assert m == InsertAll(rest, next).value;
      InsertAllOnlyRead(rest, next);
      forall k | k in m && k !in services
        ensures exists i :: FirstOfPort(records, i, k)
      {
        if k == k0 {
          assert FirstOfPort(records, 0, k);
        } else {
          var i :| FirstOfPort(rest, i, k);
          assert forall j :: 1 <= j <= i + 1 ==> records[j] == rest[j - 1];
          assert FirstOfPort(records, i + 1, k);
        }
      }
    }
  }

  /** In a successful insertion each added port has the service of its first
      record. */
  lemma {:induction false} InsertAllFirstWins(records: seq<ServiceRecord>, services: map<int, string>)
    requires InsertAll(records, services).Ok?
    ensures forall i, k :: FirstOfPort(records, i, k) && k !in services ==> k in InsertAll(records, services).value && InsertAll(records, services).value[k] == records[i].service
    decreases |records|
  {
    if records != [] {
      var rest := records[1..];
      var k0 := Stoi(records[0].port).value;
      var next := if k0 in services then services else services[k0 := records[0].service];
      var m := InsertAll(records, services).value;
      assert m == InsertAll(rest, next).value;
      InsertAllFirstWins(rest, next);
      InsertAllKeeps(rest, next);
      forall i, k | FirstOfPort(records, i, k) && k !in services
        ensures k in m && m[k] == records[i].service
      {
        if i == 0 {
          assert k == k0;
        } else {
          assert forall j :: 1 <= j <= i ==> records[j] == rest[j - 1];
          assert FirstOfPort(rest, i - 1, k);
        }
      }
    }
  }

  /** Reading a services file: it fails exactly when a kept port field cannot
      be read; otherwise every port of a kept record is present, with the
      service of the first record for that port. An unreadable file gives
      exactly port 0 as "unavailable". */
  lemma PortServicesMeaning(file: Option<string>)
    ensures file.None? ==> PortServicesOf(file) == Ok(map[0 := "unavailable"])
    ensures file.Some? ==>
      var records := NmapRecords(file.value);
      && (PortServicesOf(file).Err? <==> exists i :: 0 <= i < |records| && Stoi(records[i].port).Err?)
      && (PortServicesOf(file).Ok? ==>
            var m := PortServicesOf(file).value;
            && (forall k :: k in m <==> exists i :: FirstOfPort(records, i, k))
            && (forall i, k :: FirstOfPort(records, i, k) ==> m[k] == records[i].service))
  {
    if file.Some? {
      var records := NmapRecords(file.value);
      InsertAllFails(records, map[]);
      if PortServicesOf(file).Ok? {
        InsertAllKeeps(records, map[]);
        InsertAllOnlyRead(records, map[]);
        InsertAllFirstWins(records, map[]);
        var m := PortServicesOf(file).value;
        forall k | exists i :: FirstOfPort(records, i, k)
          ensures k in m
        {
          var i :| FirstOfPort(records, i, k);
          assert Stoi(records[i].port).value == k;
        }
      }
    }
  }

  // ---------------------------------------------------------------------------
  // Interval tables

  /** The interval lengths written: with a default interval set, an empty list,
      or one whose first length is 0, is replaced by the default alone. */
  function SelectIntervals(timeIntervals: seq<int>, defaultInterval: int): seq<int> {
    if defaultInterval != 0 && (timeIntervals == [] || timeIntervals[0] == 0) then [defaultInterval] else timeIntervals
  }

  /** With a default the selected list starts with a non-zero length; without
      one the list is kept; and selecting twice is selecting once. */
  lemma SelectIntervalsMeaning(timeIntervals: seq<int>, defaultInterval: int)
    ensures var r := SelectIntervals(timeIntervals, defaultInterval);
      && (defaultInterval != 0 ==> r != [] && r[0] != 0)
      && (defaultInterval == 0 ==> r == timeIntervals)
      && (r == timeIntervals || r == [defaultInterval])
      && SelectIntervals(r, defaultInterval) == r
  {
  }

  /** The name of the table of one interval length. */
  function TableName(interval: int): string {
    "interval_statistics_" + IntToString(interval)
  }

  /** Whether the table of an interval length is marked as the default: its
      name is the stored default table's, or its length is the default. */
  function IsDefaultTable(interval: int, defaultTableName: string, defaultInterval: int): bool {
    TableName(interval) == defaultTableName || interval == defaultInterval
  }

  /** Interval lengths are `int`s, and different lengths get different tables. */
  lemma TableNameInjective(a: int, b: int)
    requires -TWO_31 <= a < TWO_31 && -TWO_31 <= b < TWO_31
    ensures TableName(a) == TableName(b) <==> a == b
  {
    if TableName(a) == TableName(b) {
      var n := |"interval_statistics_"|;
      assert IntToString(a) == TableName(a)[n..];
      assert IntToString(b) == TableName(b)[n..];
      StoiIntToString(a);
      StoiIntToString(b);
    }
  }

  /** A length's table is the default exactly when the length is the stored
      default table's length or the default length. */
  lemma IsDefaultTableMeaning(interval: int, storedDefault: int, defaultInterval: int)
    requires -TWO_31 <= interval < TWO_31 && -TWO_31 <= storedDefault < TWO_31
    ensures IsDefaultTable(interval, TableName(storedDefault), defaultInterval)
        <==> interval == storedDefault || interval == defaultInterval
  {
    TableNameInjective(interval, storedDefault);
  }
}
