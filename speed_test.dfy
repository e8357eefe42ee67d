/**
 * SpeedTestRepositoryImpl: ping statistics, the Mbps conversion, the running
 * peak of the download and upload tick loops, the order in which
 * `startSpeedTest` emits its results, the `fetchNetworkInfo` outcome table and
 * the `SpeedResult` ⇄ `HistoryEntity` mappers. Every network exchange, clock
 * reading and byte counter value is an input.
 */
module SpeedTest {
  import opened Wrappers
  import opened KotlinText
  import opened Http
  import opened SpeedModels

  /* ----------------------------- ping statistics ----------------------------- */

  /**
   * One timed HEAD request of `measureRealPingStats`: it answered (successfully
   * or not) after `rttMs` milliseconds, or it threw.
   */
  datatype Attempt = Answered(successful: bool, rttMs: nat) | Threw

  predicate Succeeded(a: Attempt) {
    a.Answered? && a.successful
  }

  datatype PingStats = PingStats(minMs: real, avgMs: real, jitterMs: real, lossPercent: real)

  /** The RTTs of the successful attempts, in order. */
  function Rtts(attempts: seq<Attempt>): (r: seq<nat>)
    ensures |r| <= |attempts|
  {
    if attempts == [] then []
    else
      var last := attempts[|attempts| - 1];
      Rtts(attempts[..|attempts| - 1]) + (if Succeeded(last) then [last.rttMs] else [])
  }

  /** The number of attempts that failed or threw. */
  function Failures(attempts: seq<Attempt>): nat {
    if attempts == [] then 0
    else Failures(attempts[..|attempts| - 1]) + (if Succeeded(attempts[|attempts| - 1]) then 0 else 1)
  }

  /** Every attempt lands in exactly one of the two tallies. */
  lemma {:induction false} AttemptsAccounted(attempts: seq<Attempt>)
    ensures |Rtts(attempts)| + Failures(attempts) == |attempts|
  {
    if attempts != [] {
      AttemptsAccounted(attempts[..|attempts| - 1]);
    }
  }

  /** `minOrNull()`, or `None` for an empty list. */
  function MinOf(xs: seq<nat>): (r: Option<nat>)
    ensures r.None? <==> xs == []
    ensures r.Some? ==> r.value in xs
  {
    if xs == [] then None
    else match MinOf(xs[1..])
      case None => Some(xs[0])
      case Some(m) => Some(if xs[0] <= m then xs[0] else m)
  }

  lemma {:induction false} MinOfBelowAll(xs: seq<nat>, k: int)
    requires 0 <= k < |xs|
    ensures MinOf(xs).Some? && MinOf(xs).value <= xs[k]
  {
    if k > 0 {
      MinOfBelowAll(xs[1..], k - 1);
    }
  }

  function Sum(xs: seq<real>): real {
    if xs == [] then 0.0 else xs[0] + Sum(xs[1..])
  }

  /** `average()`; an empty list, where Kotlin yields NaN, gives 0. */
  function Average(xs: seq<real>): real {
    if xs == [] then 0.0 else Sum(xs) / |xs| as real
  }

  function Abs(x: int): nat {
    if x < 0 then -x else x
  }

  /** `zipWithNext { a, b -> abs(a - b).toDouble() }` */
  function Gaps(xs: seq<nat>): (r: seq<real>)
    ensures |xs| >= 1 ==> |r| == |xs| - 1
    ensures |xs| == 0 ==> r == []
    ensures forall i :: 0 <= i < |r| ==> r[i] == Abs(xs[i] as int - xs[i + 1] as int) as real
  {
    if |xs| < 2 then [] else [Abs(xs[0] as int - xs[1] as int) as real] + Gaps(xs[1..])
  }

  /** `rtts.minOrNull()?.toDouble() ?: 999.0` */
  function MinMs(rtts: seq<nat>): real {
    match MinOf(rtts) case Some(m) => m as real case None => 999.0
  }

  /** `rtts.average()` */
  function AvgMs(rtts: seq<nat>): real {
    Average(seq(|rtts|, i requires 0 <= i < |rtts| => rtts[i] as real))
  }

  /** The mean gap between consecutive RTTs, or 0 with fewer than two. */
  function JitterMs(rtts: seq<nat>): real {
    if |rtts| >= 2 then Average(Gaps(rtts)) else 0.0
  }

  /** `(failed.toDouble() / attempts) * 100.0`; no attempts, where Kotlin yields NaN, gives 0. */
  function LossPercent(failed: nat, attempts: nat): real {
    if attempts == 0 then 0.0 else (failed as real / attempts as real) * 100.0
  }

  /** `minMs`, `avgMs`, `jitterMs` and `lossPercent` of the tallies. */
  function StatsOf(rtts: seq<nat>, failed: nat, attempts: nat): PingStats {
    PingStats(MinMs(rtts), AvgMs(rtts), JitterMs(rtts), LossPercent(failed, attempts))
  }

  /**
   * `measureRealPingStats`: the warm-up request is sent and its outcome
   * ignored; then each attempt either adds its RTT or counts as failed.
   */
  method MeasureRealPingStats(warmUp: Attempt, attempts: seq<Attempt>) returns (stats: PingStats)
    ensures stats == StatsOf(Rtts(attempts), Failures(attempts), |attempts|)
  {
    var rtts: seq<nat> := [];
    var failed: nat := 0;
    var k := 0;
    while k < |attempts|
      invariant 0 <= k <= |attempts|
      invariant rtts == Rtts(attempts[..k]) && failed == Failures(attempts[..k])
      invariant |rtts| + failed == k
    {
      var a := attempts[k];
      assert attempts[..k + 1][..k] == attempts[..k];
      if Succeeded(a) {
        rtts := rtts + [a.rttMs];
      } else {
        failed := failed + 1;
      }
      k := k + 1;
    }
    assert attempts[..k] == attempts;
    stats := StatsOf(rtts, failed, |attempts|);
  }

  /** `minMs` is at most every RTT, and 999 when no attempt succeeded. */
  lemma MinMsBound(rtts: seq<nat>, k: int)
    requires 0 <= k < |rtts|
    ensures MinMs(rtts) <= rtts[k] as real
  {
    MinOfBelowAll(rtts, k);
  }

  lemma MinMsWithoutSuccess(rtts: seq<nat>)
    requires rtts == []
    ensures MinMs(rtts) == 999.0
  {
  }

  /** `lossPercent` lies in [0, 100] whenever there was an attempt. */
  lemma LossInRange(attempts: seq<Attempt>)
    requires |attempts| > 0
    ensures 0.0 <= LossPercent(Failures(attempts), |attempts|) <= 100.0
  {
    AttemptsAccounted(attempts);
    FractionAtMostOne(Failures(attempts) as real, |attempts| as real);
  }

  lemma FractionAtMostOne(f: real, n: real)
    requires 0.0 <= f <= n && n > 0.0
    ensures 0.0 <= f / n <= 1.0
  {
    var q := f / n;
    assert q * n == f;
  }

  lemma {:induction false} SumNonNegative(xs: seq<real>)
    requires forall i :: 0 <= i < |xs| ==> xs[i] >= 0.0
    ensures Sum(xs) >= 0.0
  {
    if xs != [] {
      SumNonNegative(xs[1..]);
    }
  }

  lemma {:induction false} GapsNonNegative(xs: seq<nat>)
    ensures forall i :: 0 <= i < |Gaps(xs)| ==> Gaps(xs)[i] >= 0.0
  {
    if |xs| >= 2 {
      GapsNonNegative(xs[1..]);
    }
  }

  /** `jitterMs` is never negative, and 0 with fewer than two successes. */
  lemma JitterBounds(rtts: seq<nat>)
    ensures JitterMs(rtts) >= 0.0
    ensures |rtts| < 2 ==> JitterMs(rtts) == 0.0
  {
    if |rtts| >= 2 {
      GapsNonNegative(rtts);
      SumNonNegative(Gaps(rtts));
    }
  }

  /* ----------------------------- Mbps ----------------------------- */

  /** `bytesToMbps`: megabits per second, and 0 for a non-positive duration. */
  function BytesToMbps(bytes: int, seconds: real): (r: real)
    ensures seconds <= 0.0 ==> r == 0.0
    ensures seconds > 0.0 ==> r * (seconds * 1000000.0) == bytes as real * 8.0
  {
    if seconds <= 0.0 then 0.0 else (bytes as real * 8.0) / (seconds * 1000000.0)
  }

  /** More bytes in the same time is never a lower rate. */
  lemma BytesToMbpsMonotone(b1: int, b2: int, seconds: real)
    requires b1 <= b2
    ensures BytesToMbps(b1, seconds) <= BytesToMbps(b2, seconds)
  {
    if seconds > 0.0 {
      var d := seconds * 1000000.0;
      assert (b1 as real * 8.0) / d <= (b2 as real * 8.0) / d;
    }
  }

  lemma BytesToMbpsNonNegative(bytes: int, seconds: real)
    requires bytes >= 0
    ensures BytesToMbps(bytes, seconds) >= 0.0
  {
  }

  /* ----------------------------- the tick loop ----------------------------- */

  /**
   * What one iteration of a tick loop reads: the milliseconds since the phase
   * started and the shared byte counter.
   */
  datatype Tick = Tick(elapsedMs: int, totalBytes: int)

  /** The `onUpdate(currentMbps, maxMbps, currentMbps)` arguments of one tick. */
  datatype Update = Update(instant: real, peak: real, average: real)

  datatype SpeedMeasure = SpeedMeasure(avgMbps: real, maxMbps: real)

  /** The instantaneous rate at a tick: all bytes so far over all time so far. */
  function Instant(t: Tick): real {
    BytesToMbps(t.totalBytes, t.elapsedMs as real / 1000.0)
  }

  function Max(a: real, b: real): real {
    if a >= b then a else b
  }

  /** The running peak `maxMbps` after the given ticks; it starts at 0. */
  function Peak(ticks: seq<Tick>): real {
    if ticks == [] then 0.0 else Max(Peak(ticks[..|ticks| - 1]), Instant(ticks[|ticks| - 1]))
  }

  /** The callback arguments of every tick, defined tick by tick. */
  function UpdatesOf(ticks: seq<Tick>): (r: seq<Update>)
    ensures |r| == |ticks|
  {
    seq(|ticks|, k requires 0 <= k < |ticks| => Update(Instant(ticks[k]), Peak(ticks[..k + 1]), Instant(ticks[k])))
  }

  /**
   * The tick loop shared by `runDownloadTest` and `runUploadTest`: one update
   * per tick, and a summary whose average divides the final byte count by the
   * nominal duration.
   */
  method RunPhase(durationMs: int, ticks: seq<Tick>, finalBytes: int) returns (updates: seq<Update>, measure: SpeedMeasure)
    ensures updates == UpdatesOf(ticks)
    ensures measure == SpeedMeasure(BytesToMbps(finalBytes, durationMs as real / 1000.0), Peak(ticks))
  {
    var maxMbps := 0.0;
    updates := [];
    var k := 0;
    while k < |ticks|
      invariant 0 <= k <= |ticks|
      invariant maxMbps == Peak(ticks[..k])
      invariant updates == UpdatesOf(ticks[..k])
    {
      var currentMbps := Instant(ticks[k]);
      assert ticks[..k + 1][..k] == ticks[..k];
      maxMbps := Max(maxMbps, currentMbps);
      updates := updates + [Update(currentMbps, maxMbps, currentMbps)];
      PrefixUpdates(ticks, k);
      k := k + 1;
    }
    assert ticks[..k] == ticks;
    measure := SpeedMeasure(BytesToMbps(finalBytes, durationMs as real / 1000.0), maxMbps);
  }

  lemma PrefixUpdates(ticks: seq<Tick>, k: int)
    requires 0 <= k < |ticks|
    ensures UpdatesOf(ticks[..k + 1]) == UpdatesOf(ticks[..k]) + [Update(Instant(ticks[k]), Peak(ticks[..k + 1]), Instant(ticks[k]))]
  {
    var a := UpdatesOf(ticks[..k + 1]);
    var b := UpdatesOf(ticks[..k]) + [Update(Instant(ticks[k]), Peak(ticks[..k + 1]), Instant(ticks[k]))];
    forall j | 0 <= j < |a| ensures a[j] == b[j] {
      if j < k {
        assert ticks[..k + 1][..j + 1] == ticks[..j + 1];
        assert ticks[..k][..j + 1] == ticks[..j + 1];
      } else {
        assert ticks[..k + 1][..k + 1] == ticks[..k + 1];
      }
    }
    assert a == b;
  }

  /** The peak never decreases from one tick to a later one. */
  lemma {:induction false} PeakMonotone(ticks: seq<Tick>, i: nat, j: nat)
    requires i <= j <= |ticks|
    ensures Peak(ticks[..i]) <= Peak(ticks[..j])
    decreases j - i
  {
    if i < j {
      PeakMonotone(ticks, i, j - 1);
      assert ticks[..j][..j - 1] == ticks[..j - 1];
    }
  }

  /** The peak is at least 0 and at least every instantaneous rate reported so far. */
  lemma {:induction false} PeakAboveInstants(ticks: seq<Tick>, k: int)
    requires 0 <= k < |ticks|
    ensures Peak(ticks) >= Instant(ticks[k]) && Peak(ticks) >= 0.0
  {
    var n := |ticks|;
    var init := ticks[..n - 1];
    if k < n - 1 {
      PeakAboveInstants(init, k);
      assert init[k] == ticks[k];
    } else {
      PeakNonNegative(init);
    }
  }

  lemma {:induction false} PeakNonNegative(ticks: seq<Tick>)
    ensures Peak(ticks) >= 0.0
  {
    if ticks != [] {
      PeakNonNegative(ticks[..|ticks| - 1]);
    }
  }

  /** What the tick loop promises its callback: the peak argument only grows and bounds every reported rate. */
  lemma UpdatesPeak(ticks: seq<Tick>, i: int, j: int)
    requires 0 <= i <= j < |ticks|
    ensures UpdatesOf(ticks)[i].peak <= UpdatesOf(ticks)[j].peak
    ensures UpdatesOf(ticks)[j].peak >= UpdatesOf(ticks)[i].instant
    ensures UpdatesOf(ticks)[i].average == UpdatesOf(ticks)[i].instant
  {
    PeakMonotone(ticks, i + 1, j + 1);
    PeakAboveInstants(ticks[..j + 1], i);
    assert ticks[..j + 1][i] == ticks[i];
  }

  /* ----------------------------- fetchNetworkInfo ----------------------------- */

  /**
   * `fetchNetworkInfo`: the (IP, ISP) pair of the ipapi.co lookup. `json` is
   * what `JSONObject` makes of the body.
   */
  function FetchNetworkInfo(x: Exchange, json: Json): (r: (string, string))
    ensures x.Threw? ==> r == ("Offline", "Check Connection")
    ensures x.Response? && !x.successful ==> r == ("Error " + NatToString(x.code), "Server Error")
    ensures x.Response? && x.successful && BodyText(x.body) == [] ==> r == ("N/A", "Empty Response")
    ensures x.Response? && x.successful && BodyText(x.body) != [] && json.Malformed? ==> r == ("Offline", "Check Connection")
    ensures x.Response? && x.successful && BodyText(x.body) != [] && json.Object? ==>
      r == (OptString(json.fields, "ip", "Unknown IP"), OptString(json.fields, "org", "Unknown ISP"))
  {
    match x
    case Threw => ("Offline", "Check Connection")
    case Response(successful, code, body) =>
      if successful then
        if BodyText(body) != [] then
          match json
          case Malformed => ("Offline", "Check Connection")
          case Object(fields) => (OptString(fields, "ip", "Unknown IP"), OptString(fields, "org", "Unknown ISP"))
        else ("N/A", "Empty Response")
      else ("Error " + NatToString(code), "Server Error")
  }

  /** The status code of a failed lookup can be read back from the IP slot. */
  lemma ServerErrorCode(x: Exchange, json: Json)
    requires x.Response? && !x.successful && x.code < 1000
    ensures var ip := FetchNetworkInfo(x, json).0;
      |ip| > 6 && ip[..6] == "Error " && ParseInt(ip[6..]) == Some(x.code as int)
  {
    var ip := FetchNetworkInfo(x, json).0;
    assert ip[6..] == NatToString(x.code);
    ParseNatToString(x.code);
  }

  /* ----------------------------- the emission sequence ----------------------------- */

  /** `attempts = 15` pings, and `testDurationMs = 10_000` per phase. */
  const PING_ATTEMPTS := 15
  const TEST_DURATION_MS := 10000

  const LOOKING_UP := "جاري التعرف على الشبكة..."
  const PINGING := "جاري حساب Ping..."
  const SERVER := "Cloudflare Global Edge"
  const DOWNLOADING := "جاري اختبار التحميل..."
  const UPLOADING := "جاري اختبار الرفع..."
  const DONE := "اكتمل الاختبار"

  /** `roundToInt`: the nearest integer, halves rounded up. */
  function RoundToInt(x: real): (n: int)
    ensures x - 0.5 < n as real <= x + 0.5
  {
    (x + 0.5).Floor
  }

  /** The baseline `current` after the ping phase. */
  function Baseline(info: (string, string), stats: PingStats, now: Date): (r: SpeedResult)
    ensures r.serverName == SERVER && r.networkType == "Internet"
    ensures r.ipAddress == Some(info.0) && r.isp == Some(info.1)
    ensures r.ping == RoundToInt(stats.minMs) && r.jitter == RoundToInt(stats.jitterMs)
    ensures r.packetLoss == stats.lossPercent && r.timestamp == now
    ensures r.downloadSpeed == 0.0 && r.maxDownloadSpeed == 0.0 && r.avgDownloadSpeed == 0.0
    ensures r.uploadSpeed == 0.0 && r.maxUploadSpeed == 0.0 && r.avgUploadSpeed == 0.0
  {
    Labelled(SERVER, now).(ping := RoundToInt(stats.minMs), jitter := RoundToInt(stats.jitterMs),
      packetLoss := stats.lossPercent, ipAddress := Some(info.0), isp := Some(info.1), networkType := "Internet")
  }

  function WithDownload(r: SpeedResult, u: Update): SpeedResult {
    r.(downloadSpeed := u.instant, maxDownloadSpeed := u.peak, avgDownloadSpeed := u.average)
  }

  function WithUpload(r: SpeedResult, u: Update): SpeedResult {
    r.(uploadSpeed := u.instant, maxUploadSpeed := u.peak, avgUploadSpeed := u.average)
  }

  /** `current` after the download phase: its summary becomes the download fields. */
  function AfterDownload(base: SpeedResult, dl: SpeedMeasure): SpeedResult {
    base.(downloadSpeed := dl.avgMbps, maxDownloadSpeed := dl.maxMbps, avgDownloadSpeed := dl.avgMbps)
  }

  /** The final result: the upload summary and the "done" label on `current`. */
  function Finished(afterDl: SpeedResult, ul: SpeedMeasure): SpeedResult {
    afterDl.(uploadSpeed := ul.avgMbps, maxUploadSpeed := ul.maxMbps, avgUploadSpeed := ul.avgMbps, serverName := DONE)
  }

  /** The four emissions before the download samples. */
  function Header(info: (string, string), base: SpeedResult, t0: Date, t1: Date): seq<SpeedResult> {
    [Labelled(LOOKING_UP, t0), Labelled(PINGING, t1).(ipAddress := Some(info.0), isp := Some(info.1)),
     base, base.(serverName := DOWNLOADING)]
  }

  /** One sample per update: the update in the download fields, the base everywhere else. */
  function DownloadSamples(base: SpeedResult, ups: seq<Update>): (r: seq<SpeedResult>)
    ensures |r| == |ups|
    ensures forall k :: 0 <= k < |ups| ==>
      r[k].downloadSpeed == ups[k].instant && r[k].maxDownloadSpeed == ups[k].peak && r[k].avgDownloadSpeed == ups[k].average
    ensures forall k :: 0 <= k < |ups| ==>
      r[k].(downloadSpeed := base.downloadSpeed, maxDownloadSpeed := base.maxDownloadSpeed, avgDownloadSpeed := base.avgDownloadSpeed) == base
  {
    seq(|ups|, k requires 0 <= k < |ups| => WithDownload(base, ups[k]))
  }

  /** One sample per update: the update in the upload fields, `afterDl` everywhere else. */
  function UploadSamples(afterDl: SpeedResult, ups: seq<Update>): (r: seq<SpeedResult>)
    ensures |r| == |ups|
    ensures forall k :: 0 <= k < |ups| ==>
      r[k].uploadSpeed == ups[k].instant && r[k].maxUploadSpeed == ups[k].peak && r[k].avgUploadSpeed == ups[k].average
    ensures forall k :: 0 <= k < |ups| ==>
      r[k].(uploadSpeed := afterDl.uploadSpeed, maxUploadSpeed := afterDl.maxUploadSpeed, avgUploadSpeed := afterDl.avgUploadSpeed) == afterDl
  {
    seq(|ups|, k requires 0 <= k < |ups| => WithUpload(afterDl, ups[k]))
  }

  /** The emissions of `startSpeedTest`, in order. */
  function Emissions(info: (string, string), base: SpeedResult, t0: Date, t1: Date,
                     dlUpdates: seq<Update>, dl: SpeedMeasure, ulUpdates: seq<Update>, ul: SpeedMeasure): (r: seq<SpeedResult>)
    ensures |r| == 6 + |dlUpdates| + |ulUpdates|
  {
    var afterDl := AfterDownload(base, dl);
    Header(info, base, t0, t1) + DownloadSamples(base, dlUpdates)
    + [afterDl.(serverName := UPLOADING)] + UploadSamples(afterDl, ulUpdates)
    + [Finished(afterDl, ul)]
  }

  /** The `onUpdate` callback of the download phase, once per update. */
  method EmitDownloadSamples(emitted: seq<SpeedResult>, current: SpeedResult, updates: seq<Update>)
    returns (out: seq<SpeedResult>)
    ensures out == emitted + DownloadSamples(current, updates)
  {
    out := emitted;
    var k := 0;
    while k < |updates|
      invariant 0 <= k <= |updates|
      invariant out == emitted + DownloadSamples(current, updates[..k])
    {
      assert DownloadSamples(current, updates[..k + 1]) == DownloadSamples(current, updates[..k]) + [WithDownload(current, updates[k])];
      out := out + [WithDownload(current, updates[k])];
      k := k + 1;
    }
    assert updates[..k] == updates;
  }

  /** The `onUpdate` callback of the upload phase, once per update. */
  method EmitUploadSamples(emitted: seq<SpeedResult>, current: SpeedResult, updates: seq<Update>)
    returns (out: seq<SpeedResult>)
    ensures out == emitted + UploadSamples(current, updates)
  {
    out := emitted;
    var k := 0;
    while k < |updates|
      invariant 0 <= k <= |updates|
      invariant out == emitted + UploadSamples(current, updates[..k])
    {
      assert UploadSamples(current, updates[..k + 1]) == UploadSamples(current, updates[..k]) + [WithUpload(current, updates[k])];
      out := out + [WithUpload(current, updates[k])];
      k := k + 1;
    }
    assert updates[..k] == updates;
  }

  /**
   * `startSpeedTest`: the lookup, the ping phase, then the download and upload
   * phases, emitting as it goes. `t0`, `t1` and `t2` are the three `Date()`
   * readings.
   */
  method StartSpeedTest(lookup: Exchange, lookupJson: Json, warmUp: Attempt, pings: seq<Attempt>,
                        dlTicks: seq<Tick>, dlBytes: int, ulTicks: seq<Tick>, ulBytes: int,
                        t0: Date, t1: Date, t2: Date)
    returns (emitted: seq<SpeedResult>)
    requires |pings| == PING_ATTEMPTS
    ensures var info := FetchNetworkInfo(lookup, lookupJson);
      var base := Baseline(info, StatsOf(Rtts(pings), Failures(pings), |pings|), t2);
      emitted == Emissions(info, base, t0, t1,
        UpdatesOf(dlTicks), SpeedMeasure(BytesToMbps(dlBytes, 10.0), Peak(dlTicks)),
        UpdatesOf(ulTicks), SpeedMeasure(BytesToMbps(ulBytes, 10.0), Peak(ulTicks)))
  {
    emitted := [Labelled(LOOKING_UP, t0)];
    var info := FetchNetworkInfo(lookup, lookupJson);
    emitted := emitted + [Labelled(PINGING, t1).(ipAddress := Some(info.0), isp := Some(info.1))];
    var stats := MeasureRealPingStats(warmUp, pings);
    var current := Baseline(info, stats, t2);
    emitted := emitted + [current];

    emitted := emitted + [current.(serverName := DOWNLOADING)];
    assert emitted == Header(info, current, t0, t1);
    var dlUpdates, dl := RunPhase(TEST_DURATION_MS, dlTicks, dlBytes);
    emitted := EmitDownloadSamples(emitted, current, dlUpdates);
    var base := current;
    current := AfterDownload(current, dl);

    emitted := emitted + [current.(serverName := UPLOADING)];
    var ulUpdates, ul := RunPhase(TEST_DURATION_MS, ulTicks, ulBytes);
    emitted := EmitUploadSamples(emitted, current, ulUpdates);
    emitted := emitted + [Finished(current, ul)];
  }

  /** The labels sit at fixed positions: lookup, ping, baseline, download, upload, done. */
  lemma EmissionOrder(info: (string, string), base: SpeedResult, t0: Date, t1: Date,
                      dlUpdates: seq<Update>, dl: SpeedMeasure, ulUpdates: seq<Update>, ul: SpeedMeasure)
    requires base.serverName == SERVER
    ensures var e := Emissions(info, base, t0, t1, dlUpdates, dl, ulUpdates, ul);
      var n := |dlUpdates|;
      e[0].serverName == LOOKING_UP && e[1].serverName == PINGING && e[2] == base
      && e[3].serverName == DOWNLOADING && e[4 + n].serverName == UPLOADING
      && e[|e| - 1].serverName == DONE
      && (forall k :: 4 <= k < 4 + n ==> e[k].serverName == SERVER)
      && (forall k :: 5 + n <= k < |e| - 1 ==> e[k].serverName == SERVER)
  {
  }

  /** Every upload-phase emission and the final one carry the download summary. */
  lemma UploadCarriesDownload(info: (string, string), base: SpeedResult, t0: Date, t1: Date,
                              dlUpdates: seq<Update>, dl: SpeedMeasure, ulUpdates: seq<Update>, ul: SpeedMeasure, k: int)
    requires 4 + |dlUpdates| <= k < 6 + |dlUpdates| + |ulUpdates|
    ensures var e := Emissions(info, base, t0, t1, dlUpdates, dl, ulUpdates, ul);
      e[k].downloadSpeed == dl.avgMbps && e[k].avgDownloadSpeed == dl.avgMbps && e[k].maxDownloadSpeed == dl.maxMbps
  {
  }

  /** The final emission reports both phase summaries and the ping figures of the baseline. */
  lemma FinalResult(info: (string, string), base: SpeedResult, t0: Date, t1: Date,
                    dlUpdates: seq<Update>, dl: SpeedMeasure, ulUpdates: seq<Update>, ul: SpeedMeasure)
    ensures var e := Emissions(info, base, t0, t1, dlUpdates, dl, ulUpdates, ul);
      var f := e[|e| - 1];
      f.uploadSpeed == ul.avgMbps && f.avgUploadSpeed == ul.avgMbps && f.maxUploadSpeed == ul.maxMbps
      && f.downloadSpeed == dl.avgMbps && f.maxDownloadSpeed == dl.maxMbps
      && f.ping == base.ping && f.jitter == base.jitter && f.packetLoss == base.packetLoss
      && f.timestamp == base.timestamp && f.serverName == DONE
  {
  }

  /* ----------------------------- mappers ----------------------------- */

  /** `SpeedResult.toEntity()`: field by field, the timestamp as epoch milliseconds. */
  function ToEntity(r: SpeedResult): HistoryEntity {
    HistoryEntity(r.id, r.downloadSpeed, r.maxDownloadSpeed, r.avgDownloadSpeed,
      r.uploadSpeed, r.maxUploadSpeed, r.avgUploadSpeed, r.ping, r.jitter, r.packetLoss, r.bufferbloat,
      r.serverName, r.serverLocation, r.networkType, r.ssid, r.isp, r.ipAddress, r.signalStrength,
      r.timestamp.time)
  }

  /** `HistoryEntity.toDomain()`: field by field, `Date(timestamp)`. */
  function ToDomain(e: HistoryEntity): SpeedResult {
    SpeedResult(e.id, e.download, e.maxDownload, e.avgDownload,
      e.upload, e.maxUpload, e.avgUpload, e.ping, e.jitter, e.packetLoss, e.bufferbloat,
      e.serverName, e.serverLocation, e.networkType, e.ssid, e.isp, e.ipAddress, e.signalStrength,
      Date(e.timestamp))
  }

  lemma DomainRoundTrip(r: SpeedResult)
    ensures ToDomain(ToEntity(r)) == r
  {
  }

  lemma EntityRoundTrip(e: HistoryEntity)
    ensures ToEntity(ToDomain(e)) == e
  {
  }
}
