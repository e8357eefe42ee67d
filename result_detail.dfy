/**
 * The classification rules of ResultDetailScreen: the four-level diagnosis,
 * the three smart tags and the fractions the mini bars are drawn at. Texts,
 * colours and icons are left to the enum tags.
 */
module ResultDetail {
  import opened SpeedModels

  /* ----------------------------- diagnosis ----------------------------- */

  datatype Level = Excellent | Great | Ok | Poor

  /** How good a level is: Poor 0, Ok 1, Great 2, Excellent 3. */
  function Rank(l: Level): nat {
    match l
    case Poor => 0
    case Ok => 1
    case Great => 2
    case Excellent => 3
  }

  /** `getAiDiagnosisV2`: the first of the four `when` branches whose condition holds. */
  function Diagnose(result: SpeedResult): (l: Level)
    ensures l == Excellent ==> result.downloadSpeed >= 150.0 && result.ping <= 15
    ensures l == Great ==> result.downloadSpeed >= 80.0 && result.ping <= 30
    ensures l == Ok ==> result.downloadSpeed >= 30.0
  {
    var dl := result.downloadSpeed;
    var ping := result.ping;
    if dl >= 150.0 && ping <= 15 then Excellent
    else if dl >= 80.0 && ping <= 30 then Great
    else if dl >= 30.0 then Ok
    else Poor
  }

  /** Poor exactly when the download speed is below 30, whatever the ping. */
  lemma PoorIff(result: SpeedResult)
    ensures Diagnose(result) == Poor <==> result.downloadSpeed < 30.0
  {
  }

  /** Each level is reached exactly when its condition holds and no better one's does. */
  lemma DiagnoseFirstMatch(result: SpeedResult)
    ensures var dl, ping := result.downloadSpeed, result.ping;
      (Diagnose(result) == Excellent <==> dl >= 150.0 && ping <= 15)
      && (Diagnose(result) == Great <==> !(dl >= 150.0 && ping <= 15) && dl >= 80.0 && ping <= 30)
      && (Diagnose(result) == Ok <==> !(dl >= 80.0 && ping <= 30) && dl >= 30.0)
  {
  }

  /** A faster download or a lower ping never gives a worse level. */
  lemma DiagnoseMonotone(r1: SpeedResult, r2: SpeedResult)
    requires r1.downloadSpeed <= r2.downloadSpeed && r2.ping <= r1.ping
    ensures Rank(Diagnose(r1)) <= Rank(Diagnose(r2))
  {
  }

  /* ----------------------------- smart tags ----------------------------- */

  datatype Tag = GamingReady | GamingMid | Streaming4K | StreamingHd | StreamingPoor | VideoCalls | CallsUnstable

  predicate IsGamingTag(t: Tag) { t == GamingReady || t == GamingMid }

  predicate IsStreamingTag(t: Tag) { t == Streaming4K || t == StreamingHd || t == StreamingPoor }

  predicate IsCallsTag(t: Tag) { t == VideoCalls || t == CallsUnstable }

  /** `buildSmartTags`: one gaming, one streaming and one calls tag, appended in that order. */
  method BuildSmartTags(result: SpeedResult) returns (tags: seq<Tag>)
    ensures |tags| == 3
    ensures IsGamingTag(tags[0]) && IsStreamingTag(tags[1]) && IsCallsTag(tags[2])
    ensures tags[0] == GamingReady <==> result.ping <= 25 && result.downloadSpeed >= 50.0
    ensures tags[1] == Streaming4K <==> result.downloadSpeed >= 60.0
    ensures tags[1] == StreamingHd <==> 25.0 <= result.downloadSpeed < 60.0
    ensures tags[1] == StreamingPoor <==> result.downloadSpeed < 25.0
    ensures tags[2] == VideoCalls <==> result.ping <= 40 && result.downloadSpeed >= 20.0
  {
    tags := [];
    if result.ping <= 25 && result.downloadSpeed >= 50.0 {
      tags := tags + [GamingReady];
    } else {
      tags := tags + [GamingMid];
    }
    if result.downloadSpeed >= 60.0 {
      tags := tags + [Streaming4K];
    } else if result.downloadSpeed >= 25.0 {
      tags := tags + [StreamingHd];
    } else {
      tags := tags + [StreamingPoor];
    }
    if result.ping <= 40 && result.downloadSpeed >= 20.0 {
      tags := tags + [VideoCalls];
    } else {
      tags := tags + [CallsUnstable];
    }
  }

  /* ----------------------------- mini bars ----------------------------- */

  /** `coerceIn(0.0, 1.0)` */
  function Clamp01(x: real): (r: real)
    ensures 0.0 <= r <= 1.0
    ensures 0.0 <= x <= 1.0 ==> r == x
    ensures x < 0.0 ==> r == 0.0
    ensures x > 1.0 ==> r == 1.0
  {
    if x < 0.0 then 0.0 else if x > 1.0 then 1.0 else x
  }

  datatype Bars = Bars(download: real, upload: real, latency: real)

  /**
   * `MiniBars`: download against 200 Mbps, upload against 100 Mbps, and latency
   * quality falling from 1 at 0 ms to 0 at 150 ms.
   */
  function MiniBars(download: real, upload: real, ping: real): (b: Bars)
    ensures 0.0 <= b.download <= 1.0 && 0.0 <= b.upload <= 1.0 && 0.0 <= b.latency <= 1.0
    ensures download >= 200.0 ==> b.download == 1.0
    ensures upload >= 100.0 ==> b.upload == 1.0
    ensures ping >= 150.0 ==> b.latency == 0.0
    ensures ping <= 0.0 ==> b.latency == 1.0
    ensures 0.0 <= download <= 200.0 ==> b.download == download / 200.0
    ensures 0.0 <= upload <= 100.0 ==> b.upload == upload / 100.0
    ensures 0.0 <= ping <= 150.0 ==> b.latency == 1.0 - ping / 150.0
  {
    Bars(Clamp01(download / 200.0), Clamp01(upload / 100.0), 1.0 - Clamp01(ping / 150.0))
  }

  /** The bars of a result: the ping is passed as `result.ping.toDouble()`. */
  function BarsOf(result: SpeedResult): Bars {
    MiniBars(result.downloadSpeed, result.uploadSpeed, result.ping as real)
  }

  lemma ClampMonotone(x: real, y: real)
    requires x <= y
    ensures Clamp01(x) <= Clamp01(y)
  {
  }

  /** A higher ping never shows a better latency bar; faster transfers never show shorter bars. */
  lemma MiniBarsMonotone(d1: real, u1: real, p1: real, d2: real, u2: real, p2: real)
    requires d1 <= d2 && u1 <= u2 && p1 <= p2
    ensures MiniBars(d1, u1, p1).download <= MiniBars(d2, u2, p2).download
    ensures MiniBars(d1, u1, p1).upload <= MiniBars(d2, u2, p2).upload
    ensures MiniBars(d2, u2, p2).latency <= MiniBars(d1, u1, p1).latency
  {
    ClampMonotone(d1 / 200.0, d2 / 200.0);
    ClampMonotone(u1 / 100.0, u2 / 100.0);
    ClampMonotone(p1 / 150.0, p2 / 150.0);
  }
}
