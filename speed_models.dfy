/**
 * The records of a speed test: the domain model `SpeedResult` and the Room
 * row `HistoryEntity` it is stored as. Kotlin `Double` fields are `real`,
 * `Int`/`Long` fields are `int`, nullable strings are `Option<string>`, and a
 * `java.util.Date` is its epoch-millisecond reading.
 */
module SpeedModels {
  import opened Wrappers

  datatype Date = Date(time: int)

  datatype SpeedResult = SpeedResult(
    id: int,
    downloadSpeed: real,
    maxDownloadSpeed: real,
    avgDownloadSpeed: real,
    uploadSpeed: real,
    maxUploadSpeed: real,
    avgUploadSpeed: real,
    ping: int,
    jitter: int,
    packetLoss: real,
    bufferbloat: int,
    serverName: string,
    serverLocation: string,
    networkType: string,
    ssid: Option<string>,
    isp: Option<string>,
    ipAddress: Option<string>,
    signalStrength: int,
    timestamp: Date)

  /**
   * `SpeedResult(serverName = …)` with every other parameter at its default;
   * the default `Date()` is the clock reading `now`.
   */
  function Labelled(serverName: string, now: Date): (r: SpeedResult)
    ensures r.serverName == serverName && r.timestamp == now
    ensures r.downloadSpeed == 0.0 && r.maxDownloadSpeed == 0.0 && r.avgDownloadSpeed == 0.0
    ensures r.uploadSpeed == 0.0 && r.maxUploadSpeed == 0.0 && r.avgUploadSpeed == 0.0
    ensures r.ping == 0 && r.jitter == 0 && r.packetLoss == 0.0
  {
    SpeedResult(0, 0.0, 0.0, 0.0, 0.0, 0.0, 0.0, 0, 0, 0.0, 0, serverName, "", "", None, None, None, 0, now)
  }

  datatype HistoryEntity = HistoryEntity(
    id: int,
    download: real,
    maxDownload: real,
    avgDownload: real,
    upload: real,
    maxUpload: real,
    avgUpload: real,
    ping: int,
    jitter: int,
    packetLoss: real,
    bufferbloat: int,
    serverName: string,
    serverLocation: string,
    networkType: string,
    ssid: Option<string>,
    isp: Option<string>,
    ipAddress: Option<string>,
    signalStrength: int,
    timestamp: int)
}
