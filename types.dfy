/** The values that flow through the analysis pipeline. */
module Types {
  /** Capture times are integer nanoseconds since the epoch. */
  const NanosPerSecond: int := 1_000_000_000

  /** One probe request as a sniffer reported it: the sniffer (access point) name,
      the capture time in nanoseconds since the epoch, the signal strength in dBm,
      the information-element fingerprint and the claimed SSID. */
  datatype DetectionRecord = DetectionRecord(ap: string, epoch: int, rssi: int, ie: string, ssid: string)

  /** A cell of the localization grid, in bin coordinates. */
  datatype Point = Point(x: int, y: int)

  /** A region of presence: a convex polygon (three or more vertices), a segment
      (two) or a single cell (one). */
  type Region = seq<Point>

  /** Sniffer name -> the rssi readings it contributed to a group, in record order. */
  type Measurement = map<string, seq<int>>

  /** The detections of one (information element, ssid) pair within a window. */
  datatype Group = Group(ie: string, ssid: string, measurement: Measurement)

  /** A group after localization: the regions where the transmitter may be. */
  datatype LocalizedGroup = LocalizedGroup(ie: string, ssid: string, localization: seq<Region>)
}
