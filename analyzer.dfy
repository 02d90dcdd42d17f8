/** The analysis pipeline of one venue: the windower's pending buffer, the
    cross-sniffer intersection, the per-(ie, ssid) aggregation with its running
    median, localization, identity resolution against the registry, and the
    appends to the registry. */
module Analyzer {
  import opened Wrappers
  import opened Types
  import opened Sorting
  import opened Grouping
  import opened Windowing
  import opened Correlation
  import opened Aggregation
  import opened DataBase
  import opened Resolution
  import Builtins
  import L = Localizer

  /** The four numbers the summary reports. */
  datatype SummaryCounts = SummaryCounts(uniqueIds: nat, uniquelySeenIds: nat, seenMultipleTimes: nat,
                                         randomizingDevices: nat, nonRandomizingDevices: nat)

  class ScavengerAnalyzer {
    const localizer: L.Localizer
    const database: Registry
    const timeIntervalS: int
    const assumedWalkingSpeedKmPerH: real
    const inBurstThresholdS: int
    const minDeviceDetectionRate: int
    const verbosity: int
    /** The median capture time of the window being processed, once there is one. */
    var runningMedian: Option<int>
    /** The windower's accumulated state: the records not yet flushed. */
    var buffer: seq<DetectionRecord>

    ghost predicate Valid()
      reads this, database
    {
      database.Valid() && timeIntervalS > 0
    }

    /** The settings the resolver reads. */
    function Settings(): Params {
      Params(inBurstThresholdS, assumedWalkingSpeedKmPerH, localizer.meterPerBin, localizer.shapeDistance)
    }

    /** A fresh analyzer: a localizer for the access point layout, empty
        collections, no median and an empty buffer. */
    constructor (apData: seq<(string, L.Position)>, localize: Measurement -> seq<Region>,
                 shapeDistance: (L.Shape, L.Shape) -> real,
                 timeIntervalS: int := 10, assumedWalkingSpeedKmPerH: real := 2.0,
                 inBurstThresholdS: int := 1, minDeviceDetectionRate: int := 3, verbosity: int := 0)
      requires |apData| > 0 && timeIntervalS > 0
      ensures localizer.apDictPos == apData && localizer.localize == localize && localizer.shapeDistance == shapeDistance
      ensures localizer.meterPerBin == 0.5
      ensures this.timeIntervalS == timeIntervalS && this.assumedWalkingSpeedKmPerH == assumedWalkingSpeedKmPerH
      ensures this.inBurstThresholdS == inBurstThresholdS && this.minDeviceDetectionRate == minDeviceDetectionRate
      ensures this.verbosity == verbosity
      ensures fresh(database) && database.state == map[] && database.summary == map[]
      ensures runningMedian.None? && buffer == []
      ensures Valid()
    {
      localizer := new L.Localizer(apData, localize, shapeDistance);
      database := new Registry();
      this.timeIntervalS := timeIntervalS;
      this.assumedWalkingSpeedKmPerH := assumedWalkingSpeedKmPerH;
      this.inBurstThresholdS := inBurstThresholdS;
      this.minDeviceDetectionRate := minDeviceDetectionRate;
      this.verbosity := verbosity;
      runningMedian := None;
      buffer := [];
    }

    /** _create_even_intervals: appends the batch to the buffer and, once the
        buffer spans two buckets, flushes every bucket (the newest partial one
        included) as windows in ascending bucket order. None stands for the
        failing lookup of a first record when there is no record at all. */
    method CreateEvenIntervals(batch: seq<DetectionRecord>) returns (windows: Option<seq<seq<DetectionRecord>>>)
      requires Valid()
      modifies this
      ensures old(buffer) + batch == [] ==> windows.None? && buffer == []
      ensures old(buffer) + batch != [] ==> windows.Some?
      ensures var combined := old(buffer) + batch;
        combined != [] && |Windows(combined, timeIntervalS * NanosPerSecond)| > 1 ==>
          windows.value == Windows(combined, timeIntervalS * NanosPerSecond) && buffer == []
      ensures var combined := old(buffer) + batch;
        combined != [] && |Windows(combined, timeIntervalS * NanosPerSecond)| <= 1 ==>
          windows.value == [] && buffer == combined
      ensures runningMedian == old(runningMedian)
    {
      var newDataFrame := buffer + batch;
      if newDataFrame == [] {
        buffer := [];
        return None;
      }
      var splitDataFrame := Windows(newDataFrame, timeIntervalS * NanosPerSecond);
      if |splitDataFrame| > 1 {
        buffer := [];
        windows := Some(splitDataFrame);
      } else {
        buffer := newDataFrame;
        windows := Some([]);
      }
    }

    /** _group_ies_and_ssids: sets the running median and builds one group per
        (ie, ssid), applying extend_lists to each group's rows. */
    method GroupIesAndSsids(w: seq<DetectionRecord>) returns (groups: seq<Group>)
      requires |w| > 0
      modifies this
      ensures runningMedian == Some(Median(w))
      ensures groups == Groups(w)
      ensures buffer == old(buffer)
    {
      var dates := SortBy(Epochs(w), IntLe);
      runningMedian := Some(dates[|dates| / 2]);
      groups := ApplyExtendLists(w);
    }

    /** groupby(['ie', 'ssid']) with extend_lists applied to each group's rows. */
    static method ApplyExtendLists(w: seq<DetectionRecord>) returns (groups: seq<Group>)
      ensures groups == Groups(w)
    {
      var keys := GroupKeys(w);
      groups := [];
      assert |Groups(w)| == |keys|;
      for i := 0 to |keys|
        invariant groups == Groups(w)[..i]
      {
        var measurement := ExtendLists(ReadingsOf(Select(w, IeSsid, keys[i])));
        GroupKeyAt(w, i);
        assert Groups(w)[i] == Group(keys[i].0, keys[i].1, measurement);
        groups := groups + [Group(keys[i].0, keys[i].1, measurement)];
      }
    }

    /** _localize: the localizer's regions for every group's measurement. */
    function Localize(groups: seq<Group>): (entries: seq<LocalizedGroup>)
      ensures |entries| == |groups|
      ensures forall i :: 0 <= i < |groups| ==>
        entries[i].ie == groups[i].ie && entries[i].ssid == groups[i].ssid &&
        entries[i].localization == localizer.localize(groups[i].measurement)
    {
      seq(|groups|, i requires 0 <= i < |groups| =>
        LocalizedGroup(groups[i].ie, groups[i].ssid, localizer.localize(groups[i].measurement)))
    }

    /** The lookups of _interpret_results for one entry. */
    method Decide(entry: LocalizedGroup) returns (r: Result<Decision, Failure>)
      requires Valid() && runningMedian.Some?
      ensures r == Resolve(database.state, entry, runningMedian.value, Settings())
    {
      var median := runningMedian.value;
      var previousAppearance := database.GetPreviousAppearanceIeSsid(entry);
      if previousAppearance.Some? {
        assert DocumentValid(database.state[entry.ie]);
        var previousMostRecent := Builtins.MaxString(previousAppearance.value.ssids[entry.ssid].Keys);
        var timestamp := Builtins.ParsePythonInt(previousMostRecent).value;
        if median - timestamp < inBurstThresholdS * NanosPerSecond {
          r := Ok(SameBurst);
        } else {
          r := Ok(Reappeared);
        }
      } else {
        var equalIe := database.GetPreviousAppearanceIe(entry);
        if equalIe.Some? {
          assert DocumentValid(equalIe.value);
          r := DecideAgainstLatest(equalIe.value, entry, median);
        } else {
          r := Ok(FirstSighting);
        }
      }
    }

    /** The lookups of _interpret_results for an ie stored with other ssids. */
    method DecideAgainstLatest(d: IeDocument, entry: LocalizedGroup, median: int) returns (r: Result<Decision, Failure>)
      requires DocumentValid(d)
      ensures r == CompareWithLatest(d, entry, median, Settings())
    {
      var latestEntry := LatestEntry(d);
      LatestKeyHeld(d);
      r := CompareWithEntry(d, latestEntry, entry, median);
    }

    /** The comparison with the regions stored under the latest entry. */
    method CompareWithEntry(d: IeDocument, latestEntry: string, entry: LocalizedGroup, median: int)
      returns (r: Result<Decision, Failure>)
      requires FirstHolding(d.ssidOrder, d.ssids, latestEntry).Some? && Builtins.ParsePythonInt(latestEntry).Some?
      ensures r == CompareAt(d, latestEntry, entry, median, Settings())
    {
      var timeSinceLatestEntry := TruncDiv(median - Builtins.ParsePythonInt(latestEntry).value, NanosPerSecond);
      var latestKnownSsid := FirstHolding(d.ssidOrder, d.ssids, latestEntry).value;
      var latestRegionsOfPresence := d.ssids[latestKnownSsid][latestEntry];
      if timeSinceLatestEntry < 0 {
        return Err(NegativeElapsed);
      }
      var outcome := localizer.IsEqual(latestRegionsOfPresence, entry.localization,
                                       timeSinceLatestEntry as real, assumedWalkingSpeedKmPerH);
      r := CaseBOutcome(timeSinceLatestEntry, latestKnownSsid, outcome);
    }

    /** The summary writes of _interpret_results for one decided entry. */
    method Record(entry: LocalizedGroup, decision: Decision)
      modifies database
      ensures database.summary == Apply(old(database.summary), entry, decision)
      ensures database.state == old(database.state)
    {
      match decision
      case SameBurst =>
      case Reappeared => database.AddSsidToSummary(entry);
      case Aliased(latest) => database.AddSsidAlias(latest, entry);
      case Unrelated(latest) => database.AddMultipleSsids([latest, entry.ssid]);
      case FirstSighting => database.AddSingleSsid(entry.ssid);
    }

    /** _interpret_results: decides and records every entry in order against the
        registry as it stood before the window; the first failure aborts. */
    method InterpretResults(entries: seq<LocalizedGroup>) returns (failure: Option<Failure>)
      requires Valid() && runningMedian.Some?
      modifies database
      ensures (database.summary, failure) ==
        ResolveAll(old(database.state), old(database.summary), entries, runningMedian.value, Settings())
      ensures database.state == old(database.state)
      ensures Valid()
    {
      for i := 0 to |entries|
        invariant database.state == old(database.state) && Valid()
        invariant ResolveAll(database.state, database.summary, entries[i..], runningMedian.value, Settings()) ==
                  ResolveAll(old(database.state), old(database.summary), entries, runningMedian.value, Settings())
      {
        assert entries[i..][0] == entries[i] && entries[i..][1..] == entries[i + 1..];
        var r := Decide(entries[i]);
        if r.Err? {
          return Some(r.error);
        }
        Record(entries[i], r.value);
      }
      failure := None;
    }

    /** _to_database: pushes every region of every entry under the running median. */
    method ToDatabase(entries: seq<LocalizedGroup>)
      requires Valid() && runningMedian.Some?
      modifies database
      ensures database.state == AppendAll(old(database.state), entries, runningMedian.value)
      ensures database.summary == old(database.summary)
      ensures Valid()
    {
      var median := runningMedian.value;
      for i := 0 to |entries|
        invariant Valid() && database.summary == old(database.summary)
        invariant AppendAll(database.state, entries[i..], median) == AppendAll(old(database.state), entries, median)
      {
        assert entries[i..][0] == entries[i] && entries[i..][1..] == entries[i + 1..];
        var entry := entries[i];
        ghost var start := database.state;
        for j := 0 to |entry.localization|
          invariant Valid() && database.summary == old(database.summary)
          invariant PushAll(database.state, entry, median, entry.localization[j..]) ==
                    PushAll(start, entry, median, entry.localization)
        {
          assert entry.localization[j..][0] == entry.localization[j];
          assert entry.localization[j..][1..] == entry.localization[j + 1..];
          database.AddRegionToEntry(entry, median, entry.localization[j]);
        }
      }
    }

    /** One window through the rest of the pipeline: dropped unless enough
        sniffers corroborate it; otherwise every resolver lookup runs against
        the registry as it stood before the window, and the window's regions are
        appended only after all of them, unless one of them failed. */
    method ProcessWindow(w: seq<DetectionRecord>) returns (failure: Option<Failure>)
      requires Valid()
      modifies this, database
      ensures Valid() && buffer == old(buffer)
      ensures var kept := IntersectOverlapping(w, minDeviceDetectionRate);
        if kept.None? then
          failure.None? && runningMedian == old(runningMedian) &&
          database.state == old(database.state) && database.summary == old(database.summary)
        else
          var entries := Localize(Groups(kept.value));
          var median := Median(kept.value);
          var resolved := ResolveAll(old(database.state), old(database.summary), entries, median, Settings());
          runningMedian == Some(median) &&
          database.summary == resolved.0 && failure == resolved.1 &&
          database.state == (if failure.None? then AppendAll(old(database.state), entries, median) else old(database.state))
    {
      var kept := IntersectOverlapping(w, minDeviceDetectionRate);
      if kept.None? {
        return None;
      }
      var groups := GroupIesAndSsids(kept.value);
      var entries := Localize(groups);
      failure := InterpretResults(entries);
      if failure.None? {
        ToDatabase(entries);
      }
    }

    /** summary: the counts it reports. */
    function Summary(): (r: SummaryCounts)
      reads database
      ensures r.uniquelySeenIds == r.uniqueIds
      ensures r.randomizingDevices <= r.uniqueIds && r.nonRandomizingDevices <= r.uniqueIds
      ensures r.seenMultipleTimes == r.randomizingDevices + r.nonRandomizingDevices
      ensures r.uniqueIds == |database.summary.Keys|
      ensures r.randomizingDevices == |RandomizingSet(database.summary)|
      ensures r.nonRandomizingDevices == |NonRandomizingSet(database.summary)|
    {
      var nonRandomizing := database.GetNonRandomizing();
      var randomizing := database.GetRandomizing();
      SummaryCounts(database.GetDocumentCount(), database.GetUniquelySeen(), nonRandomizing + randomizing,
                    randomizing, nonRandomizing)
    }
  }
}
