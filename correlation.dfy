/** Cross-sniffer corroboration: a window keeps only the detections whose
    fingerprint every sniffer of the window has seen, and only when enough
    sniffers took part. */
module Correlation {
  import opened Wrappers
  import opened Types
  import opened Sorting
  import opened Grouping

  /** The hash column. The source stores the SHA-1 digest of ie + ssid; two
      digests are taken to be equal exactly when the strings are. */
  function Fingerprint(r: DetectionRecord): string {
    r.ie + r.ssid
  }

  function ApOf(r: DetectionRecord): string {
    r.ap
  }

  /** data_frame.ap.unique() */
  function DistinctAps(w: seq<DetectionRecord>): seq<string> {
    DistinctBy(w, ApOf)
  }

  /** set(df['hash']) for the rows of one sniffer. */
  function HashesOf(w: seq<DetectionRecord>, ap: string): set<string> {
    set i | 0 <= i < |w| && w[i].ap == ap :: Fingerprint(w[i])
  }

  /** set(dfs[0]).intersection(*[set(df) for df in dfs[1:]]) */
  function IntersectAll(w: seq<DetectionRecord>, aps: seq<string>): set<string>
    requires |aps| > 0
  {
    if |aps| == 1 then HashesOf(w, aps[0]) else HashesOf(w, aps[0]) * IntersectAll(w, aps[1..])
  }

  /** A fingerprint survives the intersection exactly when every sniffer saw it. */
  lemma {:induction false} IntersectAllMeans(w: seq<DetectionRecord>, aps: seq<string>, k: string)
    requires |aps| > 0
    ensures k in IntersectAll(w, aps) <==> forall j :: 0 <= j < |aps| ==> k in HashesOf(w, aps[j])
  {
    if |aps| > 1 {
      IntersectAllMeans(w, aps[1..], k);
      assert forall j :: 1 <= j < |aps| ==> aps[j] == aps[1..][j - 1];
    }
  }

  /** The record's fingerprint was reported by every sniffer of the window. */
  predicate Corroborated(w: seq<DetectionRecord>, x: DetectionRecord) {
    forall j :: 0 <= j < |DistinctAps(w)| ==> Fingerprint(x) in HashesOf(w, DistinctAps(w)[j])
  }

  function InCommon(common: set<string>): DetectionRecord -> bool {
    (r: DetectionRecord) => Fingerprint(r) in common
  }

  /** pd.concat of each sniffer's rows whose hash is in common, sniffer by sniffer. */
  function PerSniffer(w: seq<DetectionRecord>, aps: seq<string>, common: set<string>): seq<DetectionRecord> {
    if aps == [] then []
    else Select(Select(w, ApOf, aps[0]), InCommon(common), true) + PerSniffer(w, aps[1..], common)
  }

  /** _intersect_overlapping: None when fewer sniffers than the minimum took
      part or when nothing survives. An empty window has no sniffer; the source
      would index dfs[0] there if the minimum were zero or less, and the windower
      never emits one. */
  function IntersectOverlapping(w: seq<DetectionRecord>, minDeviceDetectionRate: int): (r: Option<seq<DetectionRecord>>)
    ensures r.Some? ==> |DistinctAps(w)| >= minDeviceDetectionRate && r.value != []
  {
    var aps := DistinctAps(w);
    if |aps| >= minDeviceDetectionRate && aps != [] then
      var newDf := PerSniffer(w, aps, IntersectAll(w, aps));
      if |newDf| > 0 then Some(newDf) else None
    else None
  }

  lemma FilteredMultiplicity(w: seq<DetectionRecord>, a: string, common: set<string>, x: DetectionRecord)
    ensures multiset(Select(Select(w, ApOf, a), InCommon(common), true))[x] ==
            if x.ap == a && Fingerprint(x) in common then multiset(w)[x] else 0
  {
    var byAp := Select(w, ApOf, a);
    var kept := Select(byAp, InCommon(common), true);
    if x.ap == a && Fingerprint(x) in common {
      SelectMultiplicity(w, ApOf, a, x);
      SelectMultiplicity(byAp, InCommon(common), true, x);
    } else {
      SelectSubMultiset(byAp, InCommon(common), true);
      assert x.ap != a ==> x !in byAp;
    }
  }

  /** Every record of a listed sniffer occurs in the result as often as in the
      window when its fingerprint is common, and not at all otherwise. */
  lemma {:induction false} PerSnifferMultiplicity(w: seq<DetectionRecord>, aps: seq<string>,
                                                 common: set<string>, x: DetectionRecord)
    requires Distinct(aps)
    ensures multiset(PerSniffer(w, aps, common))[x] ==
            if x.ap in aps && Fingerprint(x) in common then multiset(w)[x] else 0
  {
    if aps != [] {
      PerSnifferMultiplicity(w, aps[1..], common, x);
      FilteredMultiplicity(w, aps[0], common, x);
      assert x.ap == aps[0] ==> x.ap !in aps[1..];
      assert x.ap in aps <==> x.ap == aps[0] || x.ap in aps[1..];
    }
  }

  lemma CorroboratedMeans(w: seq<DetectionRecord>, x: DetectionRecord)
    requires w != []
    ensures |DistinctAps(w)| > 0
    ensures Corroborated(w, x) <==> Fingerprint(x) in IntersectAll(w, DistinctAps(w))
  {
    assert ApOf(w[0]) in DistinctAps(w);
    IntersectAllMeans(w, DistinctAps(w), Fingerprint(x));
  }

  /** What survives: each record of the window exactly as often as in the window
      when it is corroborated, and nothing else. */
  lemma SurvivorsAreCorroborated(w: seq<DetectionRecord>, minDeviceDetectionRate: int, x: DetectionRecord)
    requires IntersectOverlapping(w, minDeviceDetectionRate).Some?
    ensures multiset(IntersectOverlapping(w, minDeviceDetectionRate).value)[x] ==
            if Corroborated(w, x) then multiset(w)[x] else 0
  {
    var aps := DistinctAps(w);
    PerSnifferMultiplicity(w, aps, IntersectAll(w, aps), x);
    CorroboratedMeans(w, x);
    if x in w {
      var i :| 0 <= i < |w| && w[i] == x;
      assert ApOf(w[i]) in aps;
    }
  }

  /** A corroborated record of the window survives. */
  lemma CorroboratedSurvives(w: seq<DetectionRecord>, i: int)
    requires 0 <= i < |w| && Corroborated(w, w[i])
    ensures PerSniffer(w, DistinctAps(w), IntersectAll(w, DistinctAps(w))) != []
  {
    var aps := DistinctAps(w);
    PerSnifferMultiplicity(w, aps, IntersectAll(w, aps), w[i]);
    CorroboratedMeans(w, w[i]);
    assert ApOf(w[i]) in aps;
  }

  /** Whatever survives is a corroborated record of the window. */
  lemma SurvivorIsCorroborated(w: seq<DetectionRecord>)
    requires w != [] && PerSniffer(w, DistinctAps(w), IntersectAll(w, DistinctAps(w))) != []
    ensures exists i :: 0 <= i < |w| && Corroborated(w, w[i])
  {
    var aps := DistinctAps(w);
    var newDf := PerSniffer(w, aps, IntersectAll(w, aps));
    var x := newDf[0];
    PerSnifferMultiplicity(w, aps, IntersectAll(w, aps), x);
    CorroboratedMeans(w, x);
    assert x in multiset(newDf);
    assert x in multiset(w);
    var i :| 0 <= i < |w| && w[i] == x;
  }

  /** The window is dropped exactly when too few sniffers took part or no record
      is corroborated by all of them. */
  lemma IntersectOverlappingNone(w: seq<DetectionRecord>, minDeviceDetectionRate: int)
    ensures IntersectOverlapping(w, minDeviceDetectionRate).None? <==>
      |DistinctAps(w)| < minDeviceDetectionRate || w == [] ||
      forall i :: 0 <= i < |w| ==> !Corroborated(w, w[i])
  {
    if w != [] {
      assert ApOf(w[0]) in DistinctAps(w);
      if |DistinctAps(w)| >= minDeviceDetectionRate {
        if exists i :: 0 <= i < |w| && Corroborated(w, w[i]) {
          var i :| 0 <= i < |w| && Corroborated(w, w[i]);
          CorroboratedSurvives(w, i);
        } else if PerSniffer(w, DistinctAps(w), IntersectAll(w, DistinctAps(w))) != [] {
          SurvivorIsCorroborated(w);
        }
      }
    }
  }
}
