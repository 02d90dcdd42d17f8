/** The identity resolver: for each localized group of a window it consults the
    registry and decides whether the (ie, ssid) pair is a repeat within the same
    burst, a returning non-randomized ssid, a new alias of the ssid last seen
    with the same ie, an unrelated ssid, or a first sighting; then it records
    the decision in the summary. Afterwards every region is appended to the
    registry under the window's running median. */
module Resolution {
  import opened Wrappers
  import opened Types
  import opened Builtins
  import opened DataBase
  import opened Localizer

  /** The analyzer settings the resolver reads, with the localizer's bin size and
      shape distance. */
  datatype Params = Params(inBurstThresholdS: int, walkingSpeedKmPerH: real,
                           meterPerBin: real, shapeDistance: (Shape, Shape) -> real)

  datatype Decision =
    | SameBurst               // (ie, ssid) known, last stored less than the threshold ago
    | Reappeared              // (ie, ssid) known, last stored longer ago
    | Aliased(latest: string) // ie known; the latest ssid's regions are within reach
    | Unrelated(latest: string) // ie known; no region pair is within reach
    | FirstSighting           // ie never seen

  /** The exceptions that abort the batch: the explicit raise on a negative
      elapsed time, and is_equal failing (an empty region, or min() of no
      distances when the new group has no region). */
  datatype Failure = NegativeElapsed | DistanceFailed

  /** int(x / 1e9): division truncated toward zero. */
  function TruncDiv(a: int, b: int): (q: int)
    requires b > 0
    ensures a >= 0 ==> q * b <= a < q * b + b
    ensures a < 0 ==> q * b - b < a <= q * b
  {
    if a >= 0 then a / b else -((-a) / b)
  }

  /** The elapsed whole seconds are negative exactly when the median is at least
      a full second before the latest stored key; smaller deficits pass as 0. */
  lemma ElapsedSign(a: int)
    ensures TruncDiv(a, NanosPerSecond) < 0 <==> a <= -NanosPerSecond
    ensures -NanosPerSecond < a < NanosPerSecond ==> TruncDiv(a, NanosPerSecond) == 0
  {
  }

  /** The greatest timestamp key of every ssid of a document. */
  ghost function SsidMaxima(d: IeDocument): set<string>
    requires DocumentValid(d)
  {
    set s | s in d.ssids :: SsidMax(d, s)
  }

  /** max(v.keys()) for one ssid field. */
  ghost function SsidMax(d: IeDocument, s: string): string
    requires DocumentValid(d) && s in d.ssids
  {
    LexMax(d.ssids[s].Keys)
  }

  /** max([max(v.keys()) for each ssid field]): string maxima, as stored. */
  ghost function LatestKey(d: IeDocument): (k: string)
    requires DocumentValid(d)
    ensures exists s :: s in d.ssids && k in d.ssids[s]
    ensures forall s, j :: s in d.ssids && j in d.ssids[s] ==> LexLe(j, k)
  {
    assert d.ssidOrder[0] in d.ssids;
    assert SsidMax(d, d.ssidOrder[0]) in SsidMaxima(d);
    var k := LexMax(SsidMaxima(d));
    forall s, j | s in d.ssids && j in d.ssids[s] ensures LexLe(j, k) {
      var m := SsidMax(d, s);
      assert m in SsidMaxima(d);
      LexLeTransitive(j, m, k);
    }
    k
  }

  /** The first ssid, in field order, whose time line holds the key. */
  function FirstHolding(order: seq<string>, ssids: map<string, TimeLine>, key: string): (r: Option<string>)
    ensures r.Some? ==> r.value in order && r.value in ssids && key in ssids[r.value]
    ensures r.Some? <==> exists i :: 0 <= i < |order| && order[i] in ssids && key in ssids[order[i]]
  {
    if order == [] then None
    else if order[0] in ssids && key in ssids[order[0]] then Some(order[0])
    else FirstHolding(order[1..], ssids, key)
  }

  /** No ssid listed before the one found holds the key. */
  lemma {:induction false} FirstHoldingIsFirst(order: seq<string>, ssids: map<string, TimeLine>, key: string)
    requires FirstHolding(order, ssids, key).Some?
    ensures exists i :: 0 <= i < |order| && order[i] == FirstHolding(order, ssids, key).value &&
              forall j :: 0 <= j < i ==> !(order[j] in ssids && key in ssids[order[j]])
  {
    if !(order[0] in ssids && key in ssids[order[0]]) {
      var r := FirstHolding(order, ssids, key);
      FirstHoldingIsFirst(order[1..], ssids, key);
      var i :| 0 <= i < |order[1..]| && order[1..][i] == r.value &&
            forall j :: 0 <= j < i ==> !(order[1..][j] in ssids && key in ssids[order[1..][j]]);
      assert order[i + 1] == r.value;
      assert forall j :: 1 <= j < i + 1 ==> order[j] == order[1..][j - 1];
    }
  }

  /** The ssid holding the latest key, and the key's regions. */
  lemma LatestKeyHeld(d: IeDocument)
    requires DocumentValid(d)
    ensures FirstHolding(d.ssidOrder, d.ssids, LatestKey(d)).Some?
    ensures ParsePythonInt(LatestKey(d)).Some?
  {
    var k := LatestKey(d);
    var s :| s in d.ssids && k in d.ssids[s];
    assert s in d.ssidOrder;
    var i :| 0 <= i < |d.ssidOrder| && d.ssidOrder[i] == s;
    assert d.ssidOrder[i] in d.ssids && k in d.ssids[d.ssidOrder[i]];
  }

  /** Case B once the elapsed seconds and the comparison with the latest ssid's
      regions are known: a negative elapsed time raises before any comparison. */
  function CaseBOutcome(elapsed: int, latestSsid: string, comparison: EqualOutcome): (r: Result<Decision, Failure>)
    ensures r == Err(NegativeElapsed) <==> elapsed < 0
    ensures r.Ok? ==> (r.value.Aliased? || r.value.Unrelated?) && r.value.latest == latestSsid
    ensures elapsed >= 0 ==>
      (comparison.Close? <==> r == Ok(Aliased(latestSsid))) &&
      (comparison.Apart? <==> r == Ok(Unrelated(latestSsid))) &&
      (comparison.Failed? <==> r == Err(DistanceFailed))
  {
    if elapsed < 0 then Err(NegativeElapsed)
    else
      match comparison
      case Close(_, _, _) => Ok(Aliased(latestSsid))
      case Apart(_) => Ok(Unrelated(latestSsid))
      case Failed => Err(DistanceFailed)
  }

  /** Case B's decision: the entry is compared with the regions of the latest
      ssid of its ie's document, at the latest key. */
  ghost function CompareWithLatest(d: IeDocument, entry: LocalizedGroup, median: int, p: Params): Result<Decision, Failure>
    requires DocumentValid(d)
  {
    LatestKeyHeld(d);
    CompareAt(d, LatestKey(d), entry, median, p)
  }

  /** The comparison of case B against the ssid that holds the given key. */
  function CompareAt(d: IeDocument, key: string, entry: LocalizedGroup, median: int, p: Params): Result<Decision, Failure>
    requires FirstHolding(d.ssidOrder, d.ssids, key).Some? && ParsePythonInt(key).Some?
  {
    var elapsed := TruncDiv(median - ParsePythonInt(key).value, NanosPerSecond);
    var latestSsid := FirstHolding(d.ssidOrder, d.ssids, key).value;
    CaseBOutcome(elapsed, latestSsid, IsEqualSpec(d.ssids[latestSsid][key], entry.localization, elapsed as real,
                                                  p.walkingSpeedKmPerH, p.meterPerBin, p.shapeDistance))
  }

  /** The decision for one entry, given the registry before the window's
      appends and the window's running median. */
  ghost function Resolve(state: State, entry: LocalizedGroup, median: int, p: Params): Result<Decision, Failure>
    requires StateValid(state)
  {
    if entry.ie in state && entry.ssid in state[entry.ie].ssids then
      // Case A: the pair was stored before.
      var latest := ParsePythonInt(LexMax(state[entry.ie].ssids[entry.ssid].Keys)).value;
      if median - latest < p.inBurstThresholdS * NanosPerSecond then Ok(SameBurst) else Ok(Reappeared)
    else if entry.ie in state then
      // Case B: the ie was stored with other ssids.
      CompareWithLatest(state[entry.ie], entry, median, p)
    else
      // Case C: the ie is new.
      Ok(FirstSighting)
  }

  /** The summary writes of a decision. */
  function Apply(summary: Summary, entry: LocalizedGroup, decision: Decision): Summary {
    match decision
    case SameBurst => summary
    case Reappeared => ApplySummary(summary, IncreaseSeenCountOnSsid(entry))
    case Aliased(latest) => ApplySummary(summary, AddSummaryCombinationEntry(latest, entry.ssid))
    case Unrelated(latest) => IncrementAll(summary, [latest, entry.ssid])
    case FirstSighting => ApplySummary(summary, AddSummarySingleEntry(entry.ssid))
  }

  /** The resolver over a window's entries in order; the first failure stops it,
      keeping the writes made before. */
  ghost function ResolveAll(state: State, summary: Summary, entries: seq<LocalizedGroup>, median: int, p: Params)
    : (Summary, Option<Failure>)
    requires StateValid(state)
    decreases |entries|
  {
    if entries == [] then (summary, None)
    else match Resolve(state, entries[0], median, p)
      case Err(f) => (summary, Some(f))
      case Ok(decision) => ResolveAll(state, Apply(summary, entries[0], decision), entries[1..], median, p)
  }

  // ---------------------------------------------------------------------------
  // The three cases
  // ---------------------------------------------------------------------------

  /** How much a decision adds to a ssid's count. */
  function Bumps(entry: LocalizedGroup, decision: Decision, x: string): nat {
    match decision
    case SameBurst => 0
    case Reappeared => if x == entry.ssid then 1 else 0
    case Aliased(_) => 0
    case Unrelated(latest) => (if x == latest then 1 else 0) + (if x == entry.ssid then 1 else 0)
    case FirstSighting => if x == entry.ssid then 1 else 0
  }

  /** The aliases a decision adds to a ssid's set. */
  function NewAliases(entry: LocalizedGroup, decision: Decision, x: string): set<string> {
    if decision.Aliased? && x == decision.latest then {entry.ssid} else {}
  }

  /** The summary writes of each decision: a burst repeat writes nothing, a
      reappearance and a first sighting count the entry's ssid once, an alias
      joins the latest ssid's alias set without counting, and an unrelated pair
      counts both ssids once. */
  lemma ApplyEffect(summary: Summary, entry: LocalizedGroup, decision: Decision, x: string)
    ensures SeenOf(Apply(summary, entry, decision), x) == SeenOf(summary, x) + Bumps(entry, decision, x)
    ensures AliasOf(Apply(summary, entry, decision), x) == AliasOf(summary, x) + NewAliases(entry, decision, x)
  {
    match decision
    case SameBurst =>
    case Reappeared => IncCounts(summary, entry.ssid, 1, x);
    case FirstSighting => IncCounts(summary, entry.ssid, 1, x);
    case Aliased(l) => AddToSetUnion(summary, l, entry.ssid, x);
    case Unrelated(l) =>
      IncrementAllCounts(summary, [l, entry.ssid], x);
      assert multiset([l, entry.ssid])[x] == (if x == l then 1 else 0) + (if x == entry.ssid then 1 else 0);
  }

  /** Case A: a registered pair is a burst repeat exactly when the median is less
      than the threshold after its latest stored key, and a reappearance
      otherwise; it never fails. */
  lemma CaseA(state: State, entry: LocalizedGroup, median: int, p: Params)
    requires StateValid(state)
    requires entry.ie in state && entry.ssid in state[entry.ie].ssids
    ensures ParsePythonInt(LexMax(state[entry.ie].ssids[entry.ssid].Keys)).Some?
    ensures Resolve(state, entry, median, p) ==
      if median - ParsePythonInt(LexMax(state[entry.ie].ssids[entry.ssid].Keys)).value < p.inBurstThresholdS * NanosPerSecond
      then Ok(SameBurst) else Ok(Reappeared)
  {
    assert DocumentValid(state[entry.ie]);
  }

  /** Case B: the ie is known but not with this ssid. The batch fails on a
      negative elapsed time, that is when the median is a full second or more
      before the latest key. */
  lemma CaseBElapsed(state: State, entry: LocalizedGroup, median: int, p: Params)
    requires StateValid(state)
    requires entry.ie in state && entry.ssid !in state[entry.ie].ssids
    ensures ParsePythonInt(LatestKey(state[entry.ie])).Some?
    ensures Resolve(state, entry, median, p) == Err(NegativeElapsed) <==>
      median - ParsePythonInt(LatestKey(state[entry.ie])).value <= -NanosPerSecond
  {
    var d := state[entry.ie];
    LatestKeyHeld(d);
    ElapsedSign(median - ParsePythonInt(LatestKey(d)).value);
  }

  /** Case B, otherwise: the current ssid becomes an alias of the latest ssid when
      is_equal finds a pair within reach, and the two are unrelated when it finds
      none; the latest ssid is another ssid of the same document. */
  lemma CaseBDecision(state: State, entry: LocalizedGroup, median: int, p: Params)
    requires StateValid(state)
    requires entry.ie in state && entry.ssid !in state[entry.ie].ssids
    requires Resolve(state, entry, median, p).Ok?
    ensures var d := state[entry.ie];
      var r := Resolve(state, entry, median, p).value;
      (r.Aliased? || r.Unrelated?) &&
      r.latest == FirstHolding(d.ssidOrder, d.ssids, LatestKey(d)).value &&
      r.latest in d.ssids && r.latest != entry.ssid
  {
    LatestKeyHeld(state[entry.ie]);
  }

  /** Case B on the summary, once the elapsed time is not negative: the entry is
      compared with the regions the latest ssid stored at the latest key. Within
      reach, the entry's ssid joins the latest ssid's aliases and no count
      changes; out of reach, both ssids are counted once more and no alias set
      changes; a failing comparison aborts the batch. */
  lemma CaseBSummary(state: State, summary: Summary, entry: LocalizedGroup, median: int, p: Params, x: string)
    requires StateValid(state)
    requires entry.ie in state && entry.ssid !in state[entry.ie].ssids
    ensures var d := state[entry.ie];
      FirstHolding(d.ssidOrder, d.ssids, LatestKey(d)).Some? && ParsePythonInt(LatestKey(d)).Some?
    ensures var d := state[entry.ie];
      var key := LatestKey(d);
      var latest := FirstHolding(d.ssidOrder, d.ssids, key).value;
      var elapsed := TruncDiv(median - ParsePythonInt(key).value, NanosPerSecond);
      var outcome := IsEqualSpec(d.ssids[latest][key], entry.localization, elapsed as real,
                                 p.walkingSpeedKmPerH, p.meterPerBin, p.shapeDistance);
      var r := Resolve(state, entry, median, p);
      elapsed >= 0 ==>
        (outcome.Close? ==>
           (r.Ok? &&
            var after := Apply(summary, entry, r.value);
            SeenOf(after, x) == SeenOf(summary, x) &&
            AliasOf(after, x) == AliasOf(summary, x) + (if x == latest then {entry.ssid} else {}))) &&
        (outcome.Apart? ==>
           (r.Ok? &&
            var after := Apply(summary, entry, r.value);
            SeenOf(after, x) == SeenOf(summary, x) + (if x == latest then 1 else 0) + (if x == entry.ssid then 1 else 0) &&
            AliasOf(after, x) == AliasOf(summary, x))) &&
        (outcome.Failed? ==> r == Err(DistanceFailed))
  {
    LatestKeyHeld(state[entry.ie]);
    var r := Resolve(state, entry, median, p);
    if r.Ok? {
      ApplyEffect(summary, entry, r.value, x);
    }
  }

  /** Case C: a new ie is a first sighting. */
  lemma CaseC(state: State, entry: LocalizedGroup, median: int, p: Params)
    requires StateValid(state) && entry.ie !in state
    ensures Resolve(state, entry, median, p) == Ok(FirstSighting)
  {
  }

  /** Case A on the summary: a burst repeat leaves the summary as it was; a
      reappearance counts the entry's ssid once more and changes no alias set. */
  lemma CaseASummary(state: State, summary: Summary, entry: LocalizedGroup, median: int, p: Params, x: string)
    requires StateValid(state)
    requires entry.ie in state && entry.ssid in state[entry.ie].ssids
    ensures ParsePythonInt(LexMax(state[entry.ie].ssids[entry.ssid].Keys)).Some?
    ensures Resolve(state, entry, median, p).Ok?
    ensures var after := Apply(summary, entry, Resolve(state, entry, median, p).value);
      var latest := ParsePythonInt(LexMax(state[entry.ie].ssids[entry.ssid].Keys)).value;
      if median - latest < p.inBurstThresholdS * NanosPerSecond then after == summary
      else SeenOf(after, x) == SeenOf(summary, x) + (if x == entry.ssid then 1 else 0) &&
           AliasOf(after, x) == AliasOf(summary, x)
  {
    CaseA(state, entry, median, p);
    ApplyEffect(summary, entry, Resolve(state, entry, median, p).value, x);
  }

  /** Case C on the summary: a new ie counts the entry's ssid once more and
      changes no alias set. */
  lemma CaseCSummary(state: State, summary: Summary, entry: LocalizedGroup, median: int, p: Params, x: string)
    requires StateValid(state) && entry.ie !in state
    ensures Resolve(state, entry, median, p).Ok?
    ensures var after := Apply(summary, entry, Resolve(state, entry, median, p).value);
      SeenOf(after, x) == SeenOf(summary, x) + (if x == entry.ssid then 1 else 0) &&
      AliasOf(after, x) == AliasOf(summary, x)
  {
    CaseC(state, entry, median, p);
    ApplyEffect(summary, entry, FirstSighting, x);
  }

  /** One entry's decision leaves every other ssid's count and aliases alone. */
  lemma ResolveUntouched(state: State, summary: Summary, e: LocalizedGroup, median: int, p: Params, x: string)
    requires StateValid(state)
    requires Resolve(state, e, median, p).Ok?
    requires e.ssid != x && (e.ie in state ==> x !in state[e.ie].ssids)
    ensures var d := Resolve(state, e, median, p).value;
      SeenOf(Apply(summary, e, d), x) == SeenOf(summary, x) && AliasOf(Apply(summary, e, d), x) == AliasOf(summary, x)
  {
    var d := Resolve(state, e, median, p).value;
    ApplyEffect(summary, e, d, x);
    if e.ie in state && e.ssid !in state[e.ie].ssids {
      CaseBDecision(state, e, median, p);
    }
  }

  /** The resolver never touches a ssid outside the window's entries and the
      documents of their ies. */
  lemma {:induction false} ResolveAllUntouched(state: State, summary: Summary, entries: seq<LocalizedGroup>,
                                               median: int, p: Params, x: string)
    requires StateValid(state)
    requires forall e :: e in entries ==> e.ssid != x && (e.ie in state ==> x !in state[e.ie].ssids)
    ensures SeenOf(ResolveAll(state, summary, entries, median, p).0, x) == SeenOf(summary, x)
    ensures AliasOf(ResolveAll(state, summary, entries, median, p).0, x) == AliasOf(summary, x)
    decreases |entries|
  {
    if entries != [] {
      var e := entries[0];
      var r := Resolve(state, e, median, p);
      if r.Ok? {
        assert entries[0] in entries;
        ResolveUntouched(state, summary, e, median, p, x);
        assert forall e :: e in entries[1..] ==> e in entries;
        ResolveAllUntouched(state, Apply(summary, e, r.value), entries[1..], median, p, x);
      }
    }
  }

  // ---------------------------------------------------------------------------
  // _to_database
  // ---------------------------------------------------------------------------

  /** Push each region of one entry, in order. */
  function PushAll(state: State, entry: LocalizedGroup, median: int, regions: seq<Region>): State
    decreases |regions|
  {
    if regions == [] then state
    else PushAll(ApplyPush(state, AddRegionToIeSsidTimestampCombination(entry, median, regions[0])), entry, median, regions[1..])
  }

  /** Push the regions of every entry, entry by entry. */
  function AppendAll(state: State, entries: seq<LocalizedGroup>, median: int): State
    decreases |entries|
  {
    if entries == [] then state
    else AppendAll(PushAll(state, entries[0], median, entries[0].localization), entries[1..], median)
  }

  /** The regions of the entries with the given pair, concatenated in order. */
  function RegionsOf(entries: seq<LocalizedGroup>, ie: string, ssid: string): seq<Region> {
    if entries == [] then []
    else (if entries[0].ie == ie && entries[0].ssid == ssid then entries[0].localization else []) +
         RegionsOf(entries[1..], ie, ssid)
  }

  lemma {:induction false} PushAllLookup(state: State, entry: LocalizedGroup, median: int, regions: seq<Region>,
                                         ie: string, ssid: string, key: string)
    ensures Lookup(PushAll(state, entry, median, regions), ie, ssid, key) ==
      Lookup(state, ie, ssid, key) +
      (if ie == entry.ie && ssid == entry.ssid && key == TimestampKey(median) then regions else [])
    decreases |regions|
  {
    if regions != [] {
      var u := AddRegionToIeSsidTimestampCombination(entry, median, regions[0]);
      PushAppends(state, u, ie, ssid, key);
      PushAllLookup(ApplyPush(state, u), entry, median, regions[1..], ie, ssid, key);
      assert regions == [regions[0]] + regions[1..];
    }
  }

  /** _to_database appends every region of every entry, in order, to the list of
      the entry's pair under the running median, and changes no other list. */
  lemma {:induction false} AppendAllLookup(state: State, entries: seq<LocalizedGroup>, median: int,
                                           ie: string, ssid: string, key: string)
    ensures Lookup(AppendAll(state, entries, median), ie, ssid, key) ==
      Lookup(state, ie, ssid, key) + (if key == TimestampKey(median) then RegionsOf(entries, ie, ssid) else [])
    decreases |entries|
  {
    if entries != [] {
      PushAllLookup(state, entries[0], median, entries[0].localization, ie, ssid, key);
      AppendAllLookup(PushAll(state, entries[0], median, entries[0].localization), entries[1..], median, ie, ssid, key);
    }
  }

  lemma {:induction false} PushAllValid(state: State, entry: LocalizedGroup, median: int, regions: seq<Region>)
    requires StateValid(state)
    ensures StateValid(PushAll(state, entry, median, regions))
    decreases |regions|
  {
    if regions != [] {
      ParseIntToString(median);
      PushValid(state, AddRegionToIeSsidTimestampCombination(entry, median, regions[0]));
      PushAllValid(ApplyPush(state, AddRegionToIeSsidTimestampCombination(entry, median, regions[0])),
                   entry, median, regions[1..]);
    }
  }

  /** Appending keeps every document valid, so the next window's resolver can
      read every key back. */
  lemma {:induction false} AppendAllValid(state: State, entries: seq<LocalizedGroup>, median: int)
    requires StateValid(state)
    ensures StateValid(AppendAll(state, entries, median))
    decreases |entries|
  {
    if entries != [] {
      PushAllValid(state, entries[0], median, entries[0].localization);
      AppendAllValid(PushAll(state, entries[0], median, entries[0].localization), entries[1..], median);
    }
  }

  // ---------------------------------------------------------------------------
  // The computations of _interpret_results
  // ---------------------------------------------------------------------------

  /** A string that is one of the per-ssid maxima and no smaller than any of
      them is the latest key. */
  lemma LatestFromOrder(d: IeDocument, latest: string)
    requires DocumentValid(d)
    requires exists j :: 0 <= j < |d.ssidOrder| && latest == SsidMax(d, d.ssidOrder[j])
    requires forall j :: 0 <= j < |d.ssidOrder| ==> LexLe(SsidMax(d, d.ssidOrder[j]), latest)
    ensures latest == LatestKey(d)
  {
    var j :| 0 <= j < |d.ssidOrder| && latest == SsidMax(d, d.ssidOrder[j]);
    assert latest in SsidMaxima(d);
    forall m | m in SsidMaxima(d) ensures LexLe(m, latest) {
      var s :| s in d.ssids && m == SsidMax(d, s);
      var i :| 0 <= i < |d.ssidOrder| && d.ssidOrder[i] == s;
    }
    LexMaxUnique(latest, LatestKey(d), SsidMaxima(d));
  }

  /** max([max(v.keys()) for k, v in equal_ie.items()]), field by field. */
  method LatestEntry(d: IeDocument) returns (latest: string)
    requires DocumentValid(d)
    ensures latest == LatestKey(d)
  {
    latest := MaxString(d.ssids[d.ssidOrder[0]].Keys);
    var i := 1;
    while i < |d.ssidOrder|
      invariant 1 <= i <= |d.ssidOrder|
      invariant exists j :: 0 <= j < i && latest == SsidMax(d, d.ssidOrder[j])
      invariant forall j :: 0 <= j < i ==> LexLe(SsidMax(d, d.ssidOrder[j]), latest)
      decreases |d.ssidOrder| - i
    {
      var m := MaxString(d.ssids[d.ssidOrder[i]].Keys);
      assert m == SsidMax(d, d.ssidOrder[i]);
      LexLeTotal(latest, m);
      if LexLe(latest, m) {
        forall j | 0 <= j < i ensures LexLe(SsidMax(d, d.ssidOrder[j]), m) {
          LexLeTransitive(SsidMax(d, d.ssidOrder[j]), latest, m);
        }
        latest := m;
      }
      i := i + 1;
    }
    LatestFromOrder(d, latest);
  }
}
