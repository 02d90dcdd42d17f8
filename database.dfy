/** The identity registry and the device summary, two MongoDB collections held
    here as in-memory maps. Every write is an upsert whose effect follows the
    MongoDB operator the query builders encode: `$push` appends to a list and
    creates the missing levels, `$inc` counts from zero, `$addToSet` is a set
    union. */
module DataBase {
  import opened Wrappers
  import opened Types
  import opened Builtins
  import opened Sorting

  // ---------------------------------------------------------------------------
  // Documents
  // ---------------------------------------------------------------------------

  /** Timestamp key (the decimal text of a running median) -> the regions stored
      under it, oldest first. */
  type TimeLine = map<string, seq<Region>>

  /** The registry document of one information-element fingerprint: the ssids
      stored with it, in the order their fields were created, and each ssid's
      time line. */
  datatype IeDocument = IeDocument(ssidOrder: seq<string>, ssids: map<string, TimeLine>)

  /** ie -> its document (the upsert key is the ie, so there is at most one). */
  type State = map<string, IeDocument>

  /** The summary document of one ssid. A missing `seen` field is stored as 0 and
      a missing `alias` field as the empty set: `$inc` counts a missing field from
      0, `$gt: 1` rejects it, and `$exists` on alias holds exactly when
      `$addToSet` has run at least once. */
  datatype SummaryDocument = SummaryDocument(seen: int, alias: set<string>)

  /** ssid -> its summary document. */
  type Summary = map<string, SummaryDocument>

  /** What the resolver relies on: every stored ssid is listed once in field
      order, every time line has an entry, and every timestamp key reads back as
      an integer. */
  ghost predicate DocumentValid(d: IeDocument) {
    OrderValid(d) && TimeLinesValid(d)
  }

  ghost predicate OrderValid(d: IeDocument) {
    Distinct(d.ssidOrder) &&
    (forall s :: s in d.ssids <==> s in d.ssidOrder) &&
    |d.ssidOrder| > 0
  }

  ghost predicate TimeLinesValid(d: IeDocument) {
    (forall s :: s in d.ssids ==> d.ssids[s] != map[]) &&
    (forall s, k :: s in d.ssids && k in d.ssids[s] ==> ParsePythonInt(k).Some?)
  }

  ghost predicate StateValid(state: State) {
    forall ie :: ie in state ==> DocumentValid(state[ie])
  }

  // ---------------------------------------------------------------------------
  // Query and update builders
  // ---------------------------------------------------------------------------

  /** The part of an ie document a query demands besides the ie itself. */
  datatype Field = Whole | SsidField(ssid: string) | TimestampField(ssid: string, key: string)

  /** A registry query: the document whose ie matches, holding the field. */
  datatype StateQuery = StateQuery(ie: string, field: Field)

  /** `$push` of a region onto the list at ie / ssid / timestamp key. */
  datatype StatePush = StatePush(ie: string, ssid: string, key: string, region: Region)

  /** A summary upsert keyed by ssid. */
  datatype SummaryUpdate = Inc(ssid: string, amount: int) | AddToSet(ssid: string, alias: string)

  /** The key under which a running median is stored. */
  function TimestampKey(timestamp: int): string {
    IntToString(timestamp)
  }

  function CheckIePresence(entry: LocalizedGroup): StateQuery {
    StateQuery(entry.ie, Whole)
  }

  function CheckIeSsidPresence(entry: LocalizedGroup): StateQuery {
    StateQuery(entry.ie, SsidField(entry.ssid))
  }

  function CheckIeSsidTimestampPresence(entry: LocalizedGroup, timestamp: int): StateQuery {
    StateQuery(entry.ie, TimestampField(entry.ssid, TimestampKey(timestamp)))
  }

  function AddRegionToIeSsidTimestampCombination(entry: LocalizedGroup, timestamp: int, region: Region): StatePush {
    StatePush(entry.ie, entry.ssid, TimestampKey(timestamp), region)
  }

  function IncreaseSeenCountOnSsid(entry: LocalizedGroup): SummaryUpdate {
    Inc(entry.ssid, 1)
  }

  function AddSummarySingleEntry(previous: string): SummaryUpdate {
    Inc(previous, 1)
  }

  function AddSummaryCombinationEntry(previous: string, actual: string): SummaryUpdate {
    AddToSet(previous, actual)
  }

  // ---------------------------------------------------------------------------
  // Query and update semantics
  // ---------------------------------------------------------------------------

  predicate HasField(d: IeDocument, f: Field) {
    match f
    case Whole => true
    case SsidField(s) => s in d.ssids
    case TimestampField(s, k) => s in d.ssids && k in d.ssids[s]
  }

  /** find_one: the matching document, if any. */
  function FindOne(state: State, q: StateQuery): (r: Option<IeDocument>)
    ensures r.Some? <==> q.ie in state && HasField(state[q.ie], q.field)
    ensures r.Some? ==> r.value == state[q.ie]
  {
    if q.ie in state && HasField(state[q.ie], q.field) then Some(state[q.ie]) else None
  }

  /** The list stored at ie / ssid / key, empty when any level is missing. */
  function Lookup(state: State, ie: string, ssid: string, key: string): seq<Region> {
    if ie in state && ssid in state[ie].ssids && key in state[ie].ssids[ssid] then state[ie].ssids[ssid][key] else []
  }

  /** The document a push leaves behind, starting from d (an empty document when
      the ie was missing). */
  function PushDocument(d: IeDocument, u: StatePush): IeDocument {
    var line := if u.ssid in d.ssids then d.ssids[u.ssid] else map[];
    var list := if u.key in line then line[u.key] else [];
    var order := if u.ssid in d.ssids then d.ssidOrder else d.ssidOrder + [u.ssid];
    IeDocument(order, d.ssids[u.ssid := line[u.key := list + [u.region]]])
  }

  /** update_one(search, {'$push': ...}, upsert=True) on the registry. */
  function ApplyPush(state: State, u: StatePush): State {
    var d := if u.ie in state then state[u.ie] else IeDocument([], map[]);
    state[u.ie := PushDocument(d, u)]
  }

  /** The push appends its region to the end of its own list and to no other. */
  lemma PushAppends(state: State, u: StatePush, ie: string, ssid: string, key: string)
    ensures Lookup(ApplyPush(state, u), ie, ssid, key) ==
      Lookup(state, ie, ssid, key) + (if ie == u.ie && ssid == u.ssid && key == u.key then [u.region] else [])
  {
  }

  /** The push creates the missing document and ssid field, and nothing else:
      other documents are untouched and earlier ssids keep their order. */
  lemma PushShape(state: State, u: StatePush)
    ensures ApplyPush(state, u).Keys == state.Keys + {u.ie}
    ensures forall ie :: ie in state && ie != u.ie ==> ApplyPush(state, u)[ie] == state[ie]
    ensures ApplyPush(state, u)[u.ie].ssids.Keys ==
      (if u.ie in state then state[u.ie].ssids.Keys else {}) + {u.ssid}
    ensures u.ie in state ==> state[u.ie].ssidOrder <= ApplyPush(state, u)[u.ie].ssidOrder
  {
  }

  /** A push under a key that reads back as an integer keeps the registry valid. */
  lemma PushValid(state: State, u: StatePush)
    requires StateValid(state) && ParsePythonInt(u.key).Some?
    ensures StateValid(ApplyPush(state, u))
  {
    if u.ie in state {
      PushDocumentValid(state[u.ie], u);
    } else {
      PushNewDocumentValid(u);
    }
  }

  lemma PushNewDocumentValid(u: StatePush)
    requires ParsePythonInt(u.key).Some?
    ensures DocumentValid(PushDocument(IeDocument([], map[]), u))
  {
    var nd := PushDocument(IeDocument([], map[]), u);
    assert OrderValid(nd) by {
      assert nd.ssidOrder == [u.ssid];
      assert nd.ssids.Keys == {u.ssid};
    }
    assert TimeLinesValid(nd) by {
      assert nd.ssids.Keys == {u.ssid};
      assert nd.ssids[u.ssid].Keys == {u.key};
    }
  }

  lemma PushDocumentValid(d: IeDocument, u: StatePush)
    requires DocumentValid(d)
    requires ParsePythonInt(u.key).Some?
    ensures DocumentValid(PushDocument(d, u))
  {
    var nd := PushDocument(d, u);
    var line := if u.ssid in d.ssids then d.ssids[u.ssid] else map[];
    assert nd.ssids == d.ssids[u.ssid := line[u.key := nd.ssids[u.ssid][u.key]]];
    assert OrderValid(nd) by {
      if u.ssid !in d.ssids {
        assert u.ssid !in d.ssidOrder;
        AppendDistinct(d.ssidOrder, u.ssid);
      }
    }
    assert TimeLinesValid(nd) by {
      forall s | s in nd.ssids ensures nd.ssids[s] != map[] {
        if s == u.ssid {
          assert u.key in nd.ssids[s];
        }
      }
      forall s, k | s in nd.ssids && k in nd.ssids[s] ensures ParsePythonInt(k).Some? {
        if s != u.ssid || k != u.key {
          assert s in d.ssids && k in d.ssids[s];
        }
      }
    }
  }

  lemma AppendDistinct(order: seq<string>, s: string)
    requires Distinct(order) && s !in order
    ensures Distinct(order + [s])
  {
    forall i, j | 0 <= i < j < |order| + 1 ensures (order + [s])[i] != (order + [s])[j] {
      if j == |order| {
        assert (order + [s])[i] == order[i];
      }
    }
  }

  function SeenOf(summary: Summary, ssid: string): int {
    if ssid in summary then summary[ssid].seen else 0
  }

  function AliasOf(summary: Summary, ssid: string): set<string> {
    if ssid in summary then summary[ssid].alias else {}
  }

  /** update_one(search, update, upsert=True) on the summary. */
  function ApplySummary(summary: Summary, u: SummaryUpdate): Summary {
    var d := if u.ssid in summary then summary[u.ssid] else SummaryDocument(0, {});
    match u
    case Inc(_, amount) => summary[u.ssid := d.(seen := d.seen + amount)]
    case AddToSet(_, a) => summary[u.ssid := d.(alias := d.alias + {a})]
  }

  /** `$inc` with upsert: the ssid's count goes up by the increment, counting from
      0 for a new document; no alias set and no other count changes. */
  lemma IncCounts(summary: Summary, ssid: string, amount: int, x: string)
    ensures SeenOf(ApplySummary(summary, Inc(ssid, amount)), x) == SeenOf(summary, x) + (if x == ssid then amount else 0)
    ensures AliasOf(ApplySummary(summary, Inc(ssid, amount)), x) == AliasOf(summary, x)
    ensures ApplySummary(summary, Inc(ssid, amount)).Keys == summary.Keys + {ssid}
  {
  }

  /** `$addToSet` with upsert: the alias joins the ssid's alias set; counts and
      other alias sets are untouched. */
  lemma AddToSetUnion(summary: Summary, ssid: string, alias: string, x: string)
    ensures AliasOf(ApplySummary(summary, AddToSet(ssid, alias)), x) ==
      AliasOf(summary, x) + (if x == ssid then {alias} else {})
    ensures SeenOf(ApplySummary(summary, AddToSet(ssid, alias)), x) == SeenOf(summary, x)
    ensures ApplySummary(summary, AddToSet(ssid, alias)).Keys == summary.Keys + {ssid}
  {
  }

  /** Recording the same alias twice changes nothing the second time. */
  lemma AddToSetIdempotent(summary: Summary, ssid: string, alias: string)
    ensures ApplySummary(ApplySummary(summary, AddToSet(ssid, alias)), AddToSet(ssid, alias)) ==
            ApplySummary(summary, AddToSet(ssid, alias))
  {
    var once := ApplySummary(summary, AddToSet(ssid, alias));
    assert once[ssid].alias + {alias} == once[ssid].alias;
  }

  /** One `$inc` per list element, in order. */
  function IncrementAll(summary: Summary, ssids: seq<string>): Summary
    decreases |ssids|
  {
    if ssids == [] then summary else IncrementAll(ApplySummary(summary, Inc(ssids[0], 1)), ssids[1..])
  }

  /** Each ssid is counted as often as it occurs in the list, duplicates included. */
  lemma {:induction false} IncrementAllCounts(summary: Summary, ssids: seq<string>, x: string)
    ensures SeenOf(IncrementAll(summary, ssids), x) == SeenOf(summary, x) + multiset(ssids)[x]
    ensures AliasOf(IncrementAll(summary, ssids), x) == AliasOf(summary, x)
    ensures IncrementAll(summary, ssids).Keys == summary.Keys + set s | s in ssids
    decreases |ssids|
  {
    if ssids != [] {
      var next := ApplySummary(summary, Inc(ssids[0], 1));
      IncCounts(summary, ssids[0], 1, x);
      IncrementAllCounts(next, ssids[1..], x);
      assert ssids == [ssids[0]] + ssids[1..];
      assert multiset(ssids)[x] == (if x == ssids[0] then 1 else 0) + multiset(ssids[1..])[x];
      assert (set s | s in ssids) == {ssids[0]} + set s | s in ssids[1..];
    }
  }

  /** The summary documents counted by get_non_randomizing: seen > 1. */
  function NonRandomizingSet(summary: Summary): set<string> {
    set s | s in summary && summary[s].seen > 1
  }

  /** The summary documents counted by get_randomizing: an alias field exists. */
  function RandomizingSet(summary: Summary): set<string> {
    set s | s in summary && summary[s].alias != {}
  }

  lemma SubsetCard(a: set<string>, b: set<string>)
    requires a <= b
    ensures |a| <= |b|
  {
    assert b == a + (b - a);
  }

  // ---------------------------------------------------------------------------
  // The database object
  // ---------------------------------------------------------------------------

  class Registry {
    /** The ie-ssid registry collection. */
    var state: State
    /** The summary collection. */
    var summary: Summary

    ghost predicate Valid()
      reads this
    {
      StateValid(state)
    }

    /** Both collections carry a fresh time-stamped name, so they start empty.
        The server reachability check is not part of this model. */
    constructor ()
      ensures state == map[] && summary == map[]
      ensures Valid()
    {
      state := map[];
      summary := map[];
    }

    /** The registry document of the entry's ie, provided it holds the entry's ssid. */
    function GetPreviousAppearanceIeSsid(entry: LocalizedGroup): (r: Option<IeDocument>)
      reads this
      ensures r.Some? <==> entry.ie in state && entry.ssid in state[entry.ie].ssids
      ensures r.Some? ==> r.value == state[entry.ie]
    {
      FindOne(state, CheckIeSsidPresence(entry))
    }

    /** The registry document of the entry's ie, whatever ssids it holds. */
    function GetPreviousAppearanceIe(entry: LocalizedGroup): (r: Option<IeDocument>)
      reads this
      ensures r.Some? <==> entry.ie in state
      ensures r.Some? ==> r.value == state[entry.ie]
    {
      FindOne(state, CheckIePresence(entry))
    }

    /** Whether a region was already stored for the entry at the given median. */
    function HasTimestamp(entry: LocalizedGroup, timestamp: int): (r: bool)
      reads this
      ensures r <==> entry.ie in state && entry.ssid in state[entry.ie].ssids &&
                     TimestampKey(timestamp) in state[entry.ie].ssids[entry.ssid]
    {
      FindOne(state, CheckIeSsidTimestampPresence(entry, timestamp)).Some?
    }

    method AddSsidToSummary(entry: LocalizedGroup)
      modifies this
      ensures summary == ApplySummary(old(summary), IncreaseSeenCountOnSsid(entry))
      ensures state == old(state)
    {
      summary := ApplySummary(summary, IncreaseSeenCountOnSsid(entry));
    }

    method AddSsidAlias(latestKnownSsid: string, entry: LocalizedGroup)
      modifies this
      ensures summary == ApplySummary(old(summary), AddSummaryCombinationEntry(latestKnownSsid, entry.ssid))
      ensures state == old(state)
    {
      summary := ApplySummary(summary, AddSummaryCombinationEntry(latestKnownSsid, entry.ssid));
    }

    method AddSingleSsid(ssid: string)
      modifies this
      ensures summary == ApplySummary(old(summary), AddSummarySingleEntry(ssid))
      ensures state == old(state)
    {
      summary := ApplySummary(summary, AddSummarySingleEntry(ssid));
    }

    /** add_single_ssid for each list element, in order. */
    method AddMultipleSsids(ssids: seq<string>)
      modifies this
      ensures summary == IncrementAll(old(summary), ssids)
      ensures state == old(state)
    {
      for i := 0 to |ssids|
        invariant IncrementAll(summary, ssids[i..]) == IncrementAll(old(summary), ssids)
        invariant state == old(state)
      {
        assert ssids[i..][1..] == ssids[i + 1..];
        AddSingleSsid(ssids[i]);
      }
    }

    method AddRegionToEntry(entry: LocalizedGroup, runningMedian: int, region: Region)
      requires Valid()
      modifies this
      ensures state == ApplyPush(old(state), AddRegionToIeSsidTimestampCombination(entry, runningMedian, region))
      ensures summary == old(summary)
      ensures Valid()
    {
      ParseIntToString(runningMedian);
      PushValid(state, AddRegionToIeSsidTimestampCombination(entry, runningMedian, region));
      state := ApplyPush(state, AddRegionToIeSsidTimestampCombination(entry, runningMedian, region));
    }

    /** estimated_document_count on the summary. */
    function GetDocumentCount(): (n: nat)
      reads this
      ensures n == |summary.Keys|
    {
      |summary.Keys|
    }

    /** The source returns the summary's document count here too. */
    function GetUniquelySeen(): (n: nat)
      reads this
      ensures n == GetDocumentCount()
    {
      |summary.Keys|
    }

    function GetNonRandomizing(): (n: nat)
      reads this
      ensures n <= GetDocumentCount()
      ensures n == |NonRandomizingSet(summary)|
    {
      SubsetCard(NonRandomizingSet(summary), summary.Keys);
      |NonRandomizingSet(summary)|
    }

    function GetRandomizing(): (n: nat)
      reads this
      ensures n <= GetDocumentCount()
      ensures n == |RandomizingSet(summary)|
    {
      SubsetCard(RandomizingSet(summary), summary.Keys);
      |RandomizingSet(summary)|
    }
  }

  /** An alias recorded for a ssid makes that ssid count as randomizing. */
  lemma AliasCountsAsRandomizing(summary: Summary, ssid: string, alias: string)
    ensures ssid in RandomizingSet(ApplySummary(summary, AddToSet(ssid, alias)))
    ensures RandomizingSet(summary) <= RandomizingSet(ApplySummary(summary, AddToSet(ssid, alias)))
  {
  }

  /** A ssid counted twice or more counts as non-randomizing. */
  lemma TwiceCountsAsNonRandomizing(summary: Summary, ssid: string)
    requires SeenOf(summary, ssid) >= 0
    ensures ssid in NonRandomizingSet(IncrementAll(summary, [ssid, ssid]))
  {
    IncrementAllCounts(summary, [ssid, ssid], ssid);
    assert multiset([ssid, ssid])[ssid] == 2;
  }
}
