/** The aggregation step of the analyzer: the window's median capture time, and
    one group per (information element, ssid) pair holding each sniffer's rssi
    readings. */
module Aggregation {
  import opened Types
  import opened Sorting
  import opened Grouping
  import Builtins

  // ---------------------------------------------------------------------------
  // Counting
  // ---------------------------------------------------------------------------

  /** How many elements of s satisfy p. */
  function CountWhere(s: seq<int>, p: int -> bool): (n: nat)
    ensures n <= |s|
  {
    if s == [] then 0 else (if p(s[0]) then 1 else 0) + CountWhere(s[1..], p)
  }

  lemma {:induction false} CountAppend(a: seq<int>, b: seq<int>, p: int -> bool)
    ensures CountWhere(a + b, p) == CountWhere(a, p) + CountWhere(b, p)
  {
    if a != [] {
      assert (a + b)[0] == a[0];
      assert (a + b)[1..] == a[1..] + b;
      CountAppend(a[1..], b, p);
      assert CountWhere(a + b, p) == (if p(a[0]) then 1 else 0) + CountWhere(a[1..] + b, p);
    } else {
      assert a + b == b;
    }
  }

  /** A count does not depend on the order of the elements. */
  lemma {:induction false} CountPermutation(a: seq<int>, b: seq<int>, p: int -> bool)
    requires multiset(a) == multiset(b)
    ensures CountWhere(a, p) == CountWhere(b, p)
    decreases |a|
  {
    if a == [] {
      assert |multiset(b)| == 0;
    } else {
      var x := a[0];
      assert x in multiset(b);
      var k :| 0 <= k < |b| && b[k] == x;
      var rest := b[..k] + b[k + 1..];
      assert b == b[..k] + [x] + b[k + 1..];
      assert a == [x] + a[1..];
      assert multiset(b) == multiset(b[..k]) + multiset{x} + multiset(b[k + 1..]);
      assert multiset(a) == multiset{x} + multiset(a[1..]);
      assert multiset(rest) == multiset(b[..k]) + multiset(b[k + 1..]);
      assert multiset(rest) == multiset(b) - multiset{x};
      assert multiset(a[1..]) == multiset(a) - multiset{x};
      CountPermutation(a[1..], rest, p);
      CountAppend(b[..k] + [x], b[k + 1..], p);
      CountAppend(b[..k], [x], p);
      CountAppend(b[..k], b[k + 1..], p);
    }
  }

  lemma {:induction false} CountAll(s: seq<int>, p: int -> bool)
    requires forall i :: 0 <= i < |s| ==> p(s[i])
    ensures CountWhere(s, p) == |s|
  {
    if s != [] {
      CountAll(s[1..], p);
    }
  }

  lemma {:induction false} CountNone(s: seq<int>, p: int -> bool)
    requires forall i :: 0 <= i < |s| ==> !p(s[i])
    ensures CountWhere(s, p) == 0
  {
    if s != [] {
      CountNone(s[1..], p);
    }
  }

  function Below(m: int): int -> bool {
    (x: int) => x < m
  }

  function AtMost(m: int): int -> bool {
    (x: int) => x <= m
  }

  // ---------------------------------------------------------------------------
  // The running median
  // ---------------------------------------------------------------------------

  function Epochs(w: seq<DetectionRecord>): (e: seq<int>)
    ensures |e| == |w| && forall i :: 0 <= i < |w| ==> e[i] == w[i].epoch
  {
    seq(|w|, i requires 0 <= i < |w| => w[i].epoch)
  }

  /** The element at index len // 2 of the sorted capture times. */
  function Median(w: seq<DetectionRecord>): int
    requires |w| > 0
  {
    SortBy(Epochs(w), IntLe)[|w| / 2]
  }

  /** The median is one of the window's capture times. */
  lemma MedianIsEpoch(w: seq<DetectionRecord>)
    requires |w| > 0
    ensures exists i :: 0 <= i < |w| && w[i].epoch == Median(w)
  {
    var sorted := SortBy(Epochs(w), IntLe);
    SortByPermutation(Epochs(w), IntLe);
    InMultiset(sorted[|w| / 2], sorted, Epochs(w));
  }

  lemma SortedEpochs(w: seq<DetectionRecord>)
    ensures SortedBy(SortBy(Epochs(w), IntLe), IntLe)
  {
    IntLeTotalPreorder();
    SortBySorted(Epochs(w), IntLe);
  }

  /** At most len // 2 capture times are earlier than the median, and more than
      len // 2 are no later than it. */
  lemma MedianRank(w: seq<DetectionRecord>)
    requires |w| > 0
    ensures CountWhere(Epochs(w), Below(Median(w))) <= |w| / 2
    ensures CountWhere(Epochs(w), AtMost(Median(w))) > |w| / 2
  {
    var t := SortBy(Epochs(w), IntLe);
    var h := |w| / 2;
    SortedEpochs(w);
    SortByPermutation(Epochs(w), IntLe);
    CountPermutation(Epochs(w), t, Below(t[h]));
    CountPermutation(Epochs(w), t, AtMost(t[h]));
    SortedCounts(t, h);
  }

  lemma SortedCounts(t: seq<int>, h: int)
    requires 0 <= h < |t| && SortedBy(t, IntLe)
    ensures CountWhere(t, Below(t[h])) <= h
    ensures CountWhere(t, AtMost(t[h])) > h
  {
    var m := t[h];
    assert t == t[..h] + t[h..];
    CountAppend(t[..h], t[h..], Below(m));
    assert forall i :: 0 <= i < |t[h..]| ==> !Below(m)(t[h..][i]) by {
      forall i | 0 <= i < |t[h..]| ensures !Below(m)(t[h..][i]) {
        assert t[h..][i] == t[h + i];
        assert i == 0 || IntLe(t[h], t[h + i]);
      }
    }
    CountNone(t[h..], Below(m));
    assert t == t[..h + 1] + t[h + 1..];
    CountAppend(t[..h + 1], t[h + 1..], AtMost(m));
    var lo := t[..h + 1];
    assert forall i :: 0 <= i < |lo| ==> AtMost(m)(lo[i]) by {
      forall i | 0 <= i < |lo| ensures AtMost(m)(lo[i]) {
        assert lo[i] == t[i];
        assert i == h || IntLe(t[i], t[h]);
      }
    }
    CountAll(lo, AtMost(m));
  }

  // ---------------------------------------------------------------------------
  // extend_lists
  // ---------------------------------------------------------------------------

  type Reading = (string, int)

  function SnifferOf(p: Reading): string {
    p.0
  }

  function Rssis(readings: seq<Reading>): (r: seq<int>)
    ensures |r| == |readings| && forall i :: 0 <= i < |r| ==> r[i] == readings[i].1
  {
    seq(|readings|, i requires 0 <= i < |readings| => readings[i].1)
  }

  /** The sniffers that have a row in data. */
  function Sniffers(data: seq<Reading>): set<string> {
    set i | 0 <= i < |data| :: data[i].0
  }

  /** Sniffer -> its readings in row order. */
  function MeasurementOf(data: seq<Reading>): Measurement {
    map k | k in Sniffers(data) :: Rssis(Select(data, SnifferOf, k))
  }

  /** Each sniffer of the rows is a key, and no other. */
  lemma MeasurementKeys(data: seq<Reading>, k: string)
    ensures k in MeasurementOf(data) <==> exists i :: 0 <= i < |data| && data[i].0 == k
  {
    if exists i :: 0 <= i < |data| && data[i].0 == k {
      var i :| 0 <= i < |data| && data[i].0 == k;
      assert k in Sniffers(data);
    }
  }

  /** A sniffer's list holds its readings in row order, and is never empty. */
  lemma MeasurementList(data: seq<Reading>, k: string)
    requires k in MeasurementOf(data)
    ensures MeasurementOf(data)[k] == Rssis(Select(data, SnifferOf, k))
    ensures |MeasurementOf(data)[k]| > 0
  {
    var i :| 0 <= i < |data| && data[i].0 == k;
    assert SnifferOf(data[i]) == k;
    SelectNonEmpty(data, k, i);
  }

  lemma SelectNonEmpty(data: seq<Reading>, k: string, i: int)
    requires 0 <= i < |data| && data[i].0 == k
    ensures Select(data, SnifferOf, k) != []
  {
    assert SnifferOf(data[i]) == k;
  }

  /** Together the lists hold every reading. */
  lemma MeasurementTotal(data: seq<Reading>)
    ensures TotalReadings(MeasurementOf(data), DistinctBy(data, SnifferOf)) == |data|
  {
    var ks := DistinctBy(data, SnifferOf);
    forall k | k in ks ensures k in MeasurementOf(data) {
      var j :| 0 <= j < |ks| && ks[j] == k;
      var i :| 0 <= i < |data| && SnifferOf(data[i]) == ks[j];
      MeasurementKeys(data, k);
    }
    TotalIsGathered(data, ks);
    GatherLength(data, SnifferOf, ks);
  }

  function TotalReadings(m: Measurement, ks: seq<string>): nat {
    if ks == [] then 0 else (if ks[0] in m then |m[ks[0]]| else 0) + TotalReadings(m, ks[1..])
  }

  lemma {:induction false} TotalIsGathered(data: seq<Reading>, ks: seq<string>)
    requires forall k :: k in ks ==> k in MeasurementOf(data)
    ensures TotalReadings(MeasurementOf(data), ks) == |Gather(data, SnifferOf, ks)|
  {
    if ks != [] {
      TotalIsGathered(data, ks[1..]);
      MeasurementList(data, ks[0]);
    }
  }

  lemma {:induction false} SelectAppend<T, K>(s: seq<T>, x: T, f: T -> K, k: K)
    ensures Select(s + [x], f, k) == Select(s, f, k) + (if f(x) == k then [x] else [])
  {
    if s == [] {
      assert s + [x] == [x];
      assert Select([x], f, k) == (if f(x) == k then [x] else []) + Select([x][1..], f, k);
    } else {
      assert (s + [x])[0] == s[0];
      assert (s + [x])[1..] == s[1..] + [x];
      SelectAppend(s[1..], x, f, k);
    }
  }

  lemma SniffersSnoc(data: seq<Reading>, p: Reading)
    ensures Sniffers(data + [p]) == Sniffers(data) + {p.0}
  {
    var d := data + [p];
    assert d[|data|] == p;
    forall k | k in Sniffers(d) ensures k in Sniffers(data) + {p.0} {
      var i :| 0 <= i < |d| && d[i].0 == k;
      if i < |data| {
        assert d[i] == data[i];
      }
    }
    forall k | k in Sniffers(data) ensures k in Sniffers(d) {
      var i :| 0 <= i < |data| && data[i].0 == k;
      assert d[i] == data[i];
    }
  }

  /** One more row extends the list of its sniffer, creating it if needed. */
  lemma MeasurementOfSnoc(data: seq<Reading>, p: Reading)
    ensures MeasurementOf(data + [p]) ==
      MeasurementOf(data)[p.0 := (if p.0 in MeasurementOf(data) then MeasurementOf(data)[p.0] else []) + [p.1]]
  {
    var before := MeasurementOf(data);
    var after := MeasurementOf(data + [p]);
    var expected := before[p.0 := (if p.0 in before then before[p.0] else []) + [p.1]];
    SniffersSnoc(data, p);
    assert after.Keys == expected.Keys;
    forall k | k in expected ensures after[k] == expected[k] {
      SnocList(data, p, k);
    }
  }

  /** A sniffer without rows has no readings. */
  lemma SelectEmpty(data: seq<Reading>, k: string)
    requires k !in Sniffers(data)
    ensures Select(data, SnifferOf, k) == []
  {
  }

  lemma SnocList(data: seq<Reading>, p: Reading, k: string)
    requires k in Sniffers(data) || k == p.0
    ensures Rssis(Select(data + [p], SnifferOf, k)) ==
      (if k in Sniffers(data) then Rssis(Select(data, SnifferOf, k)) else []) + (if k == p.0 then [p.1] else [])
  {
    SelectAppend(data, p, SnifferOf, k);
    var old_ := Select(data, SnifferOf, k);
    if k !in Sniffers(data) {
      SelectEmpty(data, k);
    }
    var ext := old_ + (if SnifferOf(p) == k then [p] else []);
    assert Rssis(ext) == Rssis(old_) + (if k == p.0 then [p.1] else []);
  }

  /** extend_lists: a defaultdict(list) filled row by row. */
  method ExtendLists(data: seq<Reading>) returns (result: Measurement)
    ensures result == MeasurementOf(data)
  {
    result := map[];
    for i := 0 to |data|
      invariant result == MeasurementOf(data[..i])
    {
      var k, v := data[i].0, data[i].1;
      assert data[..i + 1] == data[..i] + [(k, v)];
      MeasurementOfSnoc(data[..i], (k, v));
      var prior := if k in result then result[k] else [];
      result := result[k := prior + [v]];
    }
    assert data[..|data|] == data;
  }

  // ---------------------------------------------------------------------------
  // Grouping by (ie, ssid)
  // ---------------------------------------------------------------------------

  type Key = (string, string)

  function IeSsid(r: DetectionRecord): Key {
    (r.ie, r.ssid)
  }

  /** Python's ordering of (ie, ssid) tuples, by which groupby sorts its groups. */
  function KeyLe(a: Key, b: Key): bool {
    Builtins.LexLe(a.0, b.0) && (a.0 == b.0 ==> Builtins.LexLe(a.1, b.1))
  }

  lemma KeyLeTotalPreorder()
    ensures TotalPreorder(KeyLe)
  {
    forall a: Key, b: Key ensures KeyLe(a, b) || KeyLe(b, a) {
      Builtins.LexLeTotal(a.0, b.0);
      Builtins.LexLeTotal(a.1, b.1);
    }
    forall a: Key, b: Key, c: Key | KeyLe(a, b) && KeyLe(b, c) ensures KeyLe(a, c) {
      Builtins.LexLeTransitive(a.0, b.0, c.0);
      if a.0 == c.0 {
        Builtins.LexLeAntisymmetric(a.0, b.0);
        Builtins.LexLeTransitive(a.1, b.1, c.1);
      }
    }
  }

  /** The [ap, rssi] rows of a group, in row order. */
  function ReadingsOf(rows: seq<DetectionRecord>): (r: seq<Reading>)
    ensures |r| == |rows| && forall i :: 0 <= i < |rows| ==> r[i] == (rows[i].ap, rows[i].rssi)
  {
    seq(|rows|, i requires 0 <= i < |rows| => (rows[i].ap, rows[i].rssi))
  }

  function GroupKeys(w: seq<DetectionRecord>): seq<Key> {
    SortBy(DistinctBy(w, IeSsid), KeyLe)
  }

  /** df.groupby(['ie', 'ssid'])[['ap', 'rssi']] with extend_lists on each group. */
  function Groups(w: seq<DetectionRecord>): seq<Group> {
    var keys := GroupKeys(w);
    seq(|keys|, i requires 0 <= i < |keys| =>
      Group(keys[i].0, keys[i].1, MeasurementOf(ReadingsOf(Select(w, IeSsid, keys[i])))))
  }

  /** The group keys are distinct, ascending, and exactly the window's pairs. */
  lemma GroupKeysFacts(w: seq<DetectionRecord>)
    ensures Distinct(GroupKeys(w))
    ensures SortedBy(GroupKeys(w), KeyLe)
    ensures forall i :: 0 <= i < |w| ==> IeSsid(w[i]) in GroupKeys(w)
    ensures forall k :: 0 <= k < |GroupKeys(w)| ==> exists i :: 0 <= i < |w| && IeSsid(w[i]) == GroupKeys(w)[k]
  {
    var ds := DistinctBy(w, IeSsid);
    var keys := GroupKeys(w);
    KeyLeTotalPreorder();
    SortBySorted(ds, KeyLe);
    SortByPermutation(ds, KeyLe);
    DistinctPermutation(keys, ds);
    forall i | 0 <= i < |w| ensures IeSsid(w[i]) in keys {
      InMultiset(IeSsid(w[i]), ds, keys);
    }
    forall k | 0 <= k < |keys| ensures exists i :: 0 <= i < |w| && IeSsid(w[i]) == keys[k] {
      InMultiset(keys[k], keys, ds);
      var j :| 0 <= j < |ds| && ds[j] == keys[k];
    }
  }

  /** The group of a key present in the window has at least one reading. */
  lemma GroupNonEmpty(w: seq<DetectionRecord>, key: Key, m: int)
    requires 0 <= m < |w| && IeSsid(w[m]) == key
    ensures MeasurementOf(ReadingsOf(Select(w, IeSsid, key))) != map[]
  {
    var rows := Select(w, IeSsid, key);
    assert rows != [];
    MeasurementKeys(ReadingsOf(rows), ReadingsOf(rows)[0].0);
  }

  /** The key of the i-th group is the i-th group key. */
  lemma GroupKeyAt(w: seq<DetectionRecord>, i: int)
    requires 0 <= i < |GroupKeys(w)|
    ensures |Groups(w)| == |GroupKeys(w)|
    ensures (Groups(w)[i].ie, Groups(w)[i].ssid) == GroupKeys(w)[i]
    ensures Groups(w)[i].measurement == MeasurementOf(ReadingsOf(Select(w, IeSsid, GroupKeys(w)[i])))
  {
  }

  /** The i-th group's measurement lists exactly the sniffers that detected its
      (ie, ssid) pair in the window, and its lists together hold one reading per
      row of that pair. */
  lemma GroupMeasurement(w: seq<DetectionRecord>, i: int)
    requires 0 <= i < |Groups(w)|
    ensures forall ap :: ap in Groups(w)[i].measurement <==>
      exists r :: 0 <= r < |w| && IeSsid(w[r]) == GroupKeys(w)[i] && w[r].ap == ap
    ensures var rows := Select(w, IeSsid, GroupKeys(w)[i]);
      TotalReadings(Groups(w)[i].measurement, DistinctBy(ReadingsOf(rows), SnifferOf)) == |rows|
      && forall r :: r in rows <==> r in w && IeSsid(r) == GroupKeys(w)[i]
  {
    var key := GroupKeys(w)[i];
    var rows := Select(w, IeSsid, key);
    GroupKeyAt(w, i);
    forall r ensures r in rows <==> r in w && IeSsid(r) == key {
      SelectMember(w, IeSsid, key, r);
    }
    forall ap ensures ap in MeasurementOf(ReadingsOf(rows)) <==>
      exists r :: 0 <= r < |w| && IeSsid(w[r]) == key && w[r].ap == ap
    {
      PairSniffers(w, key, ap);
    }
    MeasurementTotal(ReadingsOf(rows));
  }

  /** A sniffer is a key of a pair's measurement iff it detected the pair. */
  lemma PairSniffers(w: seq<DetectionRecord>, key: Key, ap: string)
    ensures ap in MeasurementOf(ReadingsOf(Select(w, IeSsid, key))) <==>
      exists r :: 0 <= r < |w| && IeSsid(w[r]) == key && w[r].ap == ap
  {
    var rows := Select(w, IeSsid, key);
    var data := ReadingsOf(rows);
    MeasurementKeys(data, ap);
    if exists j :: 0 <= j < |data| && data[j].0 == ap {
      var j :| 0 <= j < |data| && data[j].0 == ap;
      SelectMember(w, IeSsid, key, rows[j]);
      var r :| 0 <= r < |w| && w[r] == rows[j];
      assert IeSsid(w[r]) == key && w[r].ap == ap;
    }
    if exists r :: 0 <= r < |w| && IeSsid(w[r]) == key && w[r].ap == ap {
      var r :| 0 <= r < |w| && IeSsid(w[r]) == key && w[r].ap == ap;
      SelectMember(w, IeSsid, key, w[r]);
      var j :| 0 <= j < |rows| && rows[j] == w[r];
      assert data[j].0 == ap;
    }
  }

  /** One group per (ie, ssid) pair of the window, in ascending tuple order. */
  lemma GroupsOrdered(w: seq<DetectionRecord>)
    ensures var gs := Groups(w);
      forall i, j :: 0 <= i < j < |gs| ==>
        KeyLe((gs[i].ie, gs[i].ssid), (gs[j].ie, gs[j].ssid)) && (gs[i].ie, gs[i].ssid) != (gs[j].ie, gs[j].ssid)
  {
    var keys := GroupKeys(w);
    var gs := Groups(w);
    GroupKeysFacts(w);
    forall i, j | 0 <= i < j < |gs|
      ensures KeyLe((gs[i].ie, gs[i].ssid), (gs[j].ie, gs[j].ssid)) && (gs[i].ie, gs[i].ssid) != (gs[j].ie, gs[j].ssid)
    {
      GroupKeyAt(w, i);
      GroupKeyAt(w, j);
    }
  }

  /** Every record's pair has its group. */
  lemma GroupsCover(w: seq<DetectionRecord>)
    ensures forall r :: r in w ==> exists i :: 0 <= i < |Groups(w)| && Groups(w)[i].ie == r.ie && Groups(w)[i].ssid == r.ssid
  {
    var keys := GroupKeys(w);
    GroupKeysFacts(w);
    forall r | r in w ensures exists i :: 0 <= i < |Groups(w)| && Groups(w)[i].ie == r.ie && Groups(w)[i].ssid == r.ssid {
      var m :| 0 <= m < |w| && w[m] == r;
      var i :| 0 <= i < |keys| && keys[i] == IeSsid(w[m]);
      GroupKeyAt(w, i);
    }
  }

  /** Every group comes from a record of the window and has at least one reading. */
  lemma GroupWitnessed(w: seq<DetectionRecord>, i: int)
    requires 0 <= i < |Groups(w)|
    ensures Groups(w)[i].measurement != map[]
    ensures exists r :: r in w && Groups(w)[i].ie == r.ie && Groups(w)[i].ssid == r.ssid
  {
    var keys := GroupKeys(w);
    GroupKeysFacts(w);
    GroupKeyAt(w, i);
    var m :| 0 <= m < |w| && IeSsid(w[m]) == keys[i];
    GroupNonEmpty(w, keys[i], m);
    assert w[m] in w && Groups(w)[i].ie == w[m].ie && Groups(w)[i].ssid == w[m].ssid;
  }
}
