/** The windower's partition of the pending buffer into time buckets of equal
    width, counted from the first buffered record. */
module Windowing {
  import opened Types
  import opened Sorting
  import opened Grouping

  /** The index of the bucket a record falls in: floor((epoch - reference) / width). */
  function Bucket(r: DetectionRecord, reference: int, width: int): (b: int)
    requires width > 0
    ensures b * width <= r.epoch - reference < b * width + width
  {
    (r.epoch - reference) / width
  }

  function BucketOf(reference: int, width: int): DetectionRecord -> int
    requires width > 0
  {
    (r: DetectionRecord) => Bucket(r, reference, width)
  }

  /** The bucket indices present in s, ascending. */
  function BucketKeys(s: seq<DetectionRecord>, width: int): seq<int>
    requires |s| > 0 && width > 0
  {
    SortBy(DistinctBy(s, BucketOf(s[0].epoch, width)), IntLe)
  }

  /** One window per bucket, oldest first, each holding its bucket's records in
      buffer order (pandas groupby over the bucket index). */
  function Windows(s: seq<DetectionRecord>, width: int): seq<seq<DetectionRecord>>
    requires width > 0
  {
    if s == [] then []
    else
      var keys := BucketKeys(s, width);
      seq(|keys|, i requires 0 <= i < |keys| => Select(s, BucketOf(s[0].epoch, width), keys[i]))
  }

  function Flatten(ws: seq<seq<DetectionRecord>>): seq<DetectionRecord> {
    if ws == [] then [] else ws[0] + Flatten(ws[1..])
  }

  lemma {:induction false} FlattenSelects(s: seq<DetectionRecord>, f: DetectionRecord -> int, keys: seq<int>)
    ensures Flatten(seq(|keys|, i requires 0 <= i < |keys| => Select(s, f, keys[i]))) == Gather(s, f, keys)
  {
    var ws := seq(|keys|, i requires 0 <= i < |keys| => Select(s, f, keys[i]));
    if keys != [] {
      FlattenSelects(s, f, keys[1..]);
      assert ws[1..] == seq(|keys[1..]|, i requires 0 <= i < |keys[1..]| => Select(s, f, keys[1..][i]));
    }
  }

  /** The keys are distinct and hold every record's bucket. */
  lemma BucketKeysFacts(s: seq<DetectionRecord>, width: int)
    requires |s| > 0 && width > 0
    ensures Distinct(BucketKeys(s, width))
    ensures forall i :: 0 <= i < |s| ==> Bucket(s[i], s[0].epoch, width) in BucketKeys(s, width)
    ensures forall k :: 0 <= k < |BucketKeys(s, width)| ==>
              exists i :: 0 <= i < |s| && Bucket(s[i], s[0].epoch, width) == BucketKeys(s, width)[k]
    ensures forall k, l :: 0 <= k < l < |BucketKeys(s, width)| ==> BucketKeys(s, width)[k] < BucketKeys(s, width)[l]
  {
    var f := BucketOf(s[0].epoch, width);
    var ds := DistinctBy(s, f);
    var keys := BucketKeys(s, width);
    SortByPermutation(ds, IntLe);
    DistinctPermutation(keys, ds);
    forall i | 0 <= i < |s| ensures Bucket(s[i], s[0].epoch, width) in keys {
      InMultiset(f(s[i]), ds, keys);
    }
    forall k | 0 <= k < |keys|
      ensures exists i :: 0 <= i < |s| && Bucket(s[i], s[0].epoch, width) == keys[k]
    {
      InMultiset(keys[k], keys, ds);
      var m :| 0 <= m < |ds| && ds[m] == keys[k];
      var i :| 0 <= i < |s| && f(s[i]) == ds[m];
    }
    IntLeTotalPreorder();
    SortBySorted(ds, IntLe);
  }

  /** Laid end to end, the windows are the buffer rearranged: every record lands
      in exactly one window. */
  lemma WindowsPartition(s: seq<DetectionRecord>, width: int)
    requires width > 0
    ensures multiset(Flatten(Windows(s, width))) == multiset(s)
  {
    if s != [] {
      var f := BucketOf(s[0].epoch, width);
      var keys := BucketKeys(s, width);
      FlattenSelects(s, f, keys);
      BucketKeysFacts(s, width);
      GatherPartition(s, f, keys);
    }
  }

  /** Every window is non-empty and holds exactly the records of one bucket, in
      buffer order; buckets ascend from window to window. */
  lemma WindowsOrdered(s: seq<DetectionRecord>, width: int)
    requires |s| > 0 && width > 0
    ensures var ws := Windows(s, width);
      (forall i :: 0 <= i < |ws| ==> ws[i] != []) &&
      (forall i :: 0 <= i < |ws| ==>
         ws[i] == Select(s, BucketOf(s[0].epoch, width), Bucket(ws[i][0], s[0].epoch, width))) &&
      (forall i, j :: 0 <= i < j < |ws| ==>
         Bucket(ws[i][0], s[0].epoch, width) < Bucket(ws[j][0], s[0].epoch, width))
  {
    var keys := BucketKeys(s, width);
    var ws := Windows(s, width);
    BucketKeysFacts(s, width);
    forall i | 0 <= i < |ws|
      ensures ws[i] != [] && Bucket(ws[i][0], s[0].epoch, width) == keys[i]
      ensures ws[i] == Select(s, BucketOf(s[0].epoch, width), keys[i])
    {
      WindowAt(s, width, i);
    }
  }

  /** The i-th window is the non-empty selection of the i-th bucket. */
  lemma WindowAt(s: seq<DetectionRecord>, width: int, i: int)
    requires |s| > 0 && width > 0 && 0 <= i < |Windows(s, width)|
    ensures var keys := BucketKeys(s, width);
      i < |keys| && Windows(s, width)[i] == Select(s, BucketOf(s[0].epoch, width), keys[i]) &&
      Windows(s, width)[i] != [] && Bucket(Windows(s, width)[i][0], s[0].epoch, width) == keys[i]
  {
    var f := BucketOf(s[0].epoch, width);
    var keys := BucketKeys(s, width);
    var w := Windows(s, width)[i];
    assert w == Select(s, f, keys[i]);
    BucketKeysFacts(s, width);
    var m :| 0 <= m < |s| && Bucket(s[m], s[0].epoch, width) == keys[i];
    assert f(s[m]) == keys[i];
    assert f(w[0]) == keys[i];
  }

  /** The windower flushes exactly when the buffer spans two buckets. */
  lemma WindowCount(s: seq<DetectionRecord>, width: int)
    requires |s| > 0 && width > 0
    ensures |Windows(s, width)| > 1 <==>
      exists i, j :: 0 <= i < |s| && 0 <= j < |s| &&
        Bucket(s[i], s[0].epoch, width) != Bucket(s[j], s[0].epoch, width)
  {
    assert |Windows(s, width)| == |BucketKeys(s, width)|;
    if |BucketKeys(s, width)| > 1 {
      TwoKeysDiffer(s, width);
    }
    if exists i, j :: 0 <= i < |s| && 0 <= j < |s| &&
         Bucket(s[i], s[0].epoch, width) != Bucket(s[j], s[0].epoch, width) {
      var i, j :| 0 <= i < |s| && 0 <= j < |s| &&
        Bucket(s[i], s[0].epoch, width) != Bucket(s[j], s[0].epoch, width);
      DifferentBucketsTwoKeys(s, width, i, j);
    }
  }

  /** Two bucket keys are the buckets of two records that differ. */
  lemma TwoKeysDiffer(s: seq<DetectionRecord>, width: int)
    requires |s| > 0 && width > 0 && |BucketKeys(s, width)| > 1
    ensures exists i, j :: 0 <= i < |s| && 0 <= j < |s| &&
                           Bucket(s[i], s[0].epoch, width) != Bucket(s[j], s[0].epoch, width)
  {
    var keys := BucketKeys(s, width);
    BucketKeysFacts(s, width);
    var i :| 0 <= i < |s| && Bucket(s[i], s[0].epoch, width) == keys[0];
    var j :| 0 <= j < |s| && Bucket(s[j], s[0].epoch, width) == keys[1];
  }

  /** Two records in different buckets make two bucket keys. */
  lemma DifferentBucketsTwoKeys(s: seq<DetectionRecord>, width: int, i: int, j: int)
    requires |s| > 0 && width > 0 && 0 <= i < |s| && 0 <= j < |s|
    requires Bucket(s[i], s[0].epoch, width) != Bucket(s[j], s[0].epoch, width)
    ensures |BucketKeys(s, width)| > 1
  {
    BucketKeysFacts(s, width);
    assert Bucket(s[i], s[0].epoch, width) in BucketKeys(s, width);
    assert Bucket(s[j], s[0].epoch, width) in BucketKeys(s, width);
  }
}
