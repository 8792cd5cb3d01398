/** The index from keywords to runs of rows. */
module KeywordIndex {
  import opened Integers
  import opened RowParser

  type Interval = (int, int)
  type Index = map<uint64, Interval>

  /** The conversion of the signed keyword field to the unsigned key of the index. */
  function Key(r: RawData): uint64 {
    if r.keyword < 0 then r.keyword + 0x1_0000_0000_0000_0000 else r.keyword
  }

  predicate ByKeyword(l: RawData, r: RawData) { l.keyword < r.keyword }

  ghost predicate Grouped(rows: seq<RawData>) {
    forall i, j :: 0 <= i < j < |rows| ==> rows[i].keyword <= rows[j].keyword
  }

  /** Position i lies in the interval of its row's keyword. */
  ghost predicate Found(rows: seq<RawData>, index: Index, i: nat)
    requires i < |rows|
  {
    Key(rows[i]) in index && index[Key(rows[i])].0 <= i <= index[Key(rows[i])].1
  }

  /** The interval of k lies within the first n rows and all its rows have keyword k. */
  ghost predicate Run(rows: seq<RawData>, index: Index, k: uint64, n: nat)
    requires k in index && n <= |rows|
  {
    && 0 <= index[k].0 <= index[k].1 + 1 <= n
    && forall i :: index[k].0 <= i <= index[k].1 ==> Key(rows[i]) == k
  }

  /** The index of the first n rows. */
  ghost predicate IndexedTo(rows: seq<RawData>, index: Index, n: nat)
    requires n <= |rows|
  {
    && (forall k :: k in index ==> Run(rows, index, k, n))
    && (forall i :: 0 <= i < n ==> Found(rows, index, i))
  }

  /** The index agrees with a full scan. */
  ghost predicate Indexed(rows: seq<RawData>, index: Index) { IndexedTo(rows, index, |rows|) }

  /** Every keyword of the index has a row, except for what an empty load leaves behind. */
  ghost predicate NoIdleKey(index: Index) {
    forall k :: k in index ==> index[k].0 <= index[k].1
  }

  /** Looking up k gives exactly the positions whose row has keyword k. */
  lemma LookupIsScan(rows: seq<RawData>, index: Index, k: uint64, i: nat)
    requires Indexed(rows, index) && i < |rows|
    ensures Key(rows[i]) == k <==> k in index && index[k].0 <= i <= index[k].1
  {
    assert Found(rows, index, i);
    if k in index && index[k].0 <= i <= index[k].1 { assert Run(rows, index, k, |rows|); }
  }

  /** The intervals are disjoint, and every position lies in one. */
  lemma IntervalsPartition(rows: seq<RawData>, index: Index, i: nat)
    requires Indexed(rows, index) && i < |rows|
    ensures exists k :: k in index && index[k].0 <= i <= index[k].1
    ensures forall k, l ::
      k in index && l in index && index[k].0 <= i <= index[k].1 && index[l].0 <= i <= index[l].1 ==> k == l
  {
    LookupIsScan(rows, index, Key(rows[i]), i);
    forall k | k in index && index[k].0 <= i <= index[k].1 ensures k == Key(rows[i]) {
      LookupIsScan(rows, index, k, i);
    }
  }

  /** Closing the run s..e extends the index of the first s rows to the first e + 1. */
  lemma CloseRun(rows: seq<RawData>, index: Index, s: nat, e: nat)
    requires s <= e < |rows| && IndexedTo(rows, index, s) && NoIdleKey(index)
    requires forall i :: s <= i <= e ==> rows[i].keyword == rows[s].keyword
    requires forall i :: 0 <= i < s ==> rows[i].keyword < rows[s].keyword
    ensures IndexedTo(rows, index[Key(rows[s]) := (s, e)], e + 1) && NoIdleKey(index[Key(rows[s]) := (s, e)])
  {
    var index' := index[Key(rows[s]) := (s, e)];
    forall k | k in index ensures k != Key(rows[s]) {
      assert Run(rows, index, k, s) && index[k].0 <= index[k].1;
      var f := index[k].0;
      assert Key(rows[f]) == k && rows[f].keyword < rows[s].keyword;
    }
    forall k | k in index' ensures Run(rows, index', k, e + 1) {
      if k in index { assert Run(rows, index, k, s); }
    }
    forall i | 0 <= i < e + 1 ensures Found(rows, index', i) {
      if i < s { assert Found(rows, index, i); }
    }
  }
}
