/**
 * A Python `dict` keyed by strings: the entries in insertion order, each key
 * at most once. Assigning to a key that is already present keeps its place;
 * a new key goes to the end.
 */
module Dicts {
  import opened Wrappers

  type Dict<V> = seq<(string, V)>

  /** No key occurs twice. */
  ghost predicate Distinct<V>(d: Dict<V>) {
    forall i, j :: 0 <= i < j < |d| ==> d[i].0 != d[j].0
  }

  function Keys<V>(d: Dict<V>): set<string> {
    set i | 0 <= i < |d| :: d[i].0
  }

  /** `d.get(k)`: the value of the first entry with key `k`. */
  function Get<V>(d: Dict<V>, k: string): (r: Option<V>)
    ensures r.None? <==> k !in Keys(d)
    ensures r.Some? ==> (k, r.value) in d
  {
    if d == [] then None
    else if d[0].0 == k then Some(d[0].1)
    else
      assert Keys(d) == {d[0].0} + Keys(d[1..]) by {
        forall x | x in Keys(d) ensures x in {d[0].0} + Keys(d[1..]) {
          var i :| 0 <= i < |d| && d[i].0 == x;
          if i > 0 { assert d[1..][i - 1].0 == x; }
        }
      }
      Get(d[1..], k)
  }

  /** The position of key `k`. */
  function IndexOfKey<V>(d: Dict<V>, k: string): (i: nat)
    requires k in Keys(d)
    ensures i < |d| && d[i].0 == k
    ensures forall j :: 0 <= j < i ==> d[j].0 != k
  {
    if d[0].0 == k then 0
    else
      assert k in Keys(d[1..]) by {
        var j :| 0 <= j < |d| && d[j].0 == k;
        assert d[1..][j - 1].0 == k;
      }
      1 + IndexOfKey(d[1..], k)
  }

  /** `d[k] = v` */
  function Put<V>(d: Dict<V>, k: string, v: V): (r: Dict<V>)
    ensures Keys(r) == Keys(d) + {k}
    ensures |r| == if k in Keys(d) then |d| else |d| + 1
    ensures forall i :: 0 <= i < |d| && d[i].0 != k ==> r[i] == d[i]
    ensures Distinct(d) ==> Distinct(r) && Get(r, k) == Some(v)
    ensures forall k' :: k' != k ==> Get(r, k') == Get(d, k')
  {
    if k in Keys(d) then
      var i := IndexOfKey(d, k);
      ReplaceFacts(d, i, v);
      d[i := (k, v)]
    else
      AppendFacts(d, k, v);
      d + [(k, v)]
  }

  lemma ReplaceFacts<V>(d: Dict<V>, i: nat, v: V)
    requires i < |d|
    ensures var r := d[i := (d[i].0, v)];
      && Keys(r) == Keys(d)
      && (Distinct(d) ==> Distinct(r) && Get(r, d[i].0) == Some(v))
      && (forall k' :: k' != d[i].0 ==> Get(r, k') == Get(d, k'))
  {
    var r := d[i := (d[i].0, v)];
    assert forall j :: 0 <= j < |d| ==> r[j].0 == d[j].0;
    forall k' | k' != d[i].0 ensures Get(r, k') == Get(d, k') {
      GetSkips(d, r, k');
    }
    if Distinct(d) {
      GetAt(r, i);
    }
  }

  lemma AppendFacts<V>(d: Dict<V>, k: string, v: V)
    requires k !in Keys(d)
    ensures var r := d + [(k, v)];
      && Keys(r) == Keys(d) + {k}
      && (Distinct(d) ==> Distinct(r) && Get(r, k) == Some(v))
      && (forall k' :: k' != k ==> Get(r, k') == Get(d, k'))
  {
    var r := d + [(k, v)];
    assert Keys(r) == Keys(d) + {k} by {
      assert r[|d|].0 == k;
      forall x | x in Keys(r) ensures x in Keys(d) + {k} {
        var i :| 0 <= i < |r| && r[i].0 == x;
        if i < |d| { assert d[i].0 == x; }
      }
      forall x | x in Keys(d) ensures x in Keys(r) {
        var i :| 0 <= i < |d| && d[i].0 == x;
        assert r[i].0 == x;
      }
    }
    forall k' | k' != k ensures Get(r, k') == Get(d, k') {
      GetAppend(d, k, v, k');
    }
    if Distinct(d) {
      assert forall j :: 0 <= j < |d| ==> d[j].0 != k;
      GetAt(r, |d|);
    }
  }

  /** Changing the values of keys other than `k` does not change the lookup of `k`. */
  lemma {:induction false} GetSkips<V>(d: Dict<V>, r: Dict<V>, k: string)
    requires |r| == |d|
    requires forall i :: 0 <= i < |d| ==> r[i].0 == d[i].0
    requires forall i :: 0 <= i < |d| && d[i].0 == k ==> r[i] == d[i]
    ensures Get(r, k) == Get(d, k)
  {
    if d != [] && d[0].0 != k {
      GetSkips(d[1..], r[1..], k);
    }
  }

  lemma {:induction false} GetAppend<V>(d: Dict<V>, k: string, v: V, k': string)
    requires k' != k
    ensures Get(d + [(k, v)], k') == Get(d, k')
  {
    if d != [] {
      assert (d + [(k, v)])[1..] == d[1..] + [(k, v)];
      GetAppend(d[1..], k, v, k');
    }
  }

  /** In a dictionary without repeated keys, `Get` finds the entry at any position. */
  lemma {:induction false} GetAt<V>(d: Dict<V>, i: nat)
    requires Distinct(d) && i < |d|
    ensures Get(d, d[i].0) == Some(d[i].1)
  {
    if i > 0 {
      assert Distinct(d[1..]);
      GetAt(d[1..], i - 1);
    }
  }

  /** Assigning a key twice keeps only the second value (last write wins). */
  lemma PutPut<V>(d: Dict<V>, k: string, v1: V, v2: V)
    ensures Put(Put(d, k, v1), k, v2) == Put(d, k, v2)
  {
    var d1 := Put(d, k, v1);
    if k in Keys(d) {
      var i := IndexOfKey(d, k);
      assert d1 == d[i := (k, v1)];
      IndexOfKeyFirst(d1, k, i);
    } else {
      assert d1 == d + [(k, v1)];
      IndexOfKeyFirst(d1, k, |d|);
      assert d1[|d| := (k, v2)] == d + [(k, v2)];
    }
  }

  lemma IndexOfKeyFirst<V>(d: Dict<V>, k: string, i: nat)
    requires i < |d| && d[i].0 == k
    requires forall j :: 0 <= j < i ==> d[j].0 != k
    ensures k in Keys(d) && IndexOfKey(d, k) == i
  {
    var m := IndexOfKey(d, k);
  }

  /** A dictionary has as many entries as distinct keys. */
  lemma {:induction false} DistinctSize<V>(d: Dict<V>)
    requires Distinct(d)
    ensures |Keys(d)| == |d|
  {
    if d != [] {
      var init := d[..|d| - 1];
      var last := d[|d| - 1].0;
      DistinctSize(init);
      assert Keys(d) == Keys(init) + {last} by {
        forall x | x in Keys(d) ensures x in Keys(init) + {last} {
          var i :| 0 <= i < |d| && d[i].0 == x;
          if i < |init| { assert init[i].0 == x; }
        }
      }
      assert last !in Keys(init);
    }
  }

  /** The keys after appending one entry. */
  lemma KeysSnoc<V>(d: Dict<V>, e: (string, V))
    ensures Keys(d + [e]) == Keys(d) + {e.0}
  {
    var r := d + [e];
    forall x | x in Keys(r) ensures x in Keys(d) + {e.0} {
      var i :| 0 <= i < |r| && r[i].0 == x;
      if i < |d| { assert d[i] == r[i]; }
    }
    forall x | x in Keys(d) ensures x in Keys(r) {
      var i :| 0 <= i < |d| && d[i].0 == x;
      assert r[i] == d[i];
    }
    assert r[|d|] == e;
  }
}
