/**
 * Python dictionaries keyed by strings, with their insertion order.
 *
 * The monitor iterates over `dict.items()` while appending history events,
 * so the order of a dictionary's entries is observable in the event log. A
 * dictionary is therefore an association list with distinct keys: assigning
 * to a present key keeps its position, assigning a new key appends it, and
 * `pop` removes the entry without disturbing the others.
 */
module Dict {
  import opened Wrappers

  type Dict<V> = seq<(string, V)>

  /** No key occurs twice. */
  predicate Valid<V>(d: Dict<V>) {
    forall i, j :: 0 <= i < j < |d| ==> d[i].0 != d[j].0
  }

  function Keys<V>(d: Dict<V>): set<string> {
    set i | 0 <= i < |d| :: d[i].0
  }

  /** Position of `k`, if present. */
  function IndexOf<V>(d: Dict<V>, k: string): (r: Option<nat>)
    ensures r.Some? ==> r.value < |d| && d[r.value].0 == k
    ensures r.Some? ==> forall j :: 0 <= j < r.value ==> d[j].0 != k
    ensures r.None? <==> k !in Keys(d)
  {
    if |d| == 0 then None
    else if d[0].0 == k then Some(0)
    else
      var rest := IndexOf(d[1..], k);
      assert rest.None? ==> forall j :: 0 <= j < |d| ==> d[j].0 != k by {
        if rest.None? {
          forall j | 0 <= j < |d| ensures d[j].0 != k {
            if j > 0 { assert d[1..][j - 1] == d[j]; }
          }
        }
      }
      if rest.Some? then Some(rest.value + 1) else None
  }

  /** `d.get(k)`. */
  function Get<V>(d: Dict<V>, k: string): (r: Option<V>)
    requires Valid(d)
    ensures r.None? <==> k !in Keys(d)
    ensures forall i :: 0 <= i < |d| && d[i].0 == k ==> r == Some(d[i].1)
  {
    match IndexOf(d, k)
    case Some(i) => Some(d[i].1)
    case None => None
  }

  /** `d[k] = v`: overwrite in place when present, append otherwise. */
  function Put<V>(d: Dict<V>, k: string, v: V): (r: Dict<V>)
    requires Valid(d)
    ensures Valid(r)
    ensures Keys(r) == Keys(d) + {k}
    ensures k in Keys(d) ==> |r| == |d| && forall i :: 0 <= i < |d| ==> r[i].0 == d[i].0
    ensures k !in Keys(d) ==> r == d + [(k, v)]
    ensures Get(r, k) == Some(v)
    ensures forall k' :: k' != k ==> Get(r, k') == Get(d, k')
  {
    match IndexOf(d, k)
    case Some(i) =>
      var r := d[i := (k, v)];
      assert Keys(r) == Keys(d) + {k} by {
        forall x | x in Keys(d) ensures x in Keys(r) {
          var j :| 0 <= j < |d| && d[j].0 == x;
          assert r[j].0 == x;
        }
      }
      r
    case None =>
      var r := d + [(k, v)];
      assert Keys(r) == Keys(d) + {k} by {
        forall x | x in Keys(d) ensures x in Keys(r) {
          var j :| 0 <= j < |d| && d[j].0 == x;
          assert r[j].0 == x;
        }
        assert r[|d|].0 == k;
      }
      r
  }

  /** `d.pop(k, None)` as far as the remaining dictionary is concerned. */
  function Remove<V>(d: Dict<V>, k: string): (r: Dict<V>)
    requires Valid(d)
    ensures Valid(r)
    ensures Keys(r) == Keys(d) - {k}
    ensures k !in Keys(d) ==> r == d
    ensures k in Keys(d) ==> exists i :: 0 <= i < |d| && d[i].0 == k && r == d[..i] + d[i + 1..]
    ensures Get(r, k) == None
    ensures forall k' :: k' != k ==> Get(r, k') == Get(d, k')
  {
    match IndexOf(d, k)
    case Some(i) =>
      RemoveAtKeys(d, i);
      RemoveAtGet(d, i);
      d[..i] + d[i + 1..]
    case None => d
  }

  lemma RemoveAtKeys<V>(d: Dict<V>, i: nat)
    requires Valid(d) && i < |d|
    ensures Valid(d[..i] + d[i + 1..])
    ensures Keys(d[..i] + d[i + 1..]) == Keys(d) - {d[i].0}
  {
    var r := d[..i] + d[i + 1..];
    assert forall j :: 0 <= j < |r| ==> r[j] == (if j < i then d[j] else d[j + 1]);
    forall x | x in Keys(d) - {d[i].0} ensures x in Keys(r) {
      var j :| 0 <= j < |d| && d[j].0 == x;
      if j < i { assert r[j].0 == x; } else { assert r[j - 1].0 == x; }
    }
  }

  lemma RemoveAtGet<V>(d: Dict<V>, i: nat)
    requires Valid(d) && i < |d|
    ensures Valid(d[..i] + d[i + 1..])
    ensures forall k' :: k' != d[i].0 ==> Get(d[..i] + d[i + 1..], k') == Get(d, k')
  {
    RemoveAtKeys(d, i);
    var r := d[..i] + d[i + 1..];
    forall k' | k' != d[i].0 ensures Get(r, k') == Get(d, k') {
      if k' in Keys(d) {
        var j :| 0 <= j < |d| && d[j].0 == k';
        if j < i { assert r[j] == d[j]; } else { assert r[j - 1] == d[j]; }
      }
    }
  }

  /** The keys in their order, as `list(d)` gives them. */
  function KeySeq<V>(d: Dict<V>): (ks: seq<string>)
    ensures |ks| == |d|
  {
    if |d| == 0 then [] else KeySeq(d[..|d| - 1]) + [d[|d| - 1].0]
  }

  lemma {:induction false} KeySeqAt<V>(d: Dict<V>, i: nat)
    requires i < |d|
    ensures KeySeq(d)[i] == d[i].0
    decreases |d|
  {
    if i < |d| - 1 {
      KeySeqAt(d[..|d| - 1], i);
    }
  }

  /** Assigning a new key appends it to the key sequence. */
  lemma KeySeqPutNew<V>(d: Dict<V>, k: string, v: V)
    requires Valid(d) && k !in Keys(d)
    ensures KeySeq(Put(d, k, v)) == KeySeq(d) + [k]
  {
    var e := Put(d, k, v);
    assert e[..|e| - 1] == d;
  }

  /** Two dictionaries with the same keys at the same positions have the same key sequence. */
  lemma SameKeySeq<V>(d: Dict<V>, e: Dict<V>)
    requires |d| == |e| && forall i :: 0 <= i < |d| ==> d[i].0 == e[i].0
    ensures KeySeq(d) == KeySeq(e)
  {
    forall i | 0 <= i < |d| ensures KeySeq(d)[i] == KeySeq(e)[i] {
      KeySeqAt(d, i);
      KeySeqAt(e, i);
    }
  }

  /** `e` holds `d`'s keys at the same positions, possibly followed by more. */
  predicate KeysPrefix<V>(d: Dict<V>, e: Dict<V>) {
    |d| <= |e| && forall i :: 0 <= i < |d| ==> e[i].0 == d[i].0
  }

  lemma KeysPrefixTransitive<V>(a: Dict<V>, b: Dict<V>, c: Dict<V>)
    requires KeysPrefix(a, b) && KeysPrefix(b, c)
    ensures KeysPrefix(a, c)
  {
  }
}
