/** Facts about sequences that the proofs of the other modules share. */
module Seqs {
  lemma ConcatAssociative<T>(a: seq<T>, b: seq<T>, c: seq<T>)
    ensures a + (b + c) == (a + b) + c
  {
  }

  lemma ConcatMembers<T>(a: seq<T>, b: seq<T>)
    ensures forall x :: x in a + b <==> x in a || x in b
  {
  }

  /** The parts, concatenated in order. */
  function Flatten<T>(parts: seq<seq<T>>): seq<T> {
    if |parts| == 0 then [] else parts[0] + Flatten(parts[1..])
  }

  /** Everything in a part is in the concatenation. */
  lemma {:induction false} FlattenHoldsParts<T>(parts: seq<seq<T>>, i: nat)
    requires i < |parts|
    ensures forall x :: x in parts[i] ==> x in Flatten(parts)
    decreases i
  {
    ConcatMembers(parts[0], Flatten(parts[1..]));
    if i > 0 {
      FlattenHoldsParts(parts[1..], i - 1);
      assert parts[1..][i - 1] == parts[i];
    }
  }

  /** Everything in the concatenation comes from some part. */
  lemma {:induction false} FlattenOrigin<T>(parts: seq<seq<T>>, x: T)
    requires x in Flatten(parts)
    ensures exists i :: 0 <= i < |parts| && x in parts[i]
    decreases |parts|
  {
    ConcatMembers(parts[0], Flatten(parts[1..]));
    if x !in parts[0] {
      FlattenOrigin(parts[1..], x);
      var i :| 0 <= i < |parts[1..]| && x in parts[1..][i];
      assert parts[1..][i] == parts[i + 1];
    }
  }

  /** The elements of a sequence, as a set. */
  function Elems<T>(s: seq<T>): set<T> {
    set x | x in s
  }

  lemma ElemsConcat<T>(a: seq<T>, b: seq<T>)
    ensures Elems(a + b) == Elems(a) + Elems(b)
  {
    forall x | x in Elems(a + b) ensures x in Elems(a) + Elems(b) {
      assert x in a + b;
    }
    forall x | x in Elems(a) + Elems(b) ensures x in Elems(a + b) {
      assert x in a || x in b;
    }
  }

  lemma ElemsEmpty<T>(s: seq<T>)
    ensures Elems(s) == {} <==> |s| == 0
  {
    if |s| > 0 {
      assert s[0] in Elems(s);
    }
  }

  /**
   * The elements of `xs` not in `known`, each at its first occurrence, in
   * order: what a dictionary's new keys look like after inserting `xs`.
   */
  function FirstNew<T>(known: set<T>, xs: seq<T>): (r: seq<T>)
    ensures forall i :: 0 <= i < |r| ==> r[i] in xs && r[i] !in known
    ensures forall i, j :: 0 <= i < j < |r| ==> r[i] != r[j]
    decreases |xs|
  {
    if |xs| == 0 then []
    else if xs[0] in known then FirstNew(known, xs[1..])
    else [xs[0]] + FirstNew(known + {xs[0]}, xs[1..])
  }

  lemma ElemsCons<T>(a: seq<T>)
    requires |a| > 0
    ensures Elems(a) == {a[0]} + Elems(a[1..])
  {
    assert a == [a[0]] + a[1..];
  }

  /** First occurrences over `a + b`: those of `a`, then those of `b` not already seen. */
  lemma {:induction false} FirstNewAppend<T>(known: set<T>, a: seq<T>, b: seq<T>)
    ensures FirstNew(known, a + b) == FirstNew(known, a) + FirstNew(known + Elems(a), b)
    decreases |a|
  {
    if |a| == 0 {
      assert a + b == b;
      assert known + Elems(a) == known;
    } else {
      var x := a[0];
      assert (a + b)[0] == x && (a + b)[1..] == a[1..] + b;
      ElemsCons(a);
      if x in known {
        FirstNewAppend(known, a[1..], b);
        assert known + Elems(a[1..]) == known + Elems(a);
      } else {
        var rest := FirstNew(known + {x}, a[1..]);
        FirstNewAppend(known + {x}, a[1..], b);
        assert known + {x} + Elems(a[1..]) == known + Elems(a);
        ConcatAssociative([x], rest, FirstNew(known + Elems(a), b));
      }
    }
  }
}
