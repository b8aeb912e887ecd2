/** Sequence helpers that mirror the JavaScript array methods the resolver relies on. */
module Seqs {

  /** No value occurs twice. */
  predicate NoDup<T(==)>(xs: seq<T>) {
    forall i, j :: 0 <= i < j < |xs| ==> xs[i] != xs[j]
  }

  /** Appending a value not yet present keeps a sequence duplicate-free. */
  lemma NoDupSnoc<T>(xs: seq<T>, x: T)
    requires NoDup(xs) && x !in xs
    ensures NoDup(xs + [x])
  {
    var ys := xs + [x];
    forall i, j | 0 <= i < j < |ys| ensures ys[i] != ys[j] {
      if j == |xs| { assert ys[i] == xs[i]; } else { assert ys[i] == xs[i] && ys[j] == xs[j]; }
    }
  }

  /** `Array.prototype.indexOf`: the first position holding `x`, or -1 when there is none. */
  function IndexOf<T(==)>(xs: seq<T>, x: T): (r: int)
    ensures -1 <= r < |xs|
    ensures r == -1 <==> x !in xs
    ensures r >= 0 ==> xs[r] == x && x !in xs[..r]
  {
    if |xs| == 0 then -1
    else if xs[0] == x then 0
    else
      var k := IndexOf(xs[1..], x);
      if k == -1 then -1
      else
        assert xs[..k + 1] == [xs[0]] + xs[1..][..k];
        k + 1
  }

  /** The filter `(x, j, self) => self.indexOf(x) === j` applied to the positions
      `i..` of `xs`: the elements that are the first occurrence of their value. */
  function KeepFirstFrom<T(==,!new)>(xs: seq<T>, i: nat): (r: seq<T>)
    requires i <= |xs|
    ensures forall x :: x in r <==> x in xs && IndexOf(xs, x) >= i
    ensures NoDup(r)
    ensures forall a, b :: 0 <= a < b < |r| ==> IndexOf(xs, r[a]) < IndexOf(xs, r[b])
    decreases |xs| - i
  {
    if i == |xs| then []
    else
      var rest := KeepFirstFrom(xs, i + 1);
      if IndexOf(xs, xs[i]) == i then
        var r := [xs[i]] + rest;
        SingleHeadShift([xs[i]], rest, r);
        r
      else
        rest
  }

  /** Duplicate removal that keeps the first occurrence of every value, in order. */
  function KeepFirst<T(==,!new)>(xs: seq<T>): (r: seq<T>)
    ensures NoDup(r)
    ensures forall x :: x in r <==> x in xs
    ensures forall a, b :: 0 <= a < b < |r| ==> IndexOf(xs, r[a]) < IndexOf(xs, r[b])
  {
    KeepFirstFrom(xs, 0)
  }

  /** Prepending a one-element sequence: the new first element, and every later
      position shifted by one. */
  lemma SingleHeadShift<T>(hd: seq<T>, rest: seq<T>, r: seq<T>)
    requires |hd| == 1 && r == hd + rest
    ensures |r| == |rest| + 1 && r[0] == hd[0]
    ensures forall x :: x in r <==> x == hd[0] || x in rest
    ensures forall a :: 0 < a < |r| ==> r[a] == rest[a - 1]
  {
    assert forall x :: x in hd <==> x == hd[0];
  }

  /** `Array.prototype.flat()` one level deep: the lists concatenated in order. */
  function Flatten<T>(xss: seq<seq<T>>): seq<T> {
    if |xss| == 0 then [] else xss[0] + Flatten(xss[1..])
  }

  /** Flattening one list gives that list. */
  lemma FlattenOne<T>(xss: seq<seq<T>>)
    requires |xss| == 1
    ensures Flatten(xss) == xss[0]
  {
    assert xss[1..] == [];
    assert xss[0] + [] == xss[0];
  }

  /** Flattening two lists concatenates them. */
  lemma FlattenPair<T>(xss: seq<seq<T>>)
    requires |xss| == 2
    ensures Flatten(xss) == xss[0] + xss[1]
  {
    var tail := xss[1..];
    assert tail[0] == xss[1] && tail[1..] == [];
    assert Flatten(tail) == tail[0] + Flatten(tail[1..]);
    assert xss[1] + [] == xss[1];
  }

  /** Flattening a concatenation concatenates the two flattenings. */
  lemma {:induction false} FlattenAppend<T>(a: seq<seq<T>>, b: seq<seq<T>>)
    ensures Flatten(a + b) == Flatten(a) + Flatten(b)
    decreases |a|
  {
    if |a| == 0 {
      assert a + b == b;
    } else {
      assert (a + b)[0] == a[0];
      assert (a + b)[1..] == a[1..] + b;
      FlattenAppend(a[1..], b);
      AppendAssoc(a[0], Flatten(a[1..]), Flatten(b));
    }
  }

  /** Lists of one element each flatten to a list that lines up with them. */
  lemma {:induction false} FlattenSingletons<T>(xss: seq<seq<T>>)
    requires forall i :: 0 <= i < |xss| ==> |xss[i]| == 1
    ensures |Flatten(xss)| == |xss|
    ensures forall i :: 0 <= i < |xss| ==> Flatten(xss)[i] == xss[i][0]
    decreases |xss|
  {
    if |xss| > 0 {
      var tail := xss[1..];
      FlattenSingletons(tail);
      var r := Flatten(xss);
      SingleHeadShift(xss[0], Flatten(tail), r);
      forall i | 0 <= i < |xss| ensures r[i] == xss[i][0] {
        if i > 0 {
          assert tail[i - 1] == xss[i];
          assert r[i] == Flatten(tail)[i - 1];
        }
      }
    }
  }

  /** Non-empty lists flatten to at least as many elements as there are lists. */
  lemma {:induction false} FlattenCovers<T>(xss: seq<seq<T>>)
    requires forall i :: 0 <= i < |xss| ==> |xss[i]| >= 1
    ensures |Flatten(xss)| >= |xss|
    decreases |xss|
  {
    if |xss| > 0 {
      assert forall i :: 0 <= i < |xss[1..]| ==> xss[1..][i] == xss[i + 1];
      FlattenCovers(xss[1..]);
    }
  }

  /** Concatenation is associative. */
  lemma AppendAssoc<T>(a: seq<T>, b: seq<T>, c: seq<T>)
    ensures a + (b + c) == (a + b) + c
  {
  }

  /** A non-empty sequence has its first element as a member. */
  lemma FirstIsMember<T>(s: seq<T>)
    ensures |s| > 0 ==> s[0] in s
  {
  }
}
