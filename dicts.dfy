/**
 * Python's `dict` with string keys, as its entries in insertion order.
 * Assigning an existing key keeps its position, a new key goes last, `del`
 * removes the entry, and `{**a, **b}` copies `a` and then assigns every entry
 * of `b` in order.
 */
module Dicts {

  function Keys<V>(d: seq<(string, V)>): (ks: seq<string>)
    ensures |ks| == |d| && forall i :: 0 <= i < |d| ==> ks[i] == d[i].0
  {
    seq(|d|, i requires 0 <= i < |d| => d[i].0)
  }

  predicate DistinctKeys<V>(d: seq<(string, V)>) {
    forall i, j :: 0 <= i < j < |d| ==> d[i].0 != d[j].0
  }

  type Dict<V> = d: seq<(string, V)> | DistinctKeys(d) witness []

  /** `k in d` */
  predicate Has<V>(d: Dict<V>, k: string) {
    k in Keys(d)
  }

  /** The position of key `k` among the entries. */
  function IndexOf<V>(d: Dict<V>, k: string): (i: nat)
    requires Has(d, k)
    ensures i < |d| && d[i].0 == k
    ensures forall j :: 0 <= j < |d| && d[j].0 == k ==> j == i
  {
    var i :| 0 <= i < |d| && Keys(d)[i] == k;
    i
  }

  /** `d[k]` */
  function Get<V>(d: Dict<V>, k: string): V
    requires Has(d, k)
  {
    d[IndexOf(d, k)].1
  }

  /** `d[k] = v`: an existing key keeps its position, a new one is appended. */
  function Set<V>(d: Dict<V>, k: string, v: V): (r: Dict<V>)
    ensures Has(d, k) ==> |r| == |d| && Keys(r) == Keys(d)
    ensures !Has(d, k) ==> r == d + [(k, v)] && Keys(r) == Keys(d) + [k]
    ensures forall x :: Has(r, x) <==> x == k || Has(d, x)
    ensures Get(r, k) == v
    ensures forall x :: x != k && Has(d, x) ==> Get(r, x) == Get(d, x)
  {
    if Has(d, k) then
      var i := IndexOf(d, k);
      var r := d[i := (k, v)];
      assert Keys(r) == Keys(d);
      r
    else
      var r := d + [(k, v)];
      assert Keys(r) == Keys(d) + [k];
      r
  }

  /** Assigning a key twice leaves only the second value. */
  lemma SetTwice<V>(d: Dict<V>, k: string, a: V, b: V)
    ensures Set(Set(d, k, a), k, b) == Set(d, k, b)
  {
    DictEquality(Set(Set(d, k, a), k, b), Set(d, k, b));
  }

  /** `del d[k]` for a key that is present. */
  function Delete<V>(d: Dict<V>, k: string): (r: Dict<V>)
    requires Has(d, k)
    ensures Keys(r) == Keys(d)[..IndexOf(d, k)] + Keys(d)[IndexOf(d, k) + 1..]
    ensures forall x :: Has(r, x) <==> x != k && Has(d, x)
    ensures forall x :: Has(r, x) ==> Get(r, x) == Get(d, x)
  {
    var i := IndexOf(d, k);
    var r := d[..i] + d[i + 1..];
    CutEntries(d, i, r);
    CutKeys(d, i, r);
    var r': Dict<V> := r;
    CutValues(d, i, r');
    r'
  }

  /** Cutting entry `i` out shifts the later entries down by one. */
  lemma CutEntries<V>(d: Dict<V>, i: nat, r: seq<(string, V)>)
    requires i < |d| && r == d[..i] + d[i + 1..]
    ensures |r| == |d| - 1
    ensures forall j :: 0 <= j < |r| ==> r[j] == d[if j < i then j else j + 1]
    ensures DistinctKeys(r)
  {
  }

  lemma CutKeys<V>(d: Dict<V>, i: nat, r: seq<(string, V)>)
    requires i < |d| && |r| == |d| - 1
    requires forall j :: 0 <= j < |r| ==> r[j] == d[if j < i then j else j + 1]
    ensures Keys(r) == Keys(d)[..i] + Keys(d)[i + 1..]
    ensures forall x :: x in Keys(r) <==> x != d[i].0 && x in Keys(d)
  {
    var kr, kd := Keys(r), Keys(d);
    forall j | 0 <= j < |kr| ensures kr[j] == (kd[..i] + kd[i + 1..])[j] {
      if j < i {
        assert kr[j] == d[j].0;
      } else {
        assert kr[j] == d[j + 1].0;
      }
    }
    assert kr == kd[..i] + kd[i + 1..];
    forall x | x in Keys(d) && x != d[i].0 ensures x in Keys(r) {
      var j :| 0 <= j < |d| && d[j].0 == x;
      assert r[if j < i then j else j - 1].0 == x;
    }
  }

  lemma CutValues<V>(d: Dict<V>, i: nat, r: Dict<V>)
    requires i < |d| && |r| == |d| - 1
    requires forall j :: 0 <= j < |r| ==> r[j] == d[if j < i then j else j + 1]
    ensures forall x :: Has(r, x) ==> Has(d, x) && Get(r, x) == Get(d, x)
  {
    forall x | Has(r, x) ensures Has(d, x) && Get(r, x) == Get(d, x) {
      var j := IndexOf(r, x);
      assert r[j] == d[if j < i then j else j + 1];
    }
  }

  /** The keys of `ks`, in order, that are not in `seen`. */
  function Fresh(ks: seq<string>, seen: set<string>): (r: seq<string>)
  {
    if ks == [] then []
    else (if ks[0] in seen then [] else [ks[0]]) + Fresh(ks[1..], seen)
  }

  lemma {:induction false} FreshMembers(ks: seq<string>, seen: set<string>)
    ensures forall x :: x in Fresh(ks, seen) <==> x in ks && x !in seen
  {
    if ks != [] {
      FreshMembers(ks[1..], seen);
      assert ks == [ks[0]] + ks[1..];
    }
  }

  /** `{**a, **b}` */
  function Overlay<V>(a: Dict<V>, b: Dict<V>): Dict<V>
    decreases |b|
  {
    if b == [] then a
    else
      DictTail(b);
      Overlay(Set(a, b[0].0, b[0].1), b[1..])
  }

  /**
   * The keys of `{**a, **b}` are those of `a` then the new ones of `b`, in
   * order; a value of `b` wins over one of `a`.
   */
  lemma {:induction false} OverlayFacts<V>(a: Dict<V>, b: Dict<V>)
    ensures forall x :: Has(Overlay(a, b), x) <==> Has(a, x) || Has(b, x)
    ensures forall x :: Has(Overlay(a, b), x) ==> Get(Overlay(a, b), x) == if Has(b, x) then Get(b, x) else Get(a, x)
    ensures Keys(Overlay(a, b)) == Keys(a) + Fresh(Keys(b), Elements(Keys(a)))
    decreases |b|
  {
    if b != [] {
      var a' := Set(a, b[0].0, b[0].1);
      var b' : Dict<V> := b[1..];
      DictTail(b);
      OverlayFacts(a', b');
      FreshSplit(Keys(a), Keys(a'), Keys(b), b[0].0);
    }
  }

  /** The entries of a dict after its first one. */
  lemma DictTail<V>(b: Dict<V>)
    requires b != []
    ensures DistinctKeys(b[1..])
    ensures forall x :: Has(b, x) <==> x == b[0].0 || Has(b[1..], x)
    ensures !Has(b[1..], b[0].0)
    ensures Keys(b) == [b[0].0] + Keys(b[1..])
    ensures Get(b, b[0].0) == b[0].1
    ensures forall x :: Has(b[1..], x) ==> Get(b[1..], x) == Get(b, x)
  {
    var t: Dict<V> := b[1..];
    assert Keys(b) == [b[0].0] + Keys(t);
    assert IndexOf(b, b[0].0) == 0;
    forall x | Has(t, x) ensures Get(t, x) == Get(b, x) {
      assert b[IndexOf(t, x) + 1] == t[IndexOf(t, x)];
    }
  }

  /** A new key put in front of a dict. */
  lemma DictCons<V>(k: string, v: V, rest: Dict<V>)
    requires !Has(rest, k)
    ensures DistinctKeys([(k, v)] + rest)
    ensures forall x :: Has([(k, v)] + rest, x) <==> x == k || Has(rest, x)
    ensures Get([(k, v)] + rest, k) == v
    ensures forall x :: Has(rest, x) ==> Get([(k, v)] + rest, x) == Get(rest, x)
  {
    var r := [(k, v)] + rest;
    assert Keys(r) == [k] + Keys(rest);
    assert IndexOf(r, k) == 0;
    forall x | Has(rest, x)
      ensures Get(r, x) == Get(rest, x)
    {
      assert r[IndexOf(rest, x) + 1] == rest[IndexOf(rest, x)];
    }
  }

  /** The elements of a list of keys, as a set. */
  function Elements(ks: seq<string>): (r: set<string>)
    ensures forall x :: x in r <==> x in ks
  {
    set x | x in ks
  }

  lemma {:induction false} FreshSplit(ka: seq<string>, ka': seq<string>, kb: seq<string>, k: string)
    requires kb != [] && kb[0] == k && k !in kb[1..]
    requires ka' == if k in ka then ka else ka + [k]
    ensures ka' + Fresh(kb[1..], Elements(ka')) == ka + Fresh(kb, Elements(ka))
  {
    var rest := Fresh(kb[1..], Elements(ka));
    var seen, seen' := Elements(ka), Elements(ka');
    assert Fresh(kb, seen) == (if k in seen then [] else [k]) + rest;
    if k !in ka {
      forall x | x in kb[1..]
        ensures x in seen' <==> x in seen
      {
        assert x != k;
      }
      FreshSame(kb[1..], seen', seen);
      assert ka' + rest == ka + ([k] + rest);
    }
  }

  lemma {:induction false} FreshSame(ks: seq<string>, s1: set<string>, s2: set<string>)
    requires forall x :: x in ks ==> (x in s1 <==> x in s2)
    ensures Fresh(ks, s1) == Fresh(ks, s2)
  {
    if ks != [] {
      FreshSame(ks[1..], s1, s2);
    }
  }

  /** Two dicts with the same keys in the same order and the same values are equal. */
  lemma {:induction false} DictEquality<V>(x: Dict<V>, y: Dict<V>)
    requires Keys(x) == Keys(y)
    requires forall k :: Has(x, k) ==> Get(x, k) == Get(y, k)
    ensures x == y
  {
    forall i | 0 <= i < |x|
      ensures x[i] == y[i]
    {
      assert Has(x, x[i].0);
      assert IndexOf(x, x[i].0) == i;
      assert IndexOf(y, x[i].0) == i;
    }
  }
  lemma {:induction false} FreshAppend(xs: seq<string>, ys: seq<string>, seen: set<string>)
    ensures Fresh(xs + ys, seen) == Fresh(xs, seen) + Fresh(ys, seen)
  {
    if xs != [] {
      var head := if xs[0] in seen then [] else [xs[0]];
      assert (xs + ys)[0] == xs[0];
      assert (xs + ys)[1..] == xs[1..] + ys;
      assert Fresh(xs + ys, seen) == head + Fresh(xs[1..] + ys, seen);
      assert Fresh(xs, seen) == head + Fresh(xs[1..], seen);
      FreshAppend(xs[1..], ys, seen);
    } else {
      assert xs + ys == ys;
    }
  }

  lemma {:induction false} FreshTwice(ks: seq<string>, s1: set<string>, s2: set<string>)
    ensures Fresh(Fresh(ks, s1), s2) == Fresh(ks, s1 + s2)
  {
    if ks != [] {
      var rest := Fresh(ks[1..], s1);
      FreshTwice(ks[1..], s1, s2);
      if ks[0] in s1 {
        assert Fresh(ks, s1) == rest;
      } else {
        assert Fresh(ks, s1) == [ks[0]] + rest;
        FreshAppend([ks[0]], rest, s2);
        assert Fresh([ks[0]], s2) == if ks[0] in s2 then [] else [ks[0]];
      }
    }
  }

  lemma {:induction false} FreshNothing(ks: seq<string>)
    ensures Fresh(ks, {}) == ks
  {
    if ks != [] {
      FreshNothing(ks[1..]);
      assert ks == [ks[0]] + ks[1..];
    }
  }

  /** `{**{}, **d} == d` */
  lemma OverlayEmpty<V>(d: Dict<V>)
    ensures Overlay([], d) == d
  {
    var e: Dict<V> := [];
    OverlayFacts(e, d);
    assert Elements(Keys(e)) == {};
    FreshNothing(Keys(d));
    DictEquality(Overlay(e, d), d);
  }

  /** The key order of a nested overlay does not depend on how it is nested. */
  lemma {:induction false} OverlayKeysAssociative(ka: seq<string>, kb: seq<string>, kc: seq<string>)
    ensures (ka + Fresh(kb, Elements(ka))) + Fresh(kc, Elements(ka + Fresh(kb, Elements(ka))))
         == ka + Fresh(kb + Fresh(kc, Elements(kb)), Elements(ka))
  {
    var fb := Fresh(kb, Elements(ka));
    var kab := ka + fb;
    FreshMembers(kb, Elements(ka));
    assert Elements(kab) == Elements(kb) + Elements(ka);
    calc {
      ka + Fresh(kb + Fresh(kc, Elements(kb)), Elements(ka));
      { FreshAppend(kb, Fresh(kc, Elements(kb)), Elements(ka)); }
      ka + (fb + Fresh(Fresh(kc, Elements(kb)), Elements(ka)));
      { FreshTwice(kc, Elements(kb), Elements(ka)); }
      ka + (fb + Fresh(kc, Elements(kab)));
      kab + Fresh(kc, Elements(kab));
    }
  }

  /** `{**{**a, **b}, **c} == {**a, **{**b, **c}}`: overlays associate, key order included. */
  lemma {:induction false} OverlayAssociative<V>(a: Dict<V>, b: Dict<V>, c: Dict<V>)
    ensures Overlay(Overlay(a, b), c) == Overlay(a, Overlay(b, c))
  {
    var ab, bc := Overlay(a, b), Overlay(b, c);
    var l, r := Overlay(ab, c), Overlay(a, bc);
    OverlayFacts(a, b);
    OverlayFacts(b, c);
    OverlayFacts(ab, c);
    OverlayFacts(a, bc);
    OverlayKeysAssociative(Keys(a), Keys(b), Keys(c));
    assert Keys(l) == Keys(r);
    forall k | Has(l, k)
      ensures Get(l, k) == Get(r, k)
    {
      if Has(c, k) {
        assert Get(l, k) == Get(c, k) == Get(bc, k) == Get(r, k);
      } else if Has(b, k) {
        assert Get(l, k) == Get(ab, k) == Get(b, k) == Get(bc, k) == Get(r, k);
      } else {
        assert Get(l, k) == Get(ab, k) == Get(a, k) == Get(r, k);
      }
    }
    DictEquality(l, r);
  }
}
