/**
  The variable bag: Rust's `BTreeMap<String, String>`, modelled as an association list whose
  keys are strictly ascending. Iterating it visits the keys in ascending order, as a B-tree map
  does, and `ToMap` gives the mapping it stands for.
 */
module VarBags {

  /**
    Strict lexicographic order on strings, character by character. Rust orders `String`s by
    their UTF-8 bytes, which is the same as ordering by code points.
   */
  predicate Below(a: string, b: string)
    ensures Below(a, b) ==> a != b
    decreases |a|
  {
    if |a| == 0 then |b| > 0
    else if |b| == 0 then false
    else a[0] < b[0] || (a[0] == b[0] && Below(a[1..], b[1..]))
  }

  lemma {:induction false} BelowTransitive(a: string, b: string, c: string)
    requires Below(a, b) && Below(b, c)
    ensures Below(a, c)
    decreases |a|
  {
    if |a| > 0 && a[0] == b[0] && b[0] == c[0] {
      BelowTransitive(a[1..], b[1..], c[1..]);
    }
  }

  lemma {:induction false} BelowTotal(a: string, b: string)
    requires a != b
    ensures Below(a, b) || Below(b, a)
    decreases |a|
  {
    if |a| > 0 && |b| > 0 && a[0] == b[0] {
      assert a == [a[0]] + a[1..] && b == [b[0]] + b[1..];
      BelowTotal(a[1..], b[1..]);
    }
  }

  /** Keys strictly ascending, checked on neighbours: no key twice, iteration order is key order. */
  predicate Sorted(entries: seq<(string, string)>) {
    |entries| < 2 || (Below(entries[0].0, entries[1].0) && Sorted(entries[1..]))
  }

  type VarBag = entries: seq<(string, string)> | Sorted(entries) witness []

  /** `VarBag::new()` */
  const Empty: VarBag := []

  /** The keys a bag lists. */
  function Keys(b: seq<(string, string)>): set<string> {
    if |b| == 0 then {} else {b[0].0} + Keys(b[1..])
  }

  /** The mapping a bag stands for. */
  function ToMap(b: VarBag): (m: map<string, string>)
    ensures m.Keys == Keys(b)
  {
    if |b| == 0 then map[] else ToMap(b[1..])[b[0].0 := b[0].1]
  }

  /** Every key of a bag's tail lies strictly above its first key. */
  lemma {:induction false} TailAbove(b: VarBag, k: string)
    requires |b| > 0 && k in Keys(b[1..])
    ensures Below(b[0].0, k)
    decreases |b|
  {
    var t := b[1..];
    if k != t[0].0 {
      TailAbove(t, k);
      BelowTransitive(b[0].0, t[0].0, k);
    }
  }

  /**
    `BTreeMap::insert`: sets `k` to `v`, overwriting an earlier value. The result is again a
    bag, so the new key lands in its sorted place, and it starts with the least of `k` and the
    old first key.
   */
  function Insert(b: VarBag, k: string, v: string): (r: VarBag)
    ensures ToMap(r) == ToMap(b)[k := v]
    ensures |r| > 0 && (r[0].0 == k || (|b| > 0 && r[0] == b[0]))
    decreases |b|
  {
    if |b| == 0 then [(k, v)]
    else if k == b[0].0 then
      assert ([(k, v)] + b[1..])[1..] == b[1..];
      [(k, v)] + b[1..]
    else if Below(k, b[0].0) then
      assert ([(k, v)] + b)[1..] == b;
      [(k, v)] + b
    else
      var rest := Insert(b[1..], k, v);
      BelowTotal(k, b[0].0);
      assert ([b[0]] + rest)[1..] == rest;
      [b[0]] + rest
  }

  /** The first key of a non-empty bag is its least key. */
  lemma FirstIsLeast(b: VarBag, k: string)
    requires |b| > 0 && k in ToMap(b) && k != b[0].0
    ensures Below(b[0].0, k)
  {
    TailAbove(b, k);
  }

  lemma TailMap(b: VarBag)
    requires |b| > 0
    ensures ToMap(b[1..]) == ToMap(b) - {b[0].0}
  {
    if b[0].0 in Keys(b[1..]) {
      TailAbove(b, b[0].0);
    }
  }

  /**
    A bag is determined by the mapping it stands for: there is exactly one ascending list per
    map, so the order the runner visits keys in depends only on the keys.
   */
  lemma {:induction false} Canonical(a: VarBag, b: VarBag)
    requires ToMap(a) == ToMap(b)
    ensures a == b
    decreases |a|
  {
    if |a| == 0 {
    } else {
      assert a[0].0 in ToMap(a);
      SameHead(a, b);
      TailMap(a);
      TailMap(b);
      Canonical(a[1..], b[1..]);
      assert a == [a[0]] + a[1..] && b == [b[0]] + b[1..];
    }
  }

  /** Two bags for the same non-empty map start with the same, least, entry. */
  lemma SameHead(a: VarBag, b: VarBag)
    requires |a| > 0 && |b| > 0 && ToMap(a) == ToMap(b)
    ensures a[0] == b[0]
  {
    if a[0].0 != b[0].0 {
      assert b[0].0 in ToMap(a) && a[0].0 in ToMap(b);
      FirstIsLeast(a, b[0].0);
      FirstIsLeast(b, a[0].0);
      BelowTransitive(a[0].0, b[0].0, a[0].0);
      assert false;
    }
  }

  /** Inserting the same key twice keeps only the second value. */
  lemma InsertOverwrites(b: VarBag, k: string, v1: string, v2: string)
    ensures Insert(Insert(b, k, v1), k, v2) == Insert(b, k, v2)
  {
    var x := Insert(Insert(b, k, v1), k, v2);
    var y := Insert(b, k, v2);
    assert ToMap(x) == ToMap(y) by {
      UpdateTwice(ToMap(b), k, v1, v2);
    }
    Canonical(x, y);
  }

  lemma UpdateTwice(m: map<string, string>, k: string, v1: string, v2: string)
    ensures m[k := v1][k := v2] == m[k := v2]
  {
  }

  lemma UpdatesCommute(m: map<string, string>, k1: string, v1: string, k2: string, v2: string)
    requires k1 != k2
    ensures m[k1 := v1][k2 := v2] == m[k2 := v2][k1 := v1]
  {
  }

  /** Inserts of distinct keys commute. */
  lemma InsertCommutes(b: VarBag, k1: string, v1: string, k2: string, v2: string)
    requires k1 != k2
    ensures Insert(Insert(b, k1, v1), k2, v2) == Insert(Insert(b, k2, v2), k1, v1)
  {
    var x := Insert(Insert(b, k1, v1), k2, v2);
    var y := Insert(Insert(b, k2, v2), k1, v1);
    assert ToMap(x) == ToMap(y) by {
      UpdatesCommute(ToMap(b), k1, v1, k2, v2);
    }
    Canonical(x, y);
  }
}
