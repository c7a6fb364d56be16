/**
 * Plain JavaScript objects with string keys, as the consent code uses them:
 * an ordered list of (key, value) pairs in `Object.keys` enumeration order
 * (insertion order). A fresh assignment appends; an assignment to a present
 * key overwrites it where it stands.
 */
module Assoc {
  import opened Wrappers

  type Dict<V> = seq<(string, V)>

  /** `Object.keys(d)`. */
  function Keys<V>(d: Dict<V>): (ks: seq<string>)
    ensures |ks| == |d| && forall i :: 0 <= i < |d| ==> ks[i] == d[i].0
  {
    seq(|d|, i requires 0 <= i < |d| => d[i].0)
  }

  /** No string occurs twice. */
  predicate Unique(xs: seq<string>)
  {
    forall i, j :: 0 <= i < j < |xs| ==> xs[i] != xs[j]
  }

  /** `d[k]` when the key may be absent (`None`). */
  function Get<V>(d: Dict<V>, k: string): Option<V>
  {
    if d == [] then None
    else if d[0].0 == k then Some(d[0].1)
    else Get(d[1..], k)
  }

  /** A key is found exactly when it is present, and what is found is stored under it. */
  lemma {:induction false} GetSpec<V>(d: Dict<V>, k: string)
    ensures Get(d, k).Some? <==> k in Keys(d)
    ensures Get(d, k).Some? ==> (k, Get(d, k).value) in d
  {
    if d != [] {
      assert d == [d[0]] + d[1..];
      KeysCons(d[0], d[1..]);
      if d[0].0 != k {
        GetSpec(d[1..], k);
      }
    }
  }

  /** With unique keys, looking up the key of any entry finds that entry's value. */
  lemma {:induction false} GetAt<V>(d: Dict<V>, i: nat)
    requires Unique(Keys(d)) && i < |d|
    ensures Get(d, d[i].0) == Some(d[i].1)
  {
    if i > 0 {
      assert Keys(d[1..]) == Keys(d)[1..];
      GetAt(d[1..], i - 1);
    }
  }

  /** `d[k] = v`: overwrites a present key in place, otherwise appends. */
  function Put<V>(d: Dict<V>, k: string, v: V): Dict<V>
  {
    if d == [] then [(k, v)]
    else if d[0].0 == k then [(k, v)] + d[1..]
    else [d[0]] + Put(d[1..], k, v)
  }

  /** A present key keeps its place; a new key goes last. */
  lemma {:induction false} PutKeys<V>(d: Dict<V>, k: string, v: V)
    ensures Keys(Put(d, k, v)) == if k in Keys(d) then Keys(d) else Keys(d) + [k]
  {
    if d != [] {
      assert d == [d[0]] + d[1..];
      KeysCons(d[0], d[1..]);
      if d[0].0 == k {
        KeysCons((k, v), d[1..]);
      } else {
        PutKeys(d[1..], k, v);
        KeysCons(d[0], Put(d[1..], k, v));
      }
    }
  }

  /** The keys of an entry followed by a dictionary. */
  lemma KeysCons<V>(e: (string, V), d: Dict<V>)
    ensures Keys([e] + d) == [e.0] + Keys(d)
  {
  }

  /** After `d[k] = v`, `d[k]` is `v` and every other key reads as before. */
  lemma {:induction false} PutGet<V>(d: Dict<V>, k: string, v: V, k': string)
    ensures Get(Put(d, k, v), k') == if k' == k then Some(v) else Get(d, k')
  {
    if d != [] && d[0].0 != k {
      var r := Put(d, k, v);
      assert r[1..] == Put(d[1..], k, v);
      PutGet(d[1..], k, v, k');
    }
  }

  /** The members of `xs` in order of first occurrence: how `new Set(xs)` enumerates them. */
  function Dedup(xs: seq<string>): (r: seq<string>)
    ensures Unique(r)
    ensures forall x :: x in r <==> x in xs
  {
    if xs == [] then []
    else
      var d := Dedup(xs[..|xs| - 1]);
      assert xs == xs[..|xs| - 1] + [xs[|xs| - 1]];
      if xs[|xs| - 1] in d then d else d + [xs[|xs| - 1]]
  }

  /** One more element is kept exactly when it is new. */
  lemma DedupStep(xs: seq<string>, i: nat)
    requires i < |xs|
    ensures Dedup(xs[..i + 1]) == if xs[i] in Dedup(xs[..i]) then Dedup(xs[..i]) else Dedup(xs[..i]) + [xs[i]]
  {
    assert xs[..i + 1][..i] == xs[..i];
  }

  /** The members of `ys` that are not in `xs`, in order. */
  function Without(ys: seq<string>, xs: seq<string>): (r: seq<string>)
    ensures forall y :: y in r <==> y in ys && y !in xs
  {
    if ys == [] then []
    else
      var w := Without(ys[..|ys| - 1], xs);
      assert ys == ys[..|ys| - 1] + [ys[|ys| - 1]];
      if ys[|ys| - 1] in xs then w else w + [ys[|ys| - 1]]
  }

  /** A list without repetitions enumerates as itself. */
  lemma {:induction false} DedupOfUnique(xs: seq<string>)
    requires Unique(xs)
    ensures Dedup(xs) == xs
  {
    if xs != [] {
      var init := xs[..|xs| - 1];
      assert Unique(init);
      DedupOfUnique(init);
      assert xs[|xs| - 1] !in init;
      assert xs == init + [xs[|xs| - 1]];
    }
  }

  /** The union of two repetition-free lists lists the first, then what only the second has. */
  lemma {:induction false} DedupConcat(xs: seq<string>, ys: seq<string>)
    requires Unique(xs) && Unique(ys)
    ensures Dedup(xs + ys) == xs + Without(ys, xs)
  {
    if ys == [] {
      assert xs + ys == xs;
      DedupOfUnique(xs);
    } else {
      var init, y := ys[..|ys| - 1], ys[|ys| - 1];
      assert Unique(init);
      DedupConcat(xs, init);
      assert (xs + ys)[..|xs + ys| - 1] == xs + init;
      assert y !in init;
    }
  }

  /**
   * `entries.reduce((acc, [k, v]) => { acc[k] = v; return acc; }, {})`:
   * each key once, in order of first assignment.
   */
  function Reduce<V>(entries: Dict<V>): (r: Dict<V>)
    ensures Unique(Keys(r))
    ensures Keys(r) == Dedup(Keys(entries))
  {
    if entries == [] then []
    else
      var init, last := entries[..|entries| - 1], entries[|entries| - 1];
      assert Keys(init) == Keys(entries)[..|entries| - 1];
      PutKeys(Reduce(init), last.0, last.1);
      Put(Reduce(init), last.0, last.1)
  }

  /** Last write wins: the value stored under a key is that of its last entry. */
  lemma {:induction false} ReduceLastWins<V>(entries: Dict<V>, i: nat)
    requires i < |entries|
    requires forall j :: i < j < |entries| ==> entries[j].0 != entries[i].0
    ensures Get(Reduce(entries), entries[i].0) == Some(entries[i].1)
  {
    var init, last := entries[..|entries| - 1], entries[|entries| - 1];
    PutGet(Reduce(init), last.0, last.1, entries[i].0);
    if i < |entries| - 1 {
      ReduceLastWins(init, i);
    }
  }

  /** Assigning a key that is not there appends it. */
  lemma {:induction false} PutAbsent<V>(d: Dict<V>, k: string, v: V)
    requires k !in Keys(d)
    ensures Put(d, k, v) == d + [(k, v)]
  {
    if d != [] {
      assert Keys(d)[0] == d[0].0;
      assert Keys(d[1..]) == Keys(d)[1..];
      PutAbsent(d[1..], k, v);
      assert Put(d, k, v) == [d[0]] + (d[1..] + [(k, v)]);
      assert d == [d[0]] + d[1..];
    }
  }

  /** Reducing entries whose keys are all different rebuilds them unchanged. */
  lemma {:induction false} ReduceOfUnique<V>(entries: Dict<V>)
    requires Unique(Keys(entries))
    ensures Reduce(entries) == entries
  {
    if entries != [] {
      var init, last := entries[..|entries| - 1], entries[|entries| - 1];
      assert entries == init + [last];
      var ks := Keys(entries);
      assert Keys(init) == ks[..|entries| - 1];
      assert Unique(Keys(init));
      ReduceOfUnique(init);
      assert last.0 == ks[|entries| - 1];
      assert last.0 !in Keys(init);
      PutAbsent(init, last.0, last.1);
      assert Reduce(entries) == Put(Reduce(init), last.0, last.1);
    }
  }

  /** Appending an entry leaves the lookups of other keys alone. */
  lemma {:induction false} GetSnoc<V>(d: Dict<V>, k: string, v: V, k': string)
    requires k' != k
    ensures Get(d + [(k, v)], k') == Get(d, k')
  {
    if d != [] {
      assert (d + [(k, v)])[1..] == d[1..] + [(k, v)];
      GetSnoc(d[1..], k, v, k');
    }
  }

  /** A key that no entry assigns is absent from the result. */
  lemma ReduceAbsent<V>(entries: Dict<V>, k: string)
    requires k !in Keys(entries)
    ensures Get(Reduce(entries), k) == None
  {
    GetSpec(Reduce(entries), k);
  }
}
