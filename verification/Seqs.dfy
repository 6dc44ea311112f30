/** Facts about sequences, multisets and sums that several modules share. */
module Seqs {

  datatype Option<+T> = None | Some(value: T)

  ghost predicate Distinct<T>(s: seq<T>) {
    forall i, j :: 0 <= i < j < |s| ==> s[i] != s[j]
  }

  /** A sequence without repetitions holds each of its elements exactly once. */
  lemma {:induction false} DistinctCounts<T>(s: seq<T>, x: T)
    requires Distinct(s)
    ensures multiset(s)[x] == if x in s then 1 else 0
  {
    if s == [] {
    } else {
      var init, last := s[..|s| - 1], s[|s| - 1];
      assert s == init + [last];
      DistinctCounts(init, x);
      assert last !in init;
    }
  }

  lemma {:induction false} DistinctSize<T(!new)>(s: seq<T>, elements: set<T>)
    requires Distinct(s)
    requires forall x :: x in s <==> x in elements
    ensures |s| == |elements|
  {
    if s == [] {
      assert elements == {};
    } else {
      var init, last := s[..|s| - 1], s[|s| - 1];
      assert s == init + [last];
      assert last !in init;
      DistinctSize(init, elements - {last});
    }
  }

  // ---- Gathering parts ---------------------------------------------------

  function Part<K(==), V>(parts: map<K, seq<V>>, k: K): seq<V> {
    if k in parts then parts[k] else []
  }

  /** The parts under the given keys, one after another. */
  function Gather<K(==), V>(parts: map<K, seq<V>>, keys: seq<K>): seq<V> {
    if keys == [] then [] else Gather(parts, keys[..|keys| - 1]) + Part(parts, keys[|keys| - 1])
  }

  lemma {:induction false} GatherSplit<K, V>(parts: map<K, seq<V>>, a: seq<K>, b: seq<K>)
    ensures Gather(parts, a + b) == Gather(parts, a) + Gather(parts, b)
  {
    if b == [] {
      assert a + b == a;
    } else {
      assert (a + b)[..|a + b| - 1] == a + b[..|b| - 1];
      GatherSplit(parts, a, b[..|b| - 1]);
    }
  }

  lemma GatherOne<K, V>(parts: map<K, seq<V>>, k: K)
    ensures Gather(parts, [k]) == Part(parts, k)
  {
    assert [k][..0] == [];
  }

  lemma GatherAppend<K, V>(parts: map<K, seq<V>>, keys: seq<K>, k: K)
    ensures Gather(parts, keys + [k]) == Gather(parts, keys) + Part(parts, k)
  {
    GatherSplit(parts, keys, [k]);
    GatherOne(parts, k);
  }

  lemma GatherWithout<K, V>(parts: map<K, seq<V>>, keys: seq<K>, i: nat)
    requires i < |keys|
    ensures multiset(Gather(parts, keys))
         == multiset(Gather(parts, keys[..i] + keys[i + 1..])) + multiset(Part(parts, keys[i]))
  {
    hide Gather, Part;
    assert keys == keys[..i] + [keys[i]] + keys[i + 1..];
    GatherSplit(parts, keys[..i] + [keys[i]], keys[i + 1..]);
    GatherAppend(parts, keys[..i], keys[i]);
    GatherSplit(parts, keys[..i], keys[i + 1..]);
  }

  lemma DropLast<K>(a: seq<K>, b: seq<K>) returns (i: nat)
    requires multiset(a) <= multiset(b) && a != []
    ensures i < |b| && b[i] == a[|a| - 1]
    ensures multiset(a[..|a| - 1]) <= multiset(b[..i] + b[i + 1..])
  {
    var n := |a| - 1;
    assert a == a[..n] + [a[n]];
    assert a[n] in multiset(a);
    assert a[n] in b;
    i :| 0 <= i < |b| && b[i] == a[n];
    assert b == b[..i] + [b[i]] + b[i + 1..];
    assert multiset(b) == multiset(b[..i] + b[i + 1..]) + multiset{b[i]};
    assert multiset(a[..n]) == multiset(a) - multiset{a[n]};
  }

  /** What is gathered depends on the keys, not on their order. */
  lemma {:induction false} GatherMonotone<K, V>(parts: map<K, seq<V>>, a: seq<K>, b: seq<K>)
    requires multiset(a) <= multiset(b)
    ensures multiset(Gather(parts, a)) <= multiset(Gather(parts, b))
    decreases |a|
  {
    if a != [] {
      var n := |a| - 1;
      var i := DropLast(a, b);
      GatherMonotone(parts, a[..n], b[..i] + b[i + 1..]);
      GatherWithout(parts, b, i);
    }
  }

  // ---- Sums --------------------------------------------------------------

  function Sum(s: seq<nat>): nat {
    if s == [] then 0 else Sum(s[..|s| - 1]) + s[|s| - 1]
  }

  lemma {:induction false} SumUpdate(s: seq<nat>, i: nat, x: nat)
    requires i < |s|
    ensures Sum(s[i := x]) == Sum(s) - s[i] + x
    ensures s[i] <= Sum(s)
  {
    var n := |s| - 1;
    if i == n {
      assert s[i := x][..n] == s[..n];
    } else {
      SumUpdate(s[..n], i, x);
      assert s[i := x][..n] == s[..n][i := x];
    }
  }

  lemma {:induction false} SumBound(s: seq<nat>, b: nat)
    requires forall i :: 0 <= i < |s| ==> s[i] <= b
    ensures Sum(s) <= b * |s|
  {
    if s != [] {
      SumBound(s[..|s| - 1], b);
      assert b * |s| == b * (|s| - 1) + b;
    }
  }

  lemma {:induction false} SumWitness(s: seq<nat>) returns (i: nat)
    requires Sum(s) > 0
    ensures i < |s| && s[i] > 0
  {
    var n := |s| - 1;
    if s[n] > 0 {
      i := n;
    } else {
      i := SumWitness(s[..n]);
    }
  }
}
