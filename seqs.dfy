/**
 * Sequence facts shared by the citation formatter and the route map: stable
 * de-duplication (the `seen`/`unique` loop the repository writes twice) and
 * filtering a fixed candidate list by presence.
 */
module Seqs {
  import opened Wrappers

  predicate NoDup<T(==)>(s: seq<T>)
  {
    forall i, j :: 0 <= i < j < |s| ==> s[i] != s[j]
  }

  /** The prefix one longer is the prefix plus the next element. */
  lemma TakeSnoc<T>(s: seq<T>, k: nat)
    requires k < |s|
    ensures s[..k + 1] == s[..k] + [s[k]]
  {
  }

  /** The position of the first occurrence of `x` in `s`. */
  function FirstIndex<T(==)>(s: seq<T>, x: T): (k: nat)
    requires x in s
    ensures k < |s| && s[k] == x && x !in s[..k]
  {
    if s[0] == x then 0
    else
      var k := 1 + FirstIndex(s[1..], x);
      assert s[..k] == [s[0]] + s[1..][..k - 1];
      k
  }

  /** Appending an element never moves the first occurrence of an element already present. */
  lemma FirstIndexSnoc<T>(s: seq<T>, y: T, x: T)
    requires x in s
    ensures FirstIndex(s + [y], x) == FirstIndex(s, x)
  {
    var k, k' := FirstIndex(s, x), FirstIndex(s + [y], x);
    assert (s + [y])[..|s|] == s;
    assert (s + [y])[k] == x;
    assert k' < |s| && s[k'] == x;
  }

  /** The first occurrences of `s`, in the order they first occur. */
  function Distinct<T(==)>(s: seq<T>): seq<T>
  {
    if s == [] then []
    else
      var d := Distinct(s[..|s| - 1]);
      if s[|s| - 1] in d then d else d + [s[|s| - 1]]
  }

  /**
   * What stable de-duplication promises: no repeats, exactly the elements of
   * the input, never longer than it, and ordered by first occurrence.
   */
  lemma {:induction false} DistinctSpec<T>(s: seq<T>)
    ensures NoDup(Distinct(s))
    ensures forall x :: x in Distinct(s) <==> x in s
    ensures |Distinct(s)| <= |s|
    ensures forall i, j :: 0 <= i < j < |Distinct(s)| ==>
              FirstIndex(s, Distinct(s)[i]) < FirstIndex(s, Distinct(s)[j])
  {
    if s != [] {
      var init, y := s[..|s| - 1], s[|s| - 1];
      assert s == init + [y];
      DistinctSpec(init);
      var d := Distinct(init);
      forall x | x in init ensures FirstIndex(s, x) == FirstIndex(init, x) {
        FirstIndexSnoc(init, y, x);
      }
      if y !in d {
        var r := d + [y];
        assert FirstIndex(s, y) == |init| by {
          assert s[..|init|] == init;
        }
        forall i, j | 0 <= i < j < |r| ensures FirstIndex(s, r[i]) < FirstIndex(s, r[j]) {
          if j < |d| {
            assert r[i] == d[i] && r[j] == d[j];
          } else {
            assert r[i] == d[i] && d[i] in d;
          }
        }
      }
    }
  }

  /** `[x, y, x, z]` de-duplicates to `[x, y, z]`. */
  lemma DistinctExample<T>(x: T, y: T, z: T)
    requires x != y && y != z && x != z
    ensures Distinct([x, y, x, z]) == [x, y, z]
  {
    assert [x][..0] == [];
    assert Distinct([x]) == [x];
    assert [x, y][..1] == [x];
    assert Distinct([x, y]) == [x, y];
    assert [x, y, x][..2] == [x, y];
    assert Distinct([x, y, x]) == [x, y];
    assert [x, y, x, z][..3] == [x, y, x];
  }

  /** The `seen`/`unique` loop: keeps each element the first time it is met. */
  method Dedupe<T(==)>(s: seq<T>) returns (unique: seq<T>)
    ensures unique == Distinct(s)
    ensures NoDup(unique) && |unique| <= |s|
    ensures forall x :: x in unique <==> x in s
  {
    var seen: set<T> := {};
    unique := [];
    for i := 0 to |s|
      invariant unique == Distinct(s[..i])
      invariant forall x :: x in seen <==> x in unique
    {
      assert s[..i + 1][..i] == s[..i];
      if s[i] !in seen {
        unique := unique + [s[i]];
        seen := seen + {s[i]};
      }
    }
    assert s[..|s|] == s;
    DistinctSpec(s);
  }

  /** The elements of `s` that lie in `present`, in the order of `s`. */
  function KeepPresent<T(==)>(s: seq<T>, present: set<T>): (r: seq<T>)
    ensures |r| <= |s|
    ensures forall i :: 0 <= i < |r| ==> r[i] in s && r[i] in present
    ensures forall i :: 0 <= i < |s| && s[i] in present ==> s[i] in r
  {
    if s == [] then []
    else
      var init := s[..|s| - 1];
      var r := KeepPresent(init, present);
      assert forall i :: 0 <= i < |init| ==> init[i] == s[i];
      if s[|s| - 1] in present then r + [s[|s| - 1]] else r
  }

  /** The kept elements come in the order of `s`, each once when `s` has no repeats. */
  lemma {:induction false} KeepPresentOrder<T>(s: seq<T>, present: set<T>)
    requires NoDup(s)
    ensures NoDup(KeepPresent(s, present))
    ensures forall i, j :: 0 <= i < j < |KeepPresent(s, present)| ==>
              FirstIndex(s, KeepPresent(s, present)[i]) < FirstIndex(s, KeepPresent(s, present)[j])
  {
    if s != [] {
      var init, x := s[..|s| - 1], s[|s| - 1];
      assert s == init + [x];
      KeepPresentOrder(init, present);
      var r', r := KeepPresent(init, present), KeepPresent(s, present);
      forall y | y in init ensures FirstIndex(s, y) == FirstIndex(init, y) {
        FirstIndexSnoc(init, x, y);
      }
      if x in present {
        assert r == r' + [x];
        assert x !in init;
        assert FirstIndex(s, x) == |s| - 1;
        forall i, j | 0 <= i < j < |r| ensures FirstIndex(s, r[i]) < FirstIndex(s, r[j]) {
          assert r[i] == r'[i] && r[i] in init;
          if j < |r'| {
            assert r[j] == r'[j];
          }
        }
      }
      forall i, j | 0 <= i < j < |r| ensures r[i] != r[j] {
        assert FirstIndex(s, r[i]) < FirstIndex(s, r[j]);
      }
    }
  }

  /** In a sequence without repeats every element occurs at most once. */
  lemma {:induction false} NoDupCount<T>(s: seq<T>, x: T)
    requires NoDup(s)
    ensures multiset(s)[x] <= 1
  {
    if s != [] {
      assert s == [s[0]] + s[1..];
      assert NoDup(s[1..]) by {
        forall i, j | 0 <= i < j < |s[1..]| ensures s[1..][i] != s[1..][j] {
          assert s[1..][i] == s[i + 1] && s[1..][j] == s[j + 1];
        }
      }
      NoDupCount(s[1..], x);
      assert s[0] !in s[1..];
    }
  }

  /** A rearrangement of a sequence without repeats has none either. */
  lemma PermutationKeepsNoDup<T>(s: seq<T>, r: seq<T>)
    requires NoDup(s) && multiset(r) == multiset(s)
    ensures NoDup(r)
  {
    forall i, j | 0 <= i < j < |r| ensures r[i] != r[j] {
      var x := r[j];
      assert r == r[..j] + r[j..];
      assert r[..j][i] == r[i];
      assert r[j..][0] == x;
      assert multiset(r)[x] == multiset(r[..j])[x] + multiset(r[j..])[x];
      assert multiset(r[j..])[x] >= 1;
      NoDupCount(s, x);
      assert multiset(r[..j])[x] == 0;
    }
  }

  /** `[f(x) for x in s]`. */
  function Map<A, B>(s: seq<A>, f: A -> B): (r: seq<B>)
    ensures |r| == |s|
    ensures forall i :: 0 <= i < |s| ==> r[i] == f(s[i])
  {
    if s == [] then [] else Map(s[..|s| - 1], f) + [f(s[|s| - 1])]
  }

  /** Mapping one more element appends its image. */
  lemma MapSnoc<A, B>(s: seq<A>, f: A -> B, k: nat)
    requires k < |s|
    ensures Map(s[..k + 1], f) == Map(s[..k], f) + [f(s[k])]
  {
    assert s[..k + 1][..k] == s[..k];
  }

  /** Mapping a concatenation maps each part. */
  lemma {:induction false} MapAppend<A, B>(s: seq<A>, t: seq<A>, f: A -> B)
    ensures Map(s + t, f) == Map(s, f) + Map(t, f)
  {
    var l, r := Map(s + t, f), Map(s, f) + Map(t, f);
    assert |l| == |r|;
    forall i | 0 <= i < |l| ensures l[i] == r[i] {
      if i < |s| {
        assert (s + t)[i] == s[i];
      } else {
        assert (s + t)[i] == t[i - |s|];
      }
    }
  }

  lemma ConcatAssoc<T>(a: seq<T>, b: seq<T>, c: seq<T>)
    ensures a + b + c == a + (b + c)
  {
  }

  /** Where the middle parts of `pre + xs + ys + post` sit. */
  lemma ConcatParts<T>(pre: seq<T>, xs: seq<T>, ys: seq<T>, post: seq<T>)
    ensures forall i :: 0 <= i < |xs| ==> (pre + xs + ys + post)[|pre| + i] == xs[i]
    ensures forall j :: 0 <= j < |ys| ==> (pre + xs + ys + post)[|pre| + |xs| + j] == ys[j]
  {
  }

  // ---------------------------------------------------------------------------
  // Python dicts: entries in insertion order, keys unique
  // ---------------------------------------------------------------------------

  function Keys<K, V>(d: seq<(K, V)>): (ks: seq<K>)
    ensures |ks| == |d|
    ensures forall i :: 0 <= i < |d| ==> ks[i] == d[i].0
  {
    if d == [] then [] else Keys(d[..|d| - 1]) + [d[|d| - 1].0]
  }

  /** `d[k]`, or `None` when `k` is not a key. */
  function Get<K(==), V>(d: seq<(K, V)>, k: K): (r: Option<V>)
    ensures r.Some? <==> k in Keys(d)
    ensures r.Some? ==> (k, r.value) in d
  {
    if d == [] then None
    else if d[|d| - 1].0 == k then Some(d[|d| - 1].1)
    else
      var r := Get(d[..|d| - 1], k);
      assert Keys(d) == Keys(d[..|d| - 1]) + [d[|d| - 1].0];
      r
  }

  /**
   * `d[k] = v`: a new key goes at the end; an existing key keeps its place
   * and takes the new value.
   */
  function Put<K(==), V>(d: seq<(K, V)>, k: K, v: V): (r: seq<(K, V)>)
    ensures k in Keys(d) ==> |r| == |d|
    ensures k !in Keys(d) ==> r == d + [(k, v)]
    ensures forall i :: 0 <= i < |r| ==> r[i] == (if i < |d| && d[i].0 != k then d[i] else (k, v))
  {
    if k in Keys(d) then seq(|d|, i requires 0 <= i < |d| => if d[i].0 == k then (k, v) else d[i])
    else d + [(k, v)]
  }

  /** `Put` keeps the keys unique and the key order, and the key then maps to the new value. */
  lemma PutSpec<K, V>(d: seq<(K, V)>, k: K, v: V)
    requires NoDup(Keys(d))
    ensures NoDup(Keys(Put(d, k, v)))
    ensures Get(Put(d, k, v), k) == Some(v)
    ensures forall k' :: k' != k ==> Get(Put(d, k, v), k') == Get(d, k')
    ensures Keys(Put(d, k, v)) == if k in Keys(d) then Keys(d) else Keys(d) + [k]
  {
    var r := Put(d, k, v);
    assert Keys(r) == if k in Keys(d) then Keys(d) else Keys(d) + [k];
    forall k' | k' != k ensures Get(r, k') == Get(d, k') {
      if k' in Keys(d) {
        var i :| 0 <= i < |d| && Keys(d)[i] == k';
        GetAt(d, k', i);
        GetAt(r, k', i);
      }
    }
    var i :| 0 <= i < |r| && Keys(r)[i] == k;
    GetAt(r, k, i);
  }

  /** With unique keys, `Get` returns the value of the one entry with that key. */
  lemma {:induction false} GetAt<K, V>(d: seq<(K, V)>, k: K, i: nat)
    requires NoDup(Keys(d)) && i < |d| && d[i].0 == k
    ensures Get(d, k) == Some(d[i].1)
  {
    var last := |d| - 1;
    if i < last {
      var init := d[..last];
      var ks := Keys(d);
      assert ks[i] != ks[last];
      assert Keys(init) == ks[..last];
      GetAt(init, k, i);
    }
  }

  /** A property every entry has, and the new entry has, holds for every entry after `Put`. */
  lemma PutKeeps<K, V>(d: seq<(K, V)>, k: K, v: V, p: ((K, V)) -> bool)
    requires forall i :: 0 <= i < |d| ==> p(d[i])
    requires p((k, v))
    ensures forall i :: 0 <= i < |Put(d, k, v)| ==> p(Put(d, k, v)[i])
  {
  }
}
