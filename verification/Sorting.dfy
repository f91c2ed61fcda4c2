/** Mapping, summing and sorting sequences. `sort.Slice` and `sort.Strings` are modelled by an
    insertion sort on a string key; since keys are distinct wherever the results matter, every
    other sorting algorithm returns the same list (SortedUnique). */
module Sorting {
  import opened Strings

  function Map<A, B>(f: A -> B, s: seq<A>): (r: seq<B>)
    ensures |r| == |s|
    ensures forall i | 0 <= i < |s| :: r[i] == f(s[i])
  {
    if s == [] then [] else [f(s[0])] + Map(f, s[1..])
  }

  ghost predicate DistinctKeys<T>(s: seq<T>, key: T -> string) {
    forall i, j | 0 <= i < j < |s| :: key(s[i]) != key(s[j])
  }

  ghost predicate NoRepeats(s: seq<string>) {
    forall i, j | 0 <= i < j < |s| :: s[i] != s[j]
  }

  /** These are some of the elements, in their order. */
  ghost predicate PickedAt<T>(at: seq<nat>, picked: seq<T>, s: seq<T>) {
    && |at| == |picked|
    && (forall k | 0 <= k < |at| :: at[k] < |s| && picked[k] == s[at[k]])
    && (forall k, l | 0 <= k < l < |at| :: at[k] < at[l])
  }

  lemma PickNext<T>(at: seq<nat>, picked: seq<T>, s: seq<T>)
    requires s != [] && PickedAt(at, picked, s[..|s| - 1])
    ensures PickedAt(at, picked, s)
    ensures PickedAt(at + [|s| - 1], picked + [s[|s| - 1]], s)
  {}

  ghost predicate SortedBy<T>(s: seq<T>, key: T -> string) {
    forall i, j | 0 <= i < j < |s| :: !Less(key(s[j]), key(s[i]))
  }

  function InsertBy<T>(x: T, s: seq<T>, key: T -> string): (r: seq<T>)
    ensures multiset(r) == multiset(s) + multiset{x}
  {
    if s == [] then [x]
    else if Less(key(s[0]), key(x)) then
      assert s == [s[0]] + s[1..];
      [s[0]] + InsertBy(x, s[1..], key)
    else [x] + s
  }

  function SortBy<T>(s: seq<T>, key: T -> string): (r: seq<T>)
    ensures multiset(r) == multiset(s)
  {
    if s == [] then []
    else
      assert s == [s[0]] + s[1..];
      InsertBy(s[0], SortBy(s[1..], key), key)
  }

  lemma {:induction false} InsertBySorted<T>(x: T, s: seq<T>, key: T -> string)
    requires SortedBy(s, key)
    ensures SortedBy(InsertBy(x, s, key), key)
  {
    if s != [] {
      if Less(key(s[0]), key(x)) {
        InsertBySorted(x, s[1..], key);
        var rest := InsertBy(x, s[1..], key);
        forall j | 0 <= j < |rest| ensures !Less(key(rest[j]), key(s[0])) {
          assert rest[j] in multiset(rest);
          if rest[j] == x {
            LessAsymmetric(key(s[0]), key(x));
          } else {
            assert rest[j] in multiset(s[1..]);
            var k :| 0 <= k < |s[1..]| && s[1..][k] == rest[j];
            assert s[k + 1] == rest[j];
          }
        }
      } else {
        forall j | 0 <= j < |s| ensures !Less(key(s[j]), key(x)) {
          if Less(key(s[j]), key(x)) {
            LessTotal(key(s[0]), key(x));
            if Less(key(x), key(s[0])) {
              LessTransitive(key(s[j]), key(x), key(s[0]));
            }
          }
        }
      }
    }
  }

  lemma {:induction false} SortBySorted<T>(s: seq<T>, key: T -> string)
    ensures SortedBy(SortBy(s, key), key)
  {
    if s != [] {
      SortBySorted(s[1..], key);
      InsertBySorted(s[0], SortBy(s[1..], key), key);
    }
  }

  lemma RemoveAt<T>(a: seq<T>, i: nat)
    requires i < |a|
    ensures multiset(a) == multiset(a[..i] + a[i + 1..]) + multiset{a[i]}
  {
    var l, r := a[..i], a[i + 1..];
    assert a == l + [a[i]] + r;
    assert multiset(l + [a[i]] + r) == multiset(l) + multiset{a[i]} + multiset(r);
    assert multiset(l + r) == multiset(l) + multiset(r);
  }

  /** An element of a list can be found in any permutation of it; dropping it from both leaves
      permutations. */
  lemma DropCommon<T>(a: seq<T>, i: nat, b: seq<T>) returns (k: nat)
    requires multiset(a) == multiset(b) && i < |a|
    ensures k < |b| && b[k] == a[i]
    ensures multiset(a[..i] + a[i + 1..]) == multiset(b[..k] + b[k + 1..])
  {
    assert a[i] in multiset(b);
    k :| 0 <= k < |b| && b[k] == a[i];
    RemoveAt(a, i);
    RemoveAt(b, k);
    MultisetCancel(multiset(a[..i] + a[i + 1..]), multiset(b[..k] + b[k + 1..]), a[i]);
  }

  lemma MultisetCancel<T>(a: multiset<T>, b: multiset<T>, x: T)
    requires a + multiset{x} == b + multiset{x}
    ensures a == b
  {
    assert a == (a + multiset{x}) - multiset{x};
    assert b == (b + multiset{x}) - multiset{x};
  }

  /** Distinctness is a property of the multiset. */
  lemma DistinctKeysPermute<T>(a: seq<T>, b: seq<T>, key: T -> string)
    requires multiset(a) == multiset(b) && DistinctKeys(a, key)
    ensures DistinctKeys(b, key)
  {
    forall i, j | 0 <= i < j < |b| ensures key(b[i]) != key(b[j]) {
      var k := DropCommon(b, i, a);
      var restB, restA := b[..i] + b[i + 1..], a[..k] + a[k + 1..];
      assert restB[j - 1] == b[j];
      assert b[j] in multiset(restA);
      var q :| 0 <= q < |restA| && restA[q] == b[j];
      assert a[if q < k then q else q + 1] == b[j];
    }
  }

  lemma {:induction false} AtMostOnce(a: seq<string>, x: string)
    requires NoRepeats(a)
    ensures multiset(a)[x] == if x in a then 1 else 0
  {
    if a != [] {
      var n := |a| - 1;
      AtMostOnce(a[..n], x);
      assert a == a[..n] + [a[n]];
    }
  }

  lemma NoRepeatsPermute(a: seq<string>, b: seq<string>)
    requires NoRepeats(a) && NoRepeats(b) && forall x :: x in a <==> x in b
    ensures multiset(a) == multiset(b)
  {
    forall x ensures multiset(a)[x] == multiset(b)[x] {
      AtMostOnce(a, x);
      AtMostOnce(b, x);
    }
  }

  lemma SameHead<T>(a: seq<T>, b: seq<T>, key: T -> string)
    requires multiset(a) == multiset(b) && a != [] && b != []
    requires DistinctKeys(a, key) && SortedBy(a, key) && SortedBy(b, key)
    ensures a[0] == b[0]
  {
    assert a[0] in multiset(b) && b[0] in multiset(a);
    var i :| 0 <= i < |b| && b[i] == a[0];
    var j :| 0 <= j < |a| && a[j] == b[0];
    LessTotal(key(a[0]), key(b[0]));
  }

  lemma HeadMultiset<T>(a: seq<T>)
    requires a != []
    ensures multiset(a) == multiset(a[1..]) + multiset{a[0]}
  {
    assert a == [a[0]] + a[1..];
  }

  lemma TailMultiset<T>(a: seq<T>, b: seq<T>)
    requires multiset(a) == multiset(b) && a != [] && b != [] && a[0] == b[0]
    ensures multiset(a[1..]) == multiset(b[1..])
  {
    HeadMultiset(a);
    HeadMultiset(b);
    MultisetCancel(multiset(a[1..]), multiset(b[1..]), a[0]);
  }

  lemma TailSorted<T>(s: seq<T>, key: T -> string)
    requires s != []
    ensures SortedBy(s, key) ==> SortedBy(s[1..], key)
    ensures DistinctKeys(s, key) ==> DistinctKeys(s[1..], key)
    ensures s == [s[0]] + s[1..]
  {}

  /** With distinct keys there is only one sorted arrangement, so the sorting algorithm and the
      order of its input do not matter. */
  lemma {:induction false} SortedUnique<T>(a: seq<T>, b: seq<T>, key: T -> string)
    requires multiset(a) == multiset(b)
    requires DistinctKeys(a, key) && SortedBy(a, key) && SortedBy(b, key)
    ensures a == b
    decreases |a|
  {
    hide SortedBy, DistinctKeys;
    assert |a| == |multiset(a)| == |multiset(b)| == |b|;
    if a != [] {
      SameHead(a, b, key);
      TailMultiset(a, b);
      TailSorted(a, key);
      TailSorted(b, key);
      SortedUnique(a[1..], b[1..], key);
    }
  }

  lemma SortByPermute<T>(a: seq<T>, b: seq<T>, key: T -> string)
    requires multiset(a) == multiset(b) && DistinctKeys(a, key)
    ensures SortBy(a, key) == SortBy(b, key)
  {
    SortBySorted(a, key);
    SortBySorted(b, key);
    DistinctKeysPermute(a, SortBy(a, key), key);
    SortedUnique(SortBy(a, key), SortBy(b, key), key);
  }

  /** Sorting the images is mapping the sorted originals when the images carry the same keys. */
  lemma {:induction false} InsertByMap<A, B>(f: A -> B, x: A, s: seq<A>, ka: A -> string, kb: B -> string)
    requires kb(f(x)) == ka(x) && forall i | 0 <= i < |s| :: kb(f(s[i])) == ka(s[i])
    ensures InsertBy(f(x), Map(f, s), kb) == Map(f, InsertBy(x, s, ka))
  {
    if s != [] && Less(ka(s[0]), ka(x)) {
      InsertByMap(f, x, s[1..], ka, kb);
      assert Map(f, s)[1..] == Map(f, s[1..]);
      assert InsertBy(x, s, ka) == [s[0]] + InsertBy(x, s[1..], ka);
      assert InsertBy(f(x), Map(f, s), kb) == [f(s[0])] + Map(f, InsertBy(x, s[1..], ka));
    } else {
      assert InsertBy(x, s, ka) == [x] + s;
      assert InsertBy(f(x), Map(f, s), kb) == [f(x)] + Map(f, s);
    }
  }

  lemma {:induction false} SortByMap<A, B>(f: A -> B, s: seq<A>, ka: A -> string, kb: B -> string)
    requires forall i | 0 <= i < |s| :: kb(f(s[i])) == ka(s[i])
    ensures SortBy(Map(f, s), kb) == Map(f, SortBy(s, ka))
  {
    if s != [] {
      SortByMap(f, s[1..], ka, kb);
      var t := SortBy(s[1..], ka);
      assert Map(f, s)[1..] == Map(f, s[1..]);
      forall i | 0 <= i < |t| ensures kb(f(t[i])) == ka(t[i]) {
        assert t[i] in multiset(s[1..]);
        var j :| 0 <= j < |s[1..]| && s[1..][j] == t[i];
      }
      InsertByMap(f, s[0], t, ka, kb);
    }
  }

  /** The multiset sum of f over s. */
  function Collect<A, B>(s: seq<A>, f: A -> multiset<B>): multiset<B> {
    if s == [] then multiset{} else Collect(s[..|s| - 1], f) + f(s[|s| - 1])
  }

  lemma {:induction false} CollectConcat<A, B>(a: seq<A>, b: seq<A>, f: A -> multiset<B>)
    ensures Collect(a + b, f) == Collect(a, f) + Collect(b, f)
  {
    if b == [] {
      assert a + b == a;
    } else {
      assert (a + b)[..|a + b| - 1] == a + b[..|b| - 1];
      CollectConcat(a, b[..|b| - 1], f);
    }
  }

  lemma CollectLast<A, B>(s: seq<A>, x: A, f: A -> multiset<B>)
    ensures Collect(s + [x], f) == Collect(s, f) + f(x)
  {
    assert (s + [x])[..|s|] == s;
  }

  lemma CollectMiddle<A, B>(l: seq<A>, x: A, r: seq<A>, f: A -> multiset<B>)
    ensures Collect(l + [x] + r, f) == Collect(l + r, f) + f(x)
  {
    hide Collect;
    CollectConcat(l + [x], r, f);
    CollectConcat(l, r, f);
    CollectLast(l, x, f);
  }

  lemma {:induction false} CollectPermute<A, B>(a: seq<A>, b: seq<A>, f: A -> multiset<B>)
    requires multiset(a) == multiset(b)
    ensures Collect(a, f) == Collect(b, f)
    decreases |a|
  {
    hide Collect;
    assert |a| == |multiset(a)| == |multiset(b)| == |b|;
    if a == [] {
      assert b == a;
    } else {
      var n := |a| - 1;
      var k := DropCommon(a, n, b);
      var l, r := b[..k], b[k + 1..];
      assert a[..n] + a[n + 1..] == a[..n];
      CollectPermute(a[..n], l + r, f);
      CollectMiddle(l, a[n], r, f);
      CollectLast(a[..n], a[n], f);
      assert a == a[..n] + [a[n]];
      assert b == l + [a[n]] + r;
    }
  }

  function Singletons<A, B>(f: A -> B): A -> multiset<B> {
    (x: A) => multiset{f(x)}
  }

  lemma MapPermute<A, B>(f: A -> B, a: seq<A>, b: seq<A>)
    requires multiset(a) == multiset(b)
    ensures multiset(Map(f, a)) == multiset(Map(f, b))
  {
    MapCollect(f, a);
    MapCollect(f, b);
    CollectPermute(a, b, Singletons(f));
  }

  lemma MapLast<A, B>(f: A -> B, s: seq<A>, x: A)
    ensures Map(f, s + [x]) == Map(f, s) + [f(x)]
  {
    hide Map;
  }

  lemma {:induction false} MapCollect<A, B>(f: A -> B, s: seq<A>)
    ensures multiset(Map(f, s)) == Collect(s, Singletons(f))
  {
    if s != [] {
      hide Map, Collect;
      var n := |s| - 1;
      assert s == s[..n] + [s[n]];
      MapCollect(f, s[..n]);
      MapLast(f, s[..n], s[n]);
      CollectLast(s[..n], s[n], Singletons(f));
    }
  }
}
