/** A secondary index over a window of stored items: per key, the items with that key, in no fixed order. */
module Indexes {
  import opened Options

  /** Reading a Go map of slices: an absent key holds the empty slice. */
  function Slot<K, T>(index: map<K, seq<T>>, k: K): seq<T> {
    if k in index then index[k] else []
  }

  /** The items of ms with key k, in order. */
  ghost function Keyed<T, K>(key: T -> Option<K>, ms: seq<T>, k: K): seq<T> {
    if ms == [] then []
    else Keyed(key, ms[..|ms| - 1], k) + if key(ms[|ms| - 1]) == Some(k) then [ms[|ms| - 1]] else []
  }

  /** The slot holds, as a multiset, exactly the items with its key. */
  ghost predicate SlotAgrees<T, K>(index: map<K, seq<T>>, key: T -> Option<K>, ms: seq<T>, k: K) {
    multiset(Slot(index, k)) == multiset(Keyed(key, ms, k))
  }

  ghost predicate Agrees<T, K(!new)>(index: map<K, seq<T>>, key: T -> Option<K>, ms: seq<T>) {
    forall k :: SlotAgrees(index, key, ms, k)
  }

  /** Append x to its slot; items without a key are not indexed. */
  function Add<T, K>(index: map<K, seq<T>>, key: T -> Option<K>, x: T): map<K, seq<T>> {
    if key(x).None? then index
    else index[key(x).value := Slot(index, key(x).value) + [x]]
  }

  /** Overwrite position i with the last item and shorten by one. */
  function SwapOut<T>(s: seq<T>, i: nat): seq<T>
    requires i < |s|
  {
    s[i := s[|s| - 1]][..|s| - 1]
  }

  /** The first position of x in s, or |s|. */
  ghost function FirstAt<T>(s: seq<T>, x: T): (i: nat)
    ensures i <= |s| && (i < |s| ==> s[i] == x) && x !in s[..i]
  {
    if s == [] || s[0] == x then 0 else
      var i := 1 + FirstAt(s[1..], x);
      assert s[..i] == [s[0]] + s[1..][..i - 1];
      i
  }

  lemma {:induction false} FirstAtIs<T>(s: seq<T>, x: T, i: nat)
    requires i < |s| && s[i] == x && x !in s[..i]
    ensures FirstAt(s, x) == i
  {
    if i > 0 {
      assert s[..i][0] == s[0];
      assert s[..i] == [s[0]] + s[1..][..i - 1];
      FirstAtIs(s[1..], x, i - 1);
    }
  }

  /** Take one occurrence of x out of s by swap-removal, at the first position that holds it. */
  ghost function SwapRemove<T>(s: seq<T>, x: T): seq<T> {
    if FirstAt(s, x) == |s| then s else SwapOut(s, FirstAt(s, x))
  }

  ghost function RemoveAt<T, K>(index: map<K, seq<T>>, k: K, x: T): map<K, seq<T>> {
    if x !in Slot(index, k) then index else index[k := SwapRemove(Slot(index, k), x)]
  }

  ghost function Remove<T, K>(index: map<K, seq<T>>, key: T -> Option<K>, x: T): map<K, seq<T>> {
    if key(x).None? then index else RemoveAt(index, key(x).value, x)
  }

  lemma SwapOutMultiset<T>(s: seq<T>, i: nat)
    requires i < |s|
    ensures multiset(SwapOut(s, i)) == multiset(s) - multiset{s[i]}
  {
    var n := |s| - 1;
    assert s == s[..n] + [s[n]];
    if i < n {
      assert SwapOut(s, i) == s[..i] + [s[n]] + s[i + 1..n];
      assert s == s[..i] + [s[i]] + s[i + 1..n] + [s[n]];
    } else {
      assert SwapOut(s, i) == s[..n];
    }
  }

  lemma {:induction false} KeyedAppend<T, K>(key: T -> Option<K>, xs: seq<T>, ys: seq<T>, k: K)
    ensures Keyed(key, xs + ys, k) == Keyed(key, xs, k) + Keyed(key, ys, k)
  {
    if ys == [] {
      assert xs + ys == xs;
    } else {
      var n := |ys| - 1;
      KeyedAppend(key, xs, ys[..n], k);
      assert (xs + ys)[..|xs + ys| - 1] == xs + ys[..n];
    }
  }

  lemma KeyedOne<T, K>(key: T -> Option<K>, x: T, k: K)
    ensures Keyed(key, [x], k) == if key(x) == Some(k) then [x] else []
  {
    assert [x][..0] == [];
  }

  /** Storing one more item. */
  lemma AddAgrees<T, K(!new)>(index: map<K, seq<T>>, key: T -> Option<K>, ms: seq<T>, x: T)
    requires Agrees(index, key, ms)
    ensures Agrees(Add(index, key, x), key, ms + [x])
  {
    forall k ensures SlotAgrees(Add(index, key, x), key, ms + [x], k) {
      KeyedAppend(key, ms, [x], k);
      KeyedOne(key, x, k);
      assert SlotAgrees(index, key, ms, k);
    }
  }

  lemma SwapRemoveMultiset<T>(s: seq<T>, x: T)
    ensures multiset(SwapRemove(s, x)) == multiset(s) - multiset{x}
  {
    var i := FirstAt(s, x);
    if i < |s| {
      SwapOutMultiset(s, i);
    } else {
      assert s[..i] == s;
    }
  }

  lemma RemoveAgreesAt<T, K(!new)>(index: map<K, seq<T>>, key: T -> Option<K>, x: T, ms: seq<T>, k: K)
    requires SlotAgrees(index, key, [x] + ms, k)
    ensures SlotAgrees(Remove(index, key, x), key, ms, k)
  {
    KeyedAppend(key, [x], ms, k);
    KeyedOne(key, x, k);
    if key(x) == Some(k) {
      assert x in multiset(Slot(index, k));
      SwapRemoveMultiset(Slot(index, k), x);
    }
  }

  /** Swap-removing the oldest item, whatever position its slot holds it at. */
  lemma RemoveAgrees<T, K(!new)>(index: map<K, seq<T>>, key: T -> Option<K>, x: T, ms: seq<T>)
    requires Agrees(index, key, [x] + ms)
    ensures Agrees(Remove(index, key, x), key, ms)
  {
    forall k ensures SlotAgrees(Remove(index, key, x), key, ms, k) {
      RemoveAgreesAt(index, key, x, ms, k);
    }
  }

  lemma AgreesLength<T, K(!new)>(index: map<K, seq<T>>, key: T -> Option<K>, ms: seq<T>, k: K)
    requires Agrees(index, key, ms)
    ensures |Slot(index, k)| == |Keyed(key, ms, k)|
  {
    assert SlotAgrees(index, key, ms, k);
    assert |multiset(Slot(index, k))| == |multiset(Keyed(key, ms, k))|;
  }

  lemma {:induction false} KeyedHolds<T, K>(key: T -> Option<K>, ms: seq<T>, k: K, x: T)
    ensures x in Keyed(key, ms, k) <==> x in ms && key(x) == Some(k)
  {
    if ms != [] {
      var n := |ms| - 1;
      KeyedHolds(key, ms[..n], k, x);
      assert ms == ms[..n] + [ms[n]];
    }
  }

  /** Why keys must not change while an item is stored: give one stored item another key, and the index
      still agrees exactly when the key did not change. */
  lemma RetagBreaks<T, K(!new)>(index: map<K, seq<T>>, key: T -> Option<K>, retagged: T -> Option<K>, ms: seq<T>, x: T)
    requires Agrees(index, key, ms) && x in ms
    requires forall y :: y in ms && y != x ==> retagged(y) == key(y)
    ensures Agrees(index, retagged, ms) <==> retagged(x) == key(x)
  {
    if retagged(x) == key(x) {
      forall k ensures SlotAgrees(index, retagged, ms, k) {
        assert SlotAgrees(index, key, ms, k);
        KeyedSame(key, retagged, ms, k);
      }
    } else {
      var k := if key(x).Some? then key(x).value else retagged(x).value;
      KeyedHolds(key, ms, k, x);
      KeyedHolds(retagged, ms, k, x);
      assert x in multiset(Keyed(key, ms, k)) <==> x !in multiset(Keyed(retagged, ms, k));
      assert SlotAgrees(index, key, ms, k);
      assert !SlotAgrees(index, retagged, ms, k);
    }
  }

  lemma {:induction false} KeyedSame<T, K>(key: T -> Option<K>, other: T -> Option<K>, ms: seq<T>, k: K)
    requires forall y :: y in ms ==> (other(y) == Some(k) <==> key(y) == Some(k))
    ensures Keyed(other, ms, k) == Keyed(key, ms, k)
  {
    if ms != [] {
      KeyedSame(key, other, ms[..|ms| - 1], k);
    }
  }

  // Counting by key.

  function Tally<K>(counts: map<K, nat>, k: K): nat {
    if k in counts then counts[k] else 0
  }

  function Bump<K>(counts: map<K, nat>, k: Option<K>): map<K, nat> {
    if k.None? then counts else counts[k.value := Tally(counts, k.value) + 1]
  }

  ghost predicate Counts<T, K(!new)>(counts: map<K, nat>, key: T -> Option<K>, ms: seq<T>) {
    forall k :: Tally(counts, k) == |Keyed(key, ms, k)|
  }

  lemma BumpCounts<T, K(!new)>(counts: map<K, nat>, key: T -> Option<K>, ms: seq<T>, x: T)
    requires Counts(counts, key, ms)
    ensures Counts(Bump(counts, key(x)), key, ms + [x])
  {
    forall k ensures Tally(Bump(counts, key(x)), k) == |Keyed(key, ms + [x], k)| {
      KeyedAppend(key, ms, [x], k);
      KeyedOne(key, x, k);
    }
  }

  /** Counting over a rotation of the indexed items gives the lengths of the slots. */
  lemma CountsMatchSlots<T, K(!new)>(counts: map<K, nat>, index: map<K, seq<T>>, key: T -> Option<K>,
                                     xs: seq<T>, ys: seq<T>, k: K)
    requires Counts(counts, key, xs + ys) && Agrees(index, key, ys + xs)
    ensures Tally(counts, k) == |Slot(index, k)|
  {
    KeyedAppend(key, xs, ys, k);
    KeyedAppend(key, ys, xs, k);
    AgreesLength(index, key, ys + xs, k);
  }
}
