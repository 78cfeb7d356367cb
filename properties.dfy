/**
  What the operations of Store promise: reads agree with each other, a write
  is read back, the stores stay separated, deletion and insertion at the ends
  of `@seq` move exactly the entries they should.
 */
module Properties {
  import opened Wrappers
  import Assoc
  import opened Store

  // ---------------------------------------------------------------- reads

  /**
    has_key?, [] and fetch agree: a present key reads the same through [] and
    fetch, a missing key reads the default through [], and fetch fails exactly
    when the key is missing and neither a default argument nor a block is given.
   */
  lemma FetchAgreesWithGet<V>(st: State<V>, d: Defaults<V>, key: Key, fallback: Option<V>, block: Option<Key -> V>)
    ensures HasKey(st, key) ==> Fetch(st, key, fallback, block) == Success(Get(st, d, key))
    ensures !HasKey(st, key) ==> Get(st, d, key) == Fallback(d, Some(key))
    ensures Fetch(st, key, fallback, block).Failure? <==> !HasKey(st, key) && fallback.None? && block.None?
    ensures Fetch(st, key, fallback, block).Failure? ==> Fetch(st, key, fallback, block).error == KeyError(key)
    ensures !HasKey(st, key) && fallback.Some? ==> Fetch(st, key, fallback, block) == Success(fallback.value)
    ensures !HasKey(st, key) && fallback.None? && block.Some? ==>
              Fetch(st, key, fallback, block) == Success(block.value(key))
  {
  }

  /** The integer keys of Indexed(s, from) are exactly from .. |s|-1, and each reads its element. */
  lemma {:induction false} IndexedHasKey<V>(s: seq<V>, from: nat, k: Key)
    requires from <= |s|
    ensures Assoc.HasKey(Indexed(s, from), k) <==> k.Int? && from <= k.i < |s|
    ensures Assoc.HasKey(Indexed(s, from), k) ==> Assoc.Lookup(Indexed(s, from), k) == s[k.i]
    decreases |s| - from
  {
    var l := Indexed(s, from);
    if from < |s| {
      IndexedHasKey(s, from + 1, k);
      assert l[1..] == Indexed(s, from + 1);
    }
  }

  lemma {:induction false} IndexedDistinct<V>(s: seq<V>, from: nat)
    requires from <= |s|
    ensures Assoc.Distinct(Indexed(s, from))
    decreases |s| - from
  {
    var l := Indexed(s, from);
    if from < |s| {
      IndexedDistinct(s, from + 1);
      assert l[1..] == Indexed(s, from + 1);
      IndexedHasKey(s, from + 1, Int(from));
    }
  }

  /**
    keys, values and each describe the same entries in the same order: `@seq`
    by index and then `@rnd` in insertion order; all three have `size` elements.
   */
  lemma ViewsAgree<V>(st: State<V>)
    ensures |Keys(st)| == |Values(st)| == |Each(st)| == Size(st)
    ensures forall p :: 0 <= p < Size(st) ==> Keys(st)[p] == Each(st)[p].0 && Values(st)[p] == Each(st)[p].1
  {
    var n := |st.sequential|;
    forall p | 0 <= p < Size(st) ensures Keys(st)[p] == Each(st)[p].0 && Values(st)[p] == Each(st)[p].1 {
      if p >= n {
        Assoc.KeysAt(st.random, p - n);
      }
    }
  }

  /**
    keys lists only present keys, and every present key that names one slot
    whatever the size of `@seq` (a non-negative integer or a non-integer); a
    negative key that only `@seq` answers for is not listed.
   */
  lemma KeysArePresent<V>(st: State<V>)
    ensures forall k :: k in Keys(st) ==> HasKey(st, k)
    ensures forall k :: Fixed(k) && HasKey(st, k) ==> k in Keys(st)
    ensures forall k: Key :: k.Int? && k.i < 0 && !Assoc.HasKey(st.random, k) ==> k !in Keys(st)
  {
    var n := |st.sequential|;
    forall k: Key
      ensures (k in Keys(st) ==> HasKey(st, k)) && (Fixed(k) && HasKey(st, k) ==> k in Keys(st))
      ensures k.Int? && k.i < 0 && !Assoc.HasKey(st.random, k) ==> k !in Keys(st)
    {
      Assoc.HasKeyIsInKeys(st.random, k);
      if k in SeqKeys(n) {
        var j :| 0 <= j < n && SeqKeys(n)[j] == k;
      }
      if k.Int? && 0 <= k.i < n {
        assert Keys(st)[k.i] == k;
      }
    }
  }

  /** With the invariant, keys lists no key twice. */
  lemma KeysDistinct<V>(st: State<V>)
    requires Valid(st)
    ensures forall p, q :: 0 <= p < q < |Keys(st)| ==> Keys(st)[p] != Keys(st)[q]
  {
    var n := |st.sequential|;
    var ks := Keys(st);
    forall p, q | 0 <= p < q < |ks| ensures ks[p] != ks[q] {
      if p < n <= q {
        Assoc.KeysAt(st.random, q - n);
        Assoc.HasKeyAt(st.random, q - n);
      } else if n <= p {
        Assoc.KeysAt(st.random, p - n);
        Assoc.KeysAt(st.random, q - n);
        Assoc.DistinctAt(st.random, p - n, q - n);
      }
    }
  }

  /**
    With the invariant, every pair each yields is present and reads its value
    through [], and no key is yielded twice.
   */
  lemma EachAgreesWithGet<V>(st: State<V>, d: Defaults<V>)
    requires Valid(st)
    ensures forall p :: 0 <= p < |Each(st)| ==> HasKey(st, Each(st)[p].0) && Get(st, d, Each(st)[p].0) == Each(st)[p].1
    ensures Assoc.Distinct(Each(st))
  {
    var n := |st.sequential|;
    var e := Each(st);
    forall p | 0 <= p < |e| ensures HasKey(st, e[p].0) && Get(st, d, e[p].0) == e[p].1 {
      if p >= n {
        assert e[p] == st.random[p - n];
        Assoc.LookupAt(st.random, p - n);
      }
    }
    IndexedDistinct(st.sequential, 0);
    forall p | 0 <= p < n ensures !Assoc.HasKey(st.random, Indexed(st.sequential, 0)[p].0) {
    }
    Assoc.DistinctAppend(Indexed(st.sequential, 0), st.random);
  }

  // ------------------------------------------------------------ migration

  /**
    The migration loop changes no read of a fixed key (a non-integer or an
    integer >= 0): an entry moved from `@rnd` to `@seq` keeps its key and value.
   */
  lemma {:induction false} AbsorbKeepsFixedReads<V>(st: State<V>, d: Defaults<V>, key: Key)
    requires Fixed(key)
    ensures HasKey(Absorb(st), key) == HasKey(st, key)
    ensures Get(Absorb(st), d, key) == Get(st, d, key)
    decreases |st.random|
  {
    var n := |st.sequential|;
    if Assoc.HasKey(st.random, Int(n)) {
      var next := State(st.sequential + [Assoc.Lookup(st.random, Int(n))], Assoc.Delete(st.random, Int(n)));
      AbsorbKeepsFixedReads(next, d, key);
      if key != Int(n) {
        Assoc.DeleteLookup(st.random, Int(n), key);
      }
    }
  }

  /** The migration loop keeps the invariant and the total size. */
  lemma {:induction false} AbsorbKeepsValid<V>(st: State<V>)
    requires Valid(st)
    ensures Valid(Absorb(st)) && Size(Absorb(st)) == Size(st)
    decreases |st.random|
  {
    var n := |st.sequential|;
    if Assoc.HasKey(st.random, Int(n)) {
      var next := State(st.sequential + [Assoc.Lookup(st.random, Int(n))], Assoc.Delete(st.random, Int(n)));
      Assoc.DeleteDistinct(st.random, Int(n));
      forall j | 0 <= j < n + 1 ensures !Assoc.HasKey(next.random, Int(j)) {
        if j < n {
          Assoc.DeleteLookup(st.random, Int(n), Int(j));
        }
      }
      AbsorbKeepsValid(next);
    }
  }

  // ---------------------------------------------------------------- []=

  /** Before migration, a fixed key already reads back its new value. */
  lemma PlaceThenGet<V>(st: State<V>, d: Defaults<V>, key: Key, v: V)
    requires Fixed(key)
    ensures HasKey(Place(st, key, v), key) && Get(Place(st, key, v), d, key) == v
  {
    var n := |st.sequential|;
    if !(key.Int? && Abs(key.i) <= n) {
      Assoc.PutLookup(st.random, key, v, key);
    }
  }

  /**
    After `s[k] = v` with k a non-integer or an integer >= 0, `s[k]` is v and
    has_key?(k) holds, whether v stayed in `@rnd` or migrated into `@seq`.
   */
  lemma AssignThenGet<V>(st: State<V>, d: Defaults<V>, key: Key, v: V)
    requires Fixed(key)
    ensures HasKey(Assign(st, key, v), key)
    ensures Get(Assign(st, key, v), d, key) == v
    ensures Fetch(Assign(st, key, v), key, None, None) == Success(v)
  {
    PlaceThenGet(st, d, key, v);
    AbsorbKeepsFixedReads(Place(st, key, v), d, key);
  }

  /** `s[k] = v` with a fixed key k changes no read of any other fixed key. */
  lemma AssignFrame<V>(st: State<V>, d: Defaults<V>, key: Key, v: V, other: Key)
    requires Fixed(key) && Fixed(other) && other != key
    ensures HasKey(Assign(st, key, v), other) == HasKey(st, other)
    ensures Get(Assign(st, key, v), d, other) == Get(st, d, other)
  {
    var n := |st.sequential|;
    var pl := Place(st, key, v);
    if key.Int? && Abs(key.i) <= n {
      Assoc.DeleteLookup(st.random, key, other);
    } else {
      Assoc.PutLookup(st.random, key, v, other);
    }
    AbsorbKeepsFixedReads(pl, d, other);
  }

  /** Before migration, []= keeps the invariant; a fixed key adds one to the size exactly when it was missing. */
  lemma PlaceKeepsValid<V>(st: State<V>, key: Key, v: V)
    requires Valid(st)
    ensures Valid(Place(st, key, v))
    ensures Fixed(key) ==> Size(Place(st, key, v)) == Size(st) + (if HasKey(st, key) then 0 else 1)
  {
    var n := |st.sequential|;
    var pl := Place(st, key, v);
    if key.Int? && Abs(key.i) <= n {
      var k := Normalize(key.i, n);
      Assoc.DeleteDistinct(st.random, Int(k));
      forall j | 0 <= j < |pl.sequential| ensures !Assoc.HasKey(pl.random, Int(j)) {
        if j != k {
          Assoc.DeleteLookup(st.random, Int(k), Int(j));
        }
      }
    } else {
      Assoc.PutDistinct(st.random, key, v);
      forall j | 0 <= j < n ensures !Assoc.HasKey(pl.random, Int(j)) {
        Assoc.PutLookup(st.random, key, v, Int(j));
      }
    }
  }

  /**
    []= keeps the invariant, and afterwards `@rnd` has no entry at key |@seq|:
    the run of integer keys that continues `@seq` has been absorbed. With a fixed
    key the size grows by one exactly when the key was missing.
   */
  lemma AssignKeepsValid<V>(st: State<V>, key: Key, v: V)
    requires Valid(st)
    ensures Valid(Assign(st, key, v))
    ensures Settled(Assign(st, key, v))
    ensures Fixed(key) ==> Size(Assign(st, key, v)) == Size(st) + (if HasKey(st, key) then 0 else 1)
  {
    PlaceKeepsValid(st, key, v);
    AbsorbKeepsValid(Place(st, key, v));
  }

  // ----------------------------------------------------------- delete_key

  /**
    The demotion loop of delete_key appends the pairs (from, @seq[from]),
    (from+1, @seq[from+1]), ... to `@rnd` in order when none of those keys is there.
   */
  lemma {:induction false} DemoteAppends<V>(random: seq<(Key, V)>, sequential: seq<V>, from: nat)
    requires from <= |sequential|
    requires forall j :: from <= j < |sequential| ==> !Assoc.HasKey(random, Int(j))
    ensures Demote(random, sequential, from) == random + Indexed(sequential, from)
    decreases |sequential| - from
  {
    if from < |sequential| {
      var next := Assoc.Put(random, Int(from), sequential[from]);
      assert next == random + [(Int(from), sequential[from])];
      forall j | from + 1 <= j < |sequential| ensures !Assoc.HasKey(next, Int(j)) {
        Assoc.HasKeyAppend(random, [(Int(from), sequential[from])], Int(j));
      }
      DemoteAppends(next, sequential, from + 1);
      assert [(Int(from), sequential[from])] + Indexed(sequential, from + 1) == Indexed(sequential, from);
    }
  }

  /**
    delete_key(i) for an integer i that is not a key of `@rnd` and whose
    normalised value k indexes `@seq`: it returns the old @seq[k], `@seq`
    becomes its first k elements, every later element is appended to `@rnd`
    under its own index with the same value, and the size drops by exactly one.
   */
  lemma DeleteKeyInSeq<V>(st: State<V>, d: Defaults<V>, key: Key)
    requires Valid(st)
    requires key.Int? && !Assoc.HasKey(st.random, key)
    requires 0 <= Normalize(key.i, |st.sequential|) < |st.sequential|
    ensures var k := Normalize(key.i, |st.sequential|);
            var r := DeleteKey(st, d, key);
            && r.value == st.sequential[k]
            && r.rest.sequential == st.sequential[..k]
            && r.rest.random == st.random + Indexed(st.sequential, k + 1)
            && (forall m :: k < m < |st.sequential| ==>
                  Assoc.HasKey(r.rest.random, Int(m)) && Assoc.Lookup(r.rest.random, Int(m)) == st.sequential[m])
            && Size(r.rest) == Size(st) - 1
            && Valid(r.rest)
  {
    var n := |st.sequential|;
    var k := Normalize(key.i, n);
    var tail := Indexed(st.sequential, k + 1);
    DemoteAppends(st.random, st.sequential, k + 1);
    var r := DeleteKey(st, d, key);
    assert r.rest.random == st.random + tail;
    forall m | k < m < n
      ensures Assoc.HasKey(r.rest.random, Int(m)) && Assoc.Lookup(r.rest.random, Int(m)) == st.sequential[m]
    {
      IndexedHasKey(st.sequential, k + 1, Int(m));
      Assoc.HasKeyAppend(st.random, tail, Int(m));
    }
    forall p | 0 <= p < |st.random| ensures !Assoc.HasKey(tail, st.random[p].0) {
      Assoc.HasKeyAt(st.random, p);
      IndexedHasKey(st.sequential, k + 1, st.random[p].0);
    }
    IndexedDistinct(st.sequential, k + 1);
    Assoc.DistinctAppend(st.random, tail);
    forall j | 0 <= j < k ensures !Assoc.HasKey(r.rest.random, Int(j)) {
      IndexedHasKey(st.sequential, k + 1, Int(j));
      Assoc.HasKeyAppend(st.random, tail, Int(j));
    }
  }

  /** delete_key of a key of `@rnd` (checked first) removes it there and returns its value. */
  lemma DeleteKeyInRandom<V>(st: State<V>, d: Defaults<V>, key: Key)
    requires Assoc.HasKey(st.random, key)
    ensures DeleteKey(st, d, key).value == Assoc.Lookup(st.random, key)
    ensures DeleteKey(st, d, key).rest == State(st.sequential, Assoc.Delete(st.random, key))
    ensures !HasKey(DeleteKey(st, d, key).rest, key) || InSeqRange(key, |st.sequential|)
    ensures Valid(st) ==> Valid(DeleteKey(st, d, key).rest) && Size(DeleteKey(st, d, key).rest) == Size(st) - 1
  {
    var r := DeleteKey(st, d, key).rest;
    if Valid(st) {
      Assoc.DeleteDistinct(st.random, key);
      forall j | 0 <= j < |st.sequential| ensures !Assoc.HasKey(r.random, Int(j)) {
        if Int(j) != key {
          Assoc.DeleteLookup(st.random, key, Int(j));
        }
      }
    }
  }

  /** delete_key of a missing key returns the default for nil and changes nothing. */
  lemma DeleteKeyAbsent<V>(st: State<V>, d: Defaults<V>, key: Key)
    requires !HasKey(st, key)
    ensures DeleteKey(st, d, key) == Removal(Fallback(d, None), st)
  {
  }

  /** delete_key keeps the invariant and shrinks the size by one exactly when the key was present. */
  lemma DeleteKeyKeepsValid<V>(st: State<V>, d: Defaults<V>, key: Key)
    requires Valid(st)
    ensures Valid(DeleteKey(st, d, key).rest)
    ensures Size(DeleteKey(st, d, key).rest) == Size(st) - (if HasKey(st, key) then 1 else 0)
  {
    if Assoc.HasKey(st.random, key) {
      DeleteKeyInRandom(st, d, key);
    } else if key.Int? && 0 <= Normalize(key.i, |st.sequential|) < |st.sequential| {
      DeleteKeyInSeq(st, d, key);
    }
  }

  // ------------------------------------------------------- push / unshift

  /** An independent statement of what the deletion loop of push and unshift leaves: `@rnd` without the keys lo .. hi-1, in order. */
  function Without<V>(l: seq<(Key, V)>, lo: int, hi: int): seq<(Key, V)>
  {
    if l == [] then []
    else (if l[0].0.Int? && lo <= l[0].0.i < hi then [] else [l[0]]) + Without(l[1..], lo, hi)
  }

  lemma {:induction false} WithoutHasKey<V>(l: seq<(Key, V)>, lo: int, hi: int, k: Key)
    ensures Assoc.HasKey(Without(l, lo, hi), k) <==> Assoc.HasKey(l, k) && !(k.Int? && lo <= k.i < hi)
    ensures Assoc.Distinct(l) ==> Assoc.Distinct(Without(l, lo, hi))
  {
    if l != [] {
      WithoutHasKey(l[1..], lo, hi, k);
      WithoutHasKey(l[1..], lo, hi, l[0].0);
      var w := Without(l[1..], lo, hi);
      if l[0].0.Int? && lo <= l[0].0.i < hi {
        assert Without(l, lo, hi) == w;
      } else {
        assert Without(l, lo, hi) == [l[0]] + w;
        assert ([l[0]] + w)[1..] == w;
      }
    }
  }

  lemma {:induction false} WithoutDelete<V>(l: seq<(Key, V)>, lo: int, hi: int)
    requires lo < hi
    ensures Without(Assoc.Delete(l, Int(lo)), lo + 1, hi) == Without(l, lo, hi)
  {
    if l != [] {
      WithoutDelete(l[1..], lo, hi);
      if l[0].0 != Int(lo) {
        assert Assoc.Delete(l, Int(lo)) == [l[0]] + Assoc.Delete(l[1..], Int(lo));
        assert ([l[0]] + Assoc.Delete(l[1..], Int(lo)))[1..] == Assoc.Delete(l[1..], Int(lo));
      }
    }
  }

  /** The deletion loop removes exactly the keys lo .. hi-1 from `@rnd` and leaves the rest in order. */
  lemma {:induction false} DropRangeIsWithout<V>(l: seq<(Key, V)>, lo: int, hi: int)
    ensures DropRange(l, lo, hi) == Without(l, lo, hi)
    decreases hi - lo
  {
    if lo < hi {
      DropRangeIsWithout(Assoc.Delete(l, Int(lo)), lo + 1, hi);
      WithoutDelete(l, lo, hi);
    } else {
      WithoutNone(l, lo, hi);
    }
  }

  lemma {:induction false} WithoutNone<V>(l: seq<(Key, V)>, lo: int, hi: int)
    requires hi <= lo
    ensures Without(l, lo, hi) == l
  {
    if l != [] {
      WithoutNone(l[1..], lo, hi);
    }
  }

  /**
    push makes `@seq` the old one followed by the values, and removes from
    `@rnd` exactly the keys |@seq| .. |@seq|+|vs|-1, keeping every other entry
    in order.
   */
  lemma PushSpec<V>(st: State<V>, vs: seq<V>)
    ensures Push(st, vs) == State(st.sequential + vs, Without(st.random, |st.sequential|, |st.sequential| + |vs|))
  {
    var n := |st.sequential|;
    var w := Without(st.random, n, n + |vs|);
    DropRangeIsWithout(st.random, n, n + |vs|);
    assert DropRange(st.random, n, n + |vs|) == w;
  }

  /** unshift makes `@seq` the values followed by the old one, and changes `@rnd` as push does. */
  lemma UnshiftSpec<V>(st: State<V>, vs: seq<V>)
    ensures Unshift(st, vs) == State(vs + st.sequential, Without(st.random, |st.sequential|, |st.sequential| + |vs|))
  {
    var n := |st.sequential|;
    var w := Without(st.random, n, n + |vs|);
    DropRangeIsWithout(st.random, n, n + |vs|);
    assert DropRange(st.random, n, n + |vs|) == w;
  }

  /** Deleting a range of integer keys from `@rnd`, as push and unshift begin, keeps the invariant. */
  lemma DropRangeKeepsValid<V>(st: State<V>, lo: int, hi: int)
    requires Valid(st)
    ensures Valid(State(st.sequential, DropRange(st.random, lo, hi)))
  {
    DropRangeIsWithout(st.random, lo, hi);
    WithoutHasKey(st.random, lo, hi, Int(0));
    forall j | 0 <= j < |st.sequential| ensures !Assoc.HasKey(DropRange(st.random, lo, hi), Int(j)) {
      WithoutHasKey(st.random, lo, hi, Int(j));
    }
  }

  /** push and unshift keep the invariant. */
  lemma PushUnshiftKeepValid<V>(st: State<V>, vs: seq<V>)
    requires Valid(st)
    ensures Valid(Push(st, vs)) && Valid(Unshift(st, vs))
  {
    var n := |st.sequential|;
    var w := Without(st.random, n, n + |vs|);
    PushSpec(st, vs);
    UnshiftSpec(st, vs);
    WithoutHasKey(st.random, n, n + |vs|, Int(0));
    forall j | 0 <= j < n + |vs| ensures !Assoc.HasKey(w, Int(j)) {
      WithoutHasKey(st.random, n, n + |vs|, Int(j));
    }
  }

  // --------------------------------------------------------- shift / pop

  /** unshifting the value shift returned restores the stores. */
  lemma ShiftUnshiftRoundTrip<V>(st: State<V>, d: Defaults<V>)
    requires Valid(st) && |st.sequential| > 0
    ensures Unshift(Shift(st, d).rest, [Shift(st, d).value]) == st
  {
    var n := |st.sequential|;
    var r := Shift(st, d);
    assert !Assoc.HasKey(st.random, Int(n - 1));
    assert DropRange(st.random, n - 1, n) == DropRange(st.random, n, n);
    assert [st.sequential[0]] + st.sequential[1..] == st.sequential;
  }

  /** pushing the value pop returned restores the stores. */
  lemma PopPushRoundTrip<V>(st: State<V>, d: Defaults<V>)
    requires Valid(st) && |st.sequential| > 0
    ensures Push(Pop(st, d).rest, [Pop(st, d).value]) == st
  {
    var n := |st.sequential|;
    assert !Assoc.HasKey(st.random, Int(n - 1));
    assert DropRange(st.random, n - 1, n) == DropRange(st.random, n, n);
    assert st.sequential[..n - 1] + [st.sequential[n - 1]] == st.sequential;
  }

  /** shift and pop keep the invariant; they shrink the size by one exactly when `@seq` is not empty. */
  lemma ShiftPopKeepValid<V>(st: State<V>, d: Defaults<V>)
    requires Valid(st)
    ensures Valid(Shift(st, d).rest) && Valid(Pop(st, d).rest)
    ensures Size(Shift(st, d).rest) == Size(Pop(st, d).rest) == Size(st) - (if |st.sequential| > 0 then 1 else 0)
  {
  }

  // -------------------------------------------------------------- merge!

  /** merge! of an array from index i on writes vs[j] at every key j >= i and leaves every other fixed key as it was. */
  lemma {:induction false} AssignFromWrites<V>(st: State<V>, d: Defaults<V>, vs: seq<V>, i: nat, key: Key)
    requires i <= |vs| && Fixed(key)
    ensures Get(AssignFrom(st, vs, i), d, key) == if key.Int? && i <= key.i < |vs| then vs[key.i] else Get(st, d, key)
    ensures HasKey(AssignFrom(st, vs, i), key) == ((key.Int? && i <= key.i < |vs|) || HasKey(st, key))
    decreases |vs| - i
  {
    if i < |vs| {
      var next := Assign(st, Int(i), vs[i]);
      assert AssignFrom(st, vs, i) == AssignFrom(next, vs, i + 1);
      AssignFromWrites(next, d, vs, i + 1, key);
      if key == Int(i) {
        AssignThenGet(st, d, Int(i), vs[i]);
      } else {
        AssignFrame(st, d, Int(i), vs[i], key);
      }
    }
  }

  /** merge! of an array writes each element at its index; no other fixed key changes. */
  lemma MergeArrayWrites<V>(st: State<V>, d: Defaults<V>, vs: seq<V>, key: Key)
    requires Fixed(key)
    ensures Get(MergeArray(st, vs), d, key) == if key.Int? && key.i < |vs| then vs[key.i] else Get(st, d, key)
    ensures HasKey(MergeArray(st, vs), key) == ((key.Int? && key.i < |vs|) || HasKey(st, key))
  {
    AssignFromWrites(st, d, vs, 0, key);
  }

  lemma {:induction false} AssignFromIntoPrefix<V>(vs: seq<V>, i: nat)
    requires i <= |vs|
    ensures AssignFrom(State(vs[..i], []), vs, i) == State(vs, [])
    decreases |vs| - i
  {
    if i < |vs| {
      assert vs[..i] + [vs[i]] == vs[..i + 1];
      AssignFromIntoPrefix(vs, i + 1);
    } else {
      assert vs[..i] == vs;
    }
  }

  /** An array merged into an empty Sarah becomes `@seq` as it is, with `@rnd` empty. */
  lemma MergeArrayIntoEmpty<V>(vs: seq<V>)
    ensures MergeArray(Empty(), vs) == State(vs, [])
  {
    assert vs[..0] == [];
    AssignFromIntoPrefix(vs, 0);
  }

  /** The last pair of a hash with a given key decides that key; an absent key is looked up before the merge. */
  function LastWrite<V>(pairs: seq<(Key, V)>, key: Key): Option<V>
  {
    if pairs == [] then None
    else if pairs[|pairs| - 1].0 == key then Some(pairs[|pairs| - 1].1)
    else LastWrite(pairs[..|pairs| - 1], key)
  }

  lemma {:induction false} MergePairsSnoc<V>(st: State<V>, ps: seq<(Key, V)>, p: (Key, V))
    ensures MergePairs(st, ps + [p]) == Assign(MergePairs(st, ps), p.0, p.1)
    decreases |ps|
  {
    if ps == [] {
      assert ps + [p] == [p];
    } else {
      assert (ps + [p])[1..] == ps[1..] + [p];
      MergePairsSnoc(Assign(st, ps[0].0, ps[0].1), ps[1..], p);
    }
  }

  /**
    merge! of a hash and set_pairs: when every key is fixed, the last write of
    a key wins and keys that are not written read as before.
   */
  lemma {:induction false} MergePairsLastWriteWins<V>(st: State<V>, d: Defaults<V>, pairs: seq<(Key, V)>, key: Key)
    requires Fixed(key)
    requires forall p :: 0 <= p < |pairs| ==> Fixed(pairs[p].0)
    ensures Get(MergePairs(st, pairs), d, key) == match LastWrite(pairs, key) case Some(v) => v case None => Get(st, d, key)
    ensures HasKey(MergePairs(st, pairs), key) == (LastWrite(pairs, key).Some? || HasKey(st, key))
    decreases |pairs|
  {
    if pairs != [] {
      var m := |pairs| - 1;
      var init, last := pairs[..m], pairs[m];
      assert pairs == init + [last];
      MergePairsSnoc(st, init, last);
      assert Fixed(last.0);
      if last.0 == key {
        AssignThenGet(MergePairs(st, init), d, key, last.1);
      } else {
        MergePairsLastWriteWins(st, d, init, key);
        AssignFrame(MergePairs(st, init), d, last.0, last.1, key);
      }
    }
  }

  lemma {:induction false} AssignFromKeepsValid<V>(st: State<V>, vs: seq<V>, i: nat)
    requires Valid(st)
    ensures Valid(AssignFrom(st, vs, i))
    decreases |vs| - i
  {
    if i < |vs| {
      AssignKeepsValid(st, Int(i), vs[i]);
      AssignFromKeepsValid(Assign(st, Int(i), vs[i]), vs, i + 1);
    }
  }

  lemma {:induction false} MergePairsKeepsValid<V>(st: State<V>, pairs: seq<(Key, V)>)
    requires Valid(st)
    ensures Valid(MergePairs(st, pairs))
    decreases |pairs|
  {
    if pairs != [] {
      AssignKeepsValid(st, pairs[0].0, pairs[0].1);
      MergePairsKeepsValid(Assign(st, pairs[0].0, pairs[0].1), pairs[1..]);
    }
  }

  /** merge! keeps the invariant. */
  lemma {:induction false} MergeKeepsValid<V>(st: State<V>, sources: seq<Source<V>>)
    requires Valid(st)
    ensures Valid(Merge(st, sources))
    decreases |sources|
  {
    if sources != [] {
      match sources[0] {
        case ArraySource(vs) => AssignFromKeepsValid(st, vs, 0);
        case HashSource(ps) => MergePairsKeepsValid(st, ps);
      }
      MergeKeepsValid(MergeSource(st, sources[0]), sources[1..]);
    }
  }

  /** append! keeps the invariant. */
  lemma {:induction false} AppendKeepsValid<V>(st: State<V>, pieces: seq<Piece<V>>)
    requires Valid(st)
    ensures Valid(Append(st, pieces))
    decreases |pieces|
  {
    if pieces != [] {
      match pieces[0] {
        case Nested(vs, ps) =>
          PushUnshiftKeepValid(st, vs);
          MergePairsKeepsValid(Push(st, vs), ps);
        case Plain(HashSource(ps)) => MergePairsKeepsValid(st, ps);
        case Plain(ArraySource(vs)) => PushUnshiftKeepValid(st, vs);
      }
      AppendKeepsValid(AppendPiece(st, pieces[0]), pieces[1..]);
    }
  }

  /** insert! keeps the invariant. */
  lemma {:induction false} InsertKeepsValid<V>(st: State<V>, pieces: seq<Piece<V>>)
    requires Valid(st)
    ensures Valid(Insert(st, pieces))
    decreases |pieces|
  {
    if pieces != [] {
      var p := pieces[|pieces| - 1];
      match p {
        case Nested(vs, ps) =>
          PushUnshiftKeepValid(st, vs);
          MergePairsKeepsValid(Unshift(st, vs), ps);
        case Plain(HashSource(ps)) => MergePairsKeepsValid(st, ps);
        case Plain(ArraySource(vs)) => PushUnshiftKeepValid(st, vs);
      }
      InsertKeepsValid(InsertPiece(st, p), pieces[..|pieces| - 1]);
    }
  }

  // -------------------------------------------------------------- slices

  /** []= with a key that is not an integer below m leaves the first m elements of `@seq` alone. */
  lemma AssignKeepsPrefix<V>(st: State<V>, key: Key, v: V, m: nat)
    requires m <= |st.sequential|
    requires key.Other? || key.i >= m
    ensures m <= |Assign(st, key, v).sequential|
    ensures Assign(st, key, v).sequential[..m] == st.sequential[..m]
  {
    var pl := Place(st, key, v);
    assert pl.sequential[..m] == st.sequential[..m];
    assert Assign(st, key, v).sequential[..|pl.sequential|] == pl.sequential;
    assert Assign(st, key, v).sequential[..m] == Assign(st, key, v).sequential[..|pl.sequential|][..m];
  }

  lemma {:induction false} MergePairsKeepsPrefix<V>(st: State<V>, pairs: seq<(Key, V)>, m: nat)
    requires m <= |st.sequential|
    requires forall p :: 0 <= p < |pairs| ==> pairs[p].0.Other? || pairs[p].0.i >= m
    ensures m <= |MergePairs(st, pairs).sequential|
    ensures MergePairs(st, pairs).sequential[..m] == st.sequential[..m]
    decreases |pairs|
  {
    if pairs != [] {
      var next := Assign(st, pairs[0].0, pairs[0].1);
      AssignKeepsPrefix(st, pairs[0].0, pairs[0].1, m);
      forall p | 0 <= p < |pairs[1..]| ensures pairs[1..][p].0.Other? || pairs[1..][p].0.i >= m {
        assert pairs[1..][p] == pairs[p + 1];
      }
      MergePairsKeepsPrefix(next, pairs[1..], m);
    }
  }

  /**
    slice(start, len) is nil exactly when start is past the end of `@seq`;
    otherwise the new Sarah satisfies the invariant and, when `@rnd` holds no
    negative integer key, its `@seq` begins with the selected section.
   */
  lemma SliceSpec<V>(st: State<V>, start: nat, len: nat)
    ensures Slice(st, start, len).None? <==> start > |st.sequential|
    ensures Slice(st, start, len).Some? ==> Valid(Slice(st, start, len).value)
    ensures Slice(st, start, len).Some? && Separated(st) && (forall j :: j < 0 ==> !Assoc.HasKey(st.random, Int(j))) ==>
              var part := st.sequential[start..Min(start + len, |st.sequential|)];
              |part| <= |Slice(st, start, len).value.sequential| &&
              Slice(st, start, len).value.sequential[..|part|] == part
  {
    var n := |st.sequential|;
    if start <= n {
      var part := st.sequential[start..Min(start + len, n)];
      MergeArrayIntoEmpty(part);
      MergePairsKeepsValid(State(part, []), st.random);
      if Separated(st) && (forall j :: j < 0 ==> !Assoc.HasKey(st.random, Int(j))) {
        forall p | 0 <= p < |st.random| ensures st.random[p].0.Other? || st.random[p].0.i >= |part| {
          Assoc.HasKeyAt(st.random, p);
        }
        MergePairsKeepsPrefix(State(part, []), st.random, |part|);
        assert part[..|part|] == part;
      }
    }
  }

  /** A key that `[]=` sends to `@rnd` and that migration never reaches: a non-integer, or an integer past |@seq|. */
  predicate Far(key: Key, n: nat)
  {
    key.Other? || key.i > n
  }

  /** `[]=` with a new, far key on a settled Sarah appends the pair to `@rnd`, and the Sarah stays settled. */
  lemma AssignFar<V>(st: State<V>, k: Key, v: V)
    requires Far(k, |st.sequential|) && !Assoc.HasKey(st.random, k) && Settled(st)
    ensures Assign(st, k, v) == State(st.sequential, st.random + [(k, v)])
    ensures Settled(State(st.sequential, st.random + [(k, v)]))
  {
    var next := State(st.sequential, st.random + [(k, v)]);
    assert Place(st, k, v) == next;
    Assoc.HasKeyAppend(st.random, [(k, v)], Int(|st.sequential|));
  }

  /** After the first pair is appended, the remaining pairs are still new and far. */
  lemma FarRest<V>(st: State<V>, pairs: seq<(Key, V)>)
    requires Assoc.Distinct(pairs) && pairs != []
    requires forall p :: 0 <= p < |pairs| ==> Far(pairs[p].0, |st.sequential|) && !Assoc.HasKey(st.random, pairs[p].0)
    ensures forall p :: 0 <= p < |pairs[1..]| ==>
              Far(pairs[1..][p].0, |st.sequential|) && !Assoc.HasKey(st.random + [pairs[0]], pairs[1..][p].0)
  {
    forall p | 0 <= p < |pairs[1..]|
      ensures Far(pairs[1..][p].0, |st.sequential|) && !Assoc.HasKey(st.random + [pairs[0]], pairs[1..][p].0)
    {
      assert pairs[1..][p] == pairs[p + 1];
      Assoc.DistinctAt(pairs, 0, p + 1);
      Assoc.HasKeyAppend(st.random, [pairs[0]], pairs[p + 1].0);
    }
  }

  /** Merging new, far keys into a settled Sarah appends them to `@rnd` in order and leaves `@seq` alone. */
  lemma {:induction false} MergePairsAppendsFar<V>(st: State<V>, pairs: seq<(Key, V)>)
    requires Assoc.Distinct(pairs) && Settled(st)
    requires forall p :: 0 <= p < |pairs| ==> Far(pairs[p].0, |st.sequential|) && !Assoc.HasKey(st.random, pairs[p].0)
    ensures MergePairs(st, pairs) == State(st.sequential, st.random + pairs)
    decreases |pairs|
  {
    if pairs != [] {
      var next := State(st.sequential, st.random + [pairs[0]]);
      AssignFar(st, pairs[0].0, pairs[0].1);
      assert MergePairs(st, pairs) == MergePairs(next, pairs[1..]);
      assert Assoc.Distinct(pairs[1..]);
      FarRest(st, pairs);
      MergePairsAppendsFar(next, pairs[1..]);
      assert st.random + [pairs[0]] + pairs[1..] == st.random + pairs;
    }
  }

  /** Sarah.new(:array => vs, :hash => h) with only non-integer keys in `h` keeps the array as `@seq` and the hash as `@rnd`. */
  lemma {:induction false} NewArrayAndHash<V>(vs: seq<V>, pairs: seq<(Key, V)>)
    requires Assoc.Distinct(pairs)
    requires forall p :: 0 <= p < |pairs| ==> pairs[p].0.Other?
    ensures Merge(Empty(), [ArraySource(vs), HashSource(pairs)]) == State(vs, pairs)
  {
    var none: seq<(Key, V)> := [];
    MergeArrayIntoEmpty(vs);
    MergePairsAppendsFar(State(vs, none), pairs);
    assert none + pairs == pairs;
    var sources: seq<Source<V>> := [ArraySource(vs), HashSource(pairs)];
    assert sources[1..] == [HashSource(pairs)] && sources[1..][1..] == [];
    assert MergeSource(Empty(), sources[0]) == State(vs, none);
    assert MergeSource(State(vs, none), sources[1..][0]) == State(vs, pairs);
    assert Merge(Empty(), sources) == Merge(State(vs, none), sources[1..]);
    assert Merge(State(vs, none), sources[1..]) == Merge(State(vs, pairs), sources[1..][1..]);
  }

  /**
    When `@rnd` holds neither a negative integer key nor the key |section|,
    slice gives exactly the section as `@seq` and `@rnd` unchanged.
   */
  lemma SliceExact<V>(st: State<V>, start: nat, len: nat)
    requires Valid(st) && start <= |st.sequential|
    requires forall j :: j < 0 ==> !Assoc.HasKey(st.random, Int(j))
    requires !Assoc.HasKey(st.random, Int(Min(start + len, |st.sequential|) - start))
    ensures Slice(st, start, len) == Some(State(st.sequential[start..Min(start + len, |st.sequential|)], st.random))
  {
    var n := |st.sequential|;
    var part := st.sequential[start..Min(start + len, n)];
    MergeArrayIntoEmpty(part);
    var none: seq<(Key, V)> := [];
    forall p | 0 <= p < |st.random| ensures Far(st.random[p].0, |part|) && !Assoc.HasKey(none, st.random[p].0) {
      Assoc.HasKeyAt(st.random, p);
    }
    MergePairsAppendsFar(State(part, none), st.random);
    assert none + st.random == st.random;
  }

  /** seq_slice(start, len) is nil past the end of `@seq`, otherwise a Sarah whose `@seq` is the section and whose `@rnd` is empty. */
  lemma SeqSliceSpec<V>(st: State<V>, start: nat, len: nat)
    ensures SeqSlice(st, start, len) ==
              if start > |st.sequential| then None
              else Some(State(st.sequential[start..Min(start + len, |st.sequential|)], []))
  {
    if start <= |st.sequential| {
      MergeArrayIntoEmpty(st.sequential[start..Min(start + len, |st.sequential|)]);
    }
  }

  /** The section slice! returns, put back between the two parts it leaves, restores `@seq`. */
  lemma SliceSplits<V>(s: seq<V>, start: nat, len: nat)
    ensures Section(s, start, len).None? ==> Cut(s, start, len) == s
    ensures Section(s, start, len).Some? ==>
              |Cut(s, start, len)| == |s| - |Section(s, start, len).value| &&
              s == Cut(s, start, len)[..start] + Section(s, start, len).value + Cut(s, start, len)[start..]
  {
    if start <= |s| {
      var e := Min(start + len, |s|);
      var c := Cut(s, start, len);
      assert c[..start] == s[..start];
      assert c[start..] == s[e..];
      assert s == s[..start] + s[start..e] + s[e..];
    }
  }

  /** slice! and seq_slice! keep the invariant and leave `@rnd` as it was. */
  lemma SliceRestKeepsValid<V>(st: State<V>, start: nat, len: nat)
    requires Valid(st)
    ensures Valid(SliceRest(st, start, len))
    ensures SliceRest(st, start, len).random == st.random
  {
  }
}
