/**
  The behaviours the repository's own tests of this version check, and the
  quirks of the source that the model keeps, as facts about concrete stores.
  Values are keys here (`Int(1)`, `Other("two")`), so that integers and
  symbols can be mixed as the tests mix them.
 */
module Scenarios {
  import opened Wrappers
  import Assoc
  import opened Store
  import Properties

  /** The `nil` of the tests. */
  const Nil: Key := Other("nil")
  const NilDefaults: Defaults<Key> := Defaults(Nil, None)

  /** Sarah.new(:array => [0, 1], :hash => { 2 => :two, 3 => :three }) absorbs the hash into `@seq`. */
  lemma NewConsecutive()
    ensures Merge(Empty(), [ArraySource([Int(0), Int(1)]), HashSource([(Int(2), Other("two")), (Int(3), Other("three"))])])
            == State([Int(0), Int(1), Other("two"), Other("three")], [])
  {
    var sources: seq<Source<Key>> := [ArraySource([Int(0), Int(1)]), HashSource([(Int(2), Other("two")), (Int(3), Other("three"))])];
    var pairs: seq<(Key, Key)> := sources[1].pairs;
    Properties.MergeArrayIntoEmpty([Int(0), Int(1)]);
    var st0 := State([Int(0), Int(1)], []);
    var st1 := State([Int(0), Int(1), Other("two")], []);
    var st2 := State([Int(0), Int(1), Other("two"), Other("three")], []);
    assert Assign(st0, Int(2), Other("two")) == st1;
    assert Assign(st1, Int(3), Other("three")) == st2;
    assert pairs[1..][1..] == [];
    assert MergePairs(st0, pairs) == MergePairs(st1, pairs[1..]) == MergePairs(st2, []);
    assert sources[1..][1..] == [];
    assert Merge(Empty(), sources) == Merge(st0, sources[1..]) == Merge(st2, []);
  }

  /** The stores Sarah.new(:array => [1, 2], :hash => { :one => 1, :two => 2 }) sets up. */
  lemma NewMixed()
    ensures var st := Merge(Empty(), [ArraySource([Int(1), Int(2)]), HashSource([(Other("one"), Int(1)), (Other("two"), Int(2))])]);
            st == State([Int(1), Int(2)], [(Other("one"), Int(1)), (Other("two"), Int(2))]) &&
            |st.sequential| == 2 && |st.random| == 2
  {
    Properties.NewArrayAndHash([Int(1), Int(2)], [(Other("one"), Int(1)), (Other("two"), Int(2))]);
  }

  /** The stores Sarah.new(:array => [1, 2], :hash => { :a => 3, :b => 4 }) sets up: `Mixed()`. */
  lemma MixedSetUp()
    ensures Merge(Empty(), [ArraySource([Int(1), Int(2)]), HashSource([(Other("a"), Int(3)), (Other("b"), Int(4))])]) == Mixed()
  {
    Properties.NewArrayAndHash([Int(1), Int(2)], [(Other("a"), Int(3)), (Other("b"), Int(4))]);
  }

  function Mixed(): State<Key>
  {
    State([Int(1), Int(2)], [(Other("a"), Int(3)), (Other("b"), Int(4))])
  }

  /** has_key? and clear on the mixed Sarah. */
  lemma MixedHasKey()
    ensures HasKey(Mixed(), Int(0)) && HasKey(Mixed(), Int(-1)) && HasKey(Mixed(), Other("a"))
    ensures !HasKey(Mixed(), Int(2)) && !HasKey(Mixed(), Other("c"))
    ensures Size(Mixed()) == 4 && Size(Empty<Key>()) == 0
  {
  }

  /** [] and []= on the mixed Sarah; a missing key reads the default. */
  lemma MixedGetSet()
    ensures Get(Mixed(), NilDefaults, Int(0)) == Int(1) && Get(Mixed(), NilDefaults, Int(1)) == Int(2)
    ensures Get(Mixed(), NilDefaults, Other("a")) == Int(3) && Get(Mixed(), NilDefaults, Other("b")) == Int(4)
    ensures Get(Mixed(), NilDefaults, Int(2)) == Nil
    ensures var st := Assign(Assign(Mixed(), Int(2), Int(5)), Other("c"), Int(6));
            Get(st, NilDefaults, Int(2)) == Int(5) && Get(st, NilDefaults, Other("c")) == Int(6)
  {
    var random := [(Other("a"), Int(3)), (Other("b"), Int(4))];
    var st1 := State([Int(1), Int(2), Int(5)], random);
    var st2 := State([Int(1), Int(2), Int(5)], random + [(Other("c"), Int(6))]);
    assert !Assoc.HasKey(random, Int(2)) && !Assoc.HasKey(random, Int(3));
    assert Place(Mixed(), Int(2), Int(5)) == st1;
    assert Assign(Mixed(), Int(2), Int(5)) == st1;
    assert !Assoc.HasKey(random, Other("c"));
    Assoc.HasKeyAppend(random, [(Other("c"), Int(6))], Int(3));
    assert Place(st1, Other("c"), Int(6)) == st2;
    assert Assign(st1, Other("c"), Int(6)) == st2;
    Assoc.HasKeyAppend(random, [(Other("c"), Int(6))], Other("c"));
    Assoc.HasKeyAppend(random, [(Other("c"), Int(6))], Int(2));
  }

  /** A default proc that returns the key it is given (`{ |s, key| key }`), nil for none. */
  function KeyProc(k: Option<Key>): Key
  {
    match k
    case Some(key) => key
    case None => Nil
  }

  /** Explicit defaults and a default block. */
  lemma Defaulting()
    ensures Get(State([Int(0)], []), Defaults(Other("false"), None), Int(1)) == Other("false")
    ensures Get(State([Int(0)], []), Defaults(Nil, Some(KeyProc)), Int(0)) == Int(0)
    ensures Get(State([Int(0)], []), Defaults(Nil, Some(KeyProc)), Int(1)) == Int(1)
    ensures Get(State([Int(0)], []), Defaults(Nil, Some(KeyProc)), Int(2)) == Int(2)
  {
  }

  /** fetch: the stored value, KeyError, the default argument, the block. */
  lemma MixedFetch()
    ensures Fetch(Mixed(), Int(0), None, None) == Success(Int(1))
    ensures Fetch(Mixed(), Int(2), None, None) == Failure(KeyError(Int(2)))
    ensures Fetch(Mixed(), Int(2), Some(Other("false")), None) == Success(Other("false"))
    ensures Fetch(Mixed(), Int(2), None, Some((k: Key) => k)) == Success(Int(2))
  {
  }

  /** push 1, 2, 3; unshift 4, 5, 6; then shift and pop. */
  lemma Stack()
    ensures var st := Unshift(Push(Empty(), [Int(1), Int(2), Int(3)]), [Int(4), Int(5), Int(6)]);
            st.sequential == [Int(4), Int(5), Int(6), Int(1), Int(2), Int(3)] &&
            Shift(st, NilDefaults).value == Int(4) &&
            Pop(Shift(st, NilDefaults).rest, NilDefaults).value == Int(3) &&
            Pop(Shift(st, NilDefaults).rest, NilDefaults).rest.sequential == [Int(5), Int(6), Int(1), Int(2)]
  {
    var st := Unshift(Push(Empty(), [Int(1), Int(2), Int(3)]), [Int(4), Int(5), Int(6)]);
    assert st.sequential == [Int(4), Int(5), Int(6)] + [Int(1), Int(2), Int(3)];
  }

  function Arr(v: Key): Piece<Key>
  {
    Plain(ArraySource([v]))
  }

  function Hsh(k: Key, v: Key): Piece<Key>
  {
    Plain(HashSource([(k, v)]))
  }

  lemma AppendCons(st: State<Key>, p: Piece<Key>, rest: seq<Piece<Key>>)
    ensures Append(st, [p] + rest) == Append(AppendPiece(st, p), rest)
  {
    assert ([p] + rest)[1..] == rest;
  }

  lemma InsertSnoc(st: State<Key>, init: seq<Piece<Key>>, p: Piece<Key>)
    ensures Insert(st, init + [p]) == Insert(InsertPiece(st, p), init)
  {
    assert (init + [p])[..|init|] == init;
  }

  /** Pushing or unshifting one value when `@rnd` lacks the key |@seq| leaves `@rnd` alone. */
  lemma OneFresh(st: State<Key>, v: Key)
    requires !Assoc.HasKey(st.random, Int(|st.sequential|))
    ensures AppendPiece(st, Arr(v)) == State(st.sequential + [v], st.random)
    ensures InsertPiece(st, Arr(v)) == State([v] + st.sequential, st.random)
  {
    var n := |st.sequential|;
    assert DropRange(st.random, n, n + 1) == DropRange(Assoc.Delete(st.random, Int(n)), n + 1, n + 1);
  }

  /** Merging one pair with a new non-integer key into a settled Sarah appends it to `@rnd`. */
  lemma OtherFresh(st: State<Key>, k: Key, v: Key)
    requires k.Other? && !Assoc.HasKey(st.random, k) && Settled(st)
    ensures AppendPiece(st, Hsh(k, v)) == InsertPiece(st, Hsh(k, v)) == State(st.sequential, st.random + [(k, v)])
  {
    var r := st.random + [(k, v)];
    Assoc.HasKeyAppend(st.random, [(k, v)], Int(|st.sequential|));
    assert [(k, v)][1..] == [];
    assert MergePairs(st, [(k, v)]) == MergePairs(Assign(st, k, v), []);
  }

  /** The pieces of the tests' first append! and insert! calls, and of their second. */
  function FirstPieces(): seq<Piece<Key>>
  {
    [Arr(Int(1)), Hsh(Other("one"), Int(1)), Arr(Int(2)), Arr(Int(3))]
  }

  function SecondPieces(): seq<Piece<Key>>
  {
    [Arr(Int(4)), Hsh(Other("two"), Int(2)), Arr(Int(5)), Arr(Int(6))]
  }

  /** `@rnd` holds no integer key. */
  predicate NoIntKeys(l: seq<(Key, Key)>)
  {
    forall p :: 0 <= p < |l| ==> l[p].0.Other?
  }

  lemma NoIntKey(l: seq<(Key, Key)>, j: int)
    requires NoIntKeys(l)
    ensures !Assoc.HasKey(l, Int(j))
  {
    if Assoc.HasKey(l, Int(j)) {
      var p := Assoc.FindKey(l, Int(j));
    }
  }

  /** An array, a hash with one new non-integer key, and two more arrays, appended where `@rnd` has no integer key. */
  lemma AppendFour(st: State<Key>, a: Key, k: Key, v: Key, b: Key, c: Key)
    requires NoIntKeys(st.random) && k.Other? && !Assoc.HasKey(st.random, k)
    ensures Append(st, [Arr(a), Hsh(k, v), Arr(b), Arr(c)]) == State(st.sequential + [a, b, c], st.random + [(k, v)])
  {
    var n := |st.sequential|;
    var r := st.random + [(k, v)];
    var s1 := State(st.sequential + [a], st.random);
    var s2 := State(st.sequential + [a], r);
    var s3 := State(st.sequential + [a, b], r);
    var s4 := State(st.sequential + [a, b, c], r);
    NoIntKey(st.random, n);
    OneFresh(st, a);
    NoIntKey(st.random, n + 1);
    OtherFresh(s1, k, v);
    NoIntKey(st.random, n + 2);
    Assoc.HasKeyAppend(st.random, [(k, v)], Int(n + 1));
    OneFresh(s2, b);
    assert st.sequential + [a] + [b] == st.sequential + [a, b];
    NoIntKey(st.random, n + 3);
    Assoc.HasKeyAppend(st.random, [(k, v)], Int(n + 2));
    OneFresh(s3, c);
    assert st.sequential + [a, b] + [c] == st.sequential + [a, b, c];
    AppendCons(st, Arr(a), [Hsh(k, v), Arr(b), Arr(c)]);
    AppendCons(s1, Hsh(k, v), [Arr(b), Arr(c)]);
    AppendCons(s2, Arr(b), [Arr(c)]);
    AppendCons(s3, Arr(c), []);
    assert [Arr(a)] + [Hsh(k, v), Arr(b), Arr(c)] == [Arr(a), Hsh(k, v), Arr(b), Arr(c)];
  }

  /** The same four structures inserted: the arrays land in front of `@seq` in their given order. */
  lemma InsertFour(st: State<Key>, a: Key, k: Key, v: Key, b: Key, c: Key)
    requires NoIntKeys(st.random) && k.Other? && !Assoc.HasKey(st.random, k)
    ensures Insert(st, [Arr(a), Hsh(k, v), Arr(b), Arr(c)]) == State([a, b, c] + st.sequential, st.random + [(k, v)])
  {
    var n := |st.sequential|;
    var r := st.random + [(k, v)];
    var s1 := State([c] + st.sequential, st.random);
    var s2 := State([b, c] + st.sequential, st.random);
    var s3 := State([b, c] + st.sequential, r);
    NoIntKey(st.random, n);
    OneFresh(st, c);
    NoIntKey(st.random, n + 1);
    OneFresh(s1, b);
    assert [b] + ([c] + st.sequential) == [b, c] + st.sequential;
    NoIntKey(st.random, n + 2);
    OtherFresh(s2, k, v);
    NoIntKey(st.random, n + 2);
    Assoc.HasKeyAppend(st.random, [(k, v)], Int(n + 2));
    OneFresh(s3, a);
    assert [a] + ([b, c] + st.sequential) == [a, b, c] + st.sequential;
    InsertSnoc(st, [Arr(a), Hsh(k, v), Arr(b)], Arr(c));
    InsertSnoc(s1, [Arr(a), Hsh(k, v)], Arr(b));
    InsertSnoc(s2, [Arr(a)], Hsh(k, v));
    InsertSnoc(s3, [], Arr(a));
    assert [Arr(a), Hsh(k, v), Arr(b)] + [Arr(c)] == [Arr(a), Hsh(k, v), Arr(b), Arr(c)];
    assert [Arr(a), Hsh(k, v)] + [Arr(b)] == [Arr(a), Hsh(k, v), Arr(b)];
    assert [Arr(a)] + [Hsh(k, v)] == [Arr(a), Hsh(k, v)];
    assert [] + [Arr(a)] == [Arr(a)];
  }

  lemma AppendFirst()
    ensures Append(Empty(), FirstPieces()) == State([Int(1), Int(2), Int(3)], [(Other("one"), Int(1))])
  {
    AppendFour(Empty(), Int(1), Other("one"), Int(1), Int(2), Int(3));
    assert [] + [Int(1), Int(2), Int(3)] == [Int(1), Int(2), Int(3)];
  }

  lemma AppendSecond()
    ensures Append(State([Int(1), Int(2), Int(3)], [(Other("one"), Int(1))]), SecondPieces())
            == State([Int(1), Int(2), Int(3), Int(4), Int(5), Int(6)], [(Other("one"), Int(1)), (Other("two"), Int(2))])
  {
    AppendFour(State([Int(1), Int(2), Int(3)], [(Other("one"), Int(1))]), Int(4), Other("two"), Int(2), Int(5), Int(6));
  }

  /** append! [1], { :one => 1 }, [2], [3] and then [4], { :two => 2 }, [5], [6]. */
  lemma Appending()
    ensures Append(Append(Empty(), FirstPieces()), SecondPieces())
            == State([Int(1), Int(2), Int(3), Int(4), Int(5), Int(6)], [(Other("one"), Int(1)), (Other("two"), Int(2))])
  {
    AppendFirst();
    AppendSecond();
  }

  lemma InsertFirst()
    ensures Insert(Empty(), FirstPieces()) == State([Int(1), Int(2), Int(3)], [(Other("one"), Int(1))])
  {
    InsertFour(Empty(), Int(1), Other("one"), Int(1), Int(2), Int(3));
    assert [Int(1), Int(2), Int(3)] + [] == [Int(1), Int(2), Int(3)];
  }

  lemma InsertSecond()
    ensures Insert(State([Int(1), Int(2), Int(3)], [(Other("one"), Int(1))]), SecondPieces())
            == State([Int(4), Int(5), Int(6), Int(1), Int(2), Int(3)], [(Other("one"), Int(1)), (Other("two"), Int(2))])
  {
    InsertFour(State([Int(1), Int(2), Int(3)], [(Other("one"), Int(1))]), Int(4), Other("two"), Int(2), Int(5), Int(6));
  }

  /** insert! [1], { :one => 1 }, [2], [3] and then [4], { :two => 2 }, [5], [6]: each call keeps its arguments' order. */
  lemma Inserting()
    ensures Insert(Insert(Empty(), FirstPieces()), SecondPieces())
            == State([Int(4), Int(5), Int(6), Int(1), Int(2), Int(3)], [(Other("one"), Int(1)), (Other("two"), Int(2))])
  {
    InsertFirst();
    InsertSecond();
  }

  // ------------------------------------------------------------- quirks

  /**
    A negative key written while `@seq` is short stays in `@rnd`; once `@seq`
    has grown, writing the same key updates `@seq` but the stale `@rnd` entry
    is read first.
   */
  lemma StaleNegativeKeyShadows()
    ensures var st := Assign(Assign(Assign(Empty(), Int(-1), Other("x")), Int(0), Other("y")), Int(-1), Other("z"));
            st == State([Other("z")], [(Int(-1), Other("x"))]) &&
            Get(st, NilDefaults, Int(-1)) == Other("x")
  {
    var st1 := State([], [(Int(-1), Other("x"))]);
    var st2 := State([Other("y")], [(Int(-1), Other("x"))]);
    assert Assign(Empty(), Int(-1), Other("x")) == st1;
    assert Assign(st1, Int(0), Other("y")) == st2;
    assert Assign(st2, Int(-1), Other("z")) == State([Other("z")], [(Int(-1), Other("x"))]);
  }

  /**
    slice merges all of `@rnd` into the new Sarah, so a stale negative key is
    normalised against the section and overwrites one of its elements.
   */
  lemma SliceTakesStaleNegativeKey()
    ensures var st := Assign(Assign(Assign(Empty(), Int(-1), Other("x")), Int(0), Other("a")), Int(1), Other("b"));
            st == State([Other("a"), Other("b")], [(Int(-1), Other("x"))]) &&
            Slice(st, 0, 2) == Some(State([Other("a"), Other("x")], []))
  {
    var r := [(Int(-1), Other("x"))];
    var st1 := State([], r);
    var st2 := State([Other("a")], r);
    var st3 := State([Other("a"), Other("b")], r);
    assert Assign(Empty(), Int(-1), Other("x")) == st1;
    assert Assign(st1, Int(0), Other("a")) == st2;
    assert Assign(st2, Int(1), Other("b")) == st3;
    Properties.MergeArrayIntoEmpty([Other("a"), Other("b")]);
    assert st3.sequential[0..Min(2, 2)] == [Other("a"), Other("b")];
    var merged := State([Other("a"), Other("x")], []);
    assert Assign(State([Other("a"), Other("b")], []), Int(-1), Other("x")) == merged;
    assert r[1..] == [];
    assert MergePairs(State([Other("a"), Other("b")], []), r) == MergePairs(merged, []);
  }

  /** push does not absorb: `@rnd` may keep the key just past the end of `@seq`, until the next []=. */
  lemma PushLeavesNextKey()
    ensures var st := Push(State([Other("a")], [(Int(2), Other("c"))]), [Other("b")]);
            st == State([Other("a"), Other("b")], [(Int(2), Other("c"))]) && !Settled(st) &&
            Assign(st, Other("k"), Other("v")) == State([Other("a"), Other("b"), Other("c")], [(Other("k"), Other("v"))])
  {
    var st := State([Other("a"), Other("b")], [(Int(2), Other("c"))]);
    assert Push(State([Other("a")], [(Int(2), Other("c"))]), [Other("b")]) == st;
    var placed := State([Other("a"), Other("b")], [(Int(2), Other("c")), (Other("k"), Other("v"))]);
    assert Place(st, Other("k"), Other("v")) == placed;
    assert Absorb(placed) == Absorb(State([Other("a"), Other("b"), Other("c")], [(Other("k"), Other("v"))]));
  }

  /** unshift moves every element of `@seq` up but leaves the keys of `@rnd` as they were. */
  lemma UnshiftKeepsRandomKeys()
    ensures var st := Unshift(State([Other("a")], [(Int(3), Other("d"))]), [Other("b")]);
            st == State([Other("b"), Other("a")], [(Int(3), Other("d"))]) &&
            Get(st, NilDefaults, Int(1)) == Other("a") && Get(st, NilDefaults, Int(3)) == Other("d")
  {
    var r := [(Int(3), Other("d"))];
    assert !Assoc.HasKey(r, Int(1));
    assert DropRange(r, 1, 2) == DropRange(Assoc.Delete(r, Int(1)), 2, 2);
  }

  /** delete_key, shift and pop call the default proc with nil, where [] passes the key. */
  lemma RemovalsPassNil()
    ensures DeleteKey(Empty(), Defaults(Other("default"), Some(KeyProc)), Int(5)).value == Nil
    ensures Shift(Empty(), Defaults(Other("default"), Some(KeyProc))).value == Nil
    ensures Pop(Empty(), Defaults(Other("default"), Some(KeyProc))).value == Nil
    ensures Get(Empty(), Defaults(Other("default"), Some(KeyProc)), Int(5)) == Int(5)
  {
  }

  /** delete_key of an index of `@seq` moves the elements after it into `@rnd` under their own keys. */
  lemma DeleteKeyDemotes()
    ensures DeleteKey(State([Int(0), Int(1), Int(2)], [(Other("a"), Int(9))]), NilDefaults, Int(1))
            == Removal(Int(1), State([Int(0)], [(Other("a"), Int(9)), (Int(2), Int(2))]))
  {
    var st := State([Int(0), Int(1), Int(2)], [(Other("a"), Int(9))]);
    assert Assoc.Put([(Other("a"), Int(9))], Int(2), Int(2)) == [(Other("a"), Int(9)), (Int(2), Int(2))];
    assert Demote(st.random, st.sequential, 2) == Demote([(Other("a"), Int(9)), (Int(2), Int(2))], st.sequential, 3);
  }
}
