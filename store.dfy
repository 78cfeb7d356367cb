/**
  The two stores of a Sarah as one value, and every operation of lib/sarah.rb
  stated as a function of that value.

  `sequential` is the dense array `@seq`, holding keys 0 .. |sequential|-1;
  `random` is the insertion-ordered hash `@rnd`, holding every other key.
  The reads (`[]`, `fetch`, `has_key?`, `size`, `keys`, `values`, `each`,
  `slice`) are the source's expressions; the writes are functions that the
  methods of Container.Sarah are proved to compute.
 */
module Store {
  import opened Wrappers
  import Assoc

  /** A key: Ruby's `is_a? Integer` is the constructor. */
  datatype Key = Int(i: int) | Other(name: string)

  datatype State<V> = State(sequential: seq<V>, random: seq<(Key, V)>)

  /** The default value and the optional default proc (Ruby's `default`, `default_proc`). */
  datatype Defaults<V> = Defaults(value: V, proc: Option<Option<Key> -> V>)

  /** A value taken out of the container, and the stores that remain. */
  datatype Removal<V> = Removal(value: V, rest: State<V>)

  /** The error `fetch` raises (Ruby's KeyError). */
  datatype FetchError = KeyError(key: Key)

  /** What merge! accepts: an array (keys 0, 1, ...) or a hash (key/value pairs in order). */
  datatype Source<V> = ArraySource(values: seq<V>) | HashSource(pairs: seq<(Key, V)>)

  /** What append! and insert! accept: an array or a hash, or another Sarah given by its two stores. */
  datatype Piece<V> = Plain(source: Source<V>) | Nested(values: seq<V>, pairs: seq<(Key, V)>)

  function Empty<V>(): State<V>
  {
    State([], [])
  }

  function Abs(i: int): nat
  {
    if i < 0 then -i else i
  }

  /** Ruby's `key += @seq.size if key < 0`, also the meaning of a negative array index. */
  function Normalize(i: int, n: nat): int
  {
    if i < 0 then i + n else i
  }

  /** An integer key that `@seq` answers for: -n <= i < n. */
  predicate InSeqRange(key: Key, n: nat)
  {
    key.Int? && -(n as int) <= key.i < n
  }

  /** A key that names the same slot whatever the size of `@seq`: a non-integer or an integer >= 0. */
  predicate Fixed(key: Key)
  {
    key.Other? || key.i >= 0
  }

  /** The value for a missing key: the default proc applied to the key (or nil), else the default. */
  function Fallback<V>(d: Defaults<V>, key: Option<Key>): V
  {
    match d.proc
    case Some(f) => f(key)
    case None => d.value
  }

  // ---------------------------------------------------------------- reads

  /** has_key? (lib/sarah.rb:62-65). */
  predicate HasKey<V>(st: State<V>, key: Key)
    ensures key.Int? && -|st.sequential| <= key.i < |st.sequential| ==> HasKey(st, key)
    ensures key.Other? ==> (HasKey(st, key) <==> Assoc.HasKey(st.random, key))
  {
    Assoc.HasKey(st.random, key) || InSeqRange(key, |st.sequential|)
  }

  /** [] with a single key (lib/sarah.rb:80-85): `@rnd` first, then `@seq`, then the defaults. */
  function Get<V>(st: State<V>, d: Defaults<V>, key: Key): (r: V)
    ensures key.Int? && 0 <= key.i < |st.sequential| && !Assoc.HasKey(st.random, key) ==> r == st.sequential[key.i]
    ensures !HasKey(st, key) ==> r == Fallback(d, Some(key))
  {
    if Assoc.HasKey(st.random, key) then Assoc.Lookup(st.random, key)
    else if InSeqRange(key, |st.sequential|) then st.sequential[Normalize(key.i, |st.sequential|)]
    else Fallback(d, Some(key))
  }

  /** fetch (lib/sarah.rb:97-108): a missing key yields the argument, else the block, else KeyError. */
  function Fetch<V>(st: State<V>, key: Key, fallback: Option<V>, block: Option<Key -> V>): (r: Result<V, FetchError>)
    ensures HasKey(st, key) || fallback.Some? || block.Some? ==> r.Success?
    ensures r.Failure? ==> r.error == KeyError(key)
  {
    if Assoc.HasKey(st.random, key) then Success(Assoc.Lookup(st.random, key))
    else if InSeqRange(key, |st.sequential|) then Success(st.sequential[Normalize(key.i, |st.sequential|)])
    else if fallback.Some? then Success(fallback.value)
    else if block.Some? then Success(block.value(key))
    else Failure(KeyError(key))
  }

  /** size (lib/sarah.rb:318). */
  function Size<V>(st: State<V>): (r: nat)
    ensures r == 0 <==> st.sequential == [] && st.random == []
    ensures r >= |st.sequential| && r >= |st.random|
  {
    |st.sequential| + |st.random|
  }

  /** The keys 0 .. n-1 (seq_keys). */
  function SeqKeys(n: nat): seq<Key>
  {
    seq(n, i => Int(i))
  }

  /** keys (lib/sarah.rb:337-347); each_index yields the same sequence. */
  function Keys<V>(st: State<V>): (r: seq<Key>)
    ensures |r| == Size(st)
    ensures forall j :: 0 <= j < |st.sequential| ==> r[j] == Int(j)
  {
    SeqKeys(|st.sequential|) + Assoc.Keys(st.random)
  }

  /** values (lib/sarah.rb:353). */
  function Values<V>(st: State<V>): (r: seq<V>)
    ensures |r| == Size(st)
    ensures r[..|st.sequential|] == st.sequential
  {
    st.sequential + Assoc.Values(st.random)
  }

  /** The elements of `s` from index `from` on, each paired with its integer key. */
  function Indexed<V>(s: seq<V>, from: nat): seq<(Key, V)>
    requires from <= |s|
  {
    seq(|s| - from, p requires 0 <= p < |s| - from => (Int(from + p), s[from + p]))
  }

  /** The pairs each yields (lib/sarah.rb:138-142): `@seq` by index, then `@rnd` in order. */
  function Each<V>(st: State<V>): (r: seq<(Key, V)>)
    ensures |r| == Size(st)
    ensures forall j :: 0 <= j < |st.sequential| ==> r[j] == (Int(j), st.sequential[j])
    ensures r[|st.sequential|..] == st.random
  {
    Indexed(st.sequential, 0) + st.random
  }

  // ------------------------------------------------------------ invariants

  /** No integer key of `@rnd` lies in [0, |@seq|): such keys belong to `@seq`. */
  ghost predicate Separated<V>(st: State<V>)
  {
    forall j :: 0 <= j < |st.sequential| ==> !Assoc.HasKey(st.random, Int(j))
  }

  /** The invariant every operation keeps: `@rnd` is a hash (unique keys) and the stores are separated. */
  ghost predicate Valid<V>(st: State<V>)
  {
    Assoc.Distinct(st.random) && Separated(st)
  }

  /** `@rnd` does not hold the key just past the end of `@seq` (it would have been absorbed). */
  predicate Settled<V>(st: State<V>)
  {
    !Assoc.HasKey(st.random, Int(|st.sequential|))
  }

  // ---------------------------------------------------------------- writes

  /**
    The migration loop of []= (lib/sarah.rb:170-174): while `@rnd` holds the key
    |@seq|, that entry moves to the end of `@seq`.
   */
  function Absorb<V>(st: State<V>): (r: State<V>)
    ensures Settled(r)
    ensures |st.sequential| <= |r.sequential| && r.sequential[..|st.sequential|] == st.sequential
    decreases |st.random|
  {
    var n := |st.sequential|;
    if Assoc.HasKey(st.random, Int(n)) then
      var next := State(st.sequential + [Assoc.Lookup(st.random, Int(n))], Assoc.Delete(st.random, Int(n)));
      var r := Absorb(next);
      assert r.sequential[..n] == r.sequential[..n + 1][..n];
      r
    else st
  }

  /**
    Where []= puts the value before migrating (lib/sarah.rb:161-167): an integer
    key with |key| <= |@seq| is normalised and written into (or appended to)
    `@seq`, and that normalised key is deleted from `@rnd`; any other key is
    written into `@rnd`.
   */
  function Place<V>(st: State<V>, key: Key, value: V): State<V>
  {
    var n := |st.sequential|;
    if key.Int? && Abs(key.i) <= n then
      var k := Normalize(key.i, n);
      State(if k == n then st.sequential + [value] else st.sequential[k := value], Assoc.Delete(st.random, Int(k)))
    else
      State(st.sequential, Assoc.Put(st.random, key, value))
  }

  /** []= (lib/sarah.rb:160-177). */
  function Assign<V>(st: State<V>, key: Key, value: V): State<V>
  {
    Absorb(Place(st, key, value))
  }

  /** `(from...@seq.size).each { |i| @rnd[i] = @seq[i] }` (lib/sarah.rb:294). */
  function Demote<V>(random: seq<(Key, V)>, sequential: seq<V>, from: nat): seq<(Key, V)>
    decreases |sequential| - from
  {
    if from >= |sequential| then random
    else Demote(Assoc.Put(random, Int(from), sequential[from]), sequential, from + 1)
  }

  /**
    delete_key (lib/sarah.rb:286-303): a key of `@rnd` is deleted there; an
    integer key whose normalised value indexes `@seq` truncates `@seq` there and
    moves the elements after it into `@rnd` under their own keys; any other key
    returns the default for nil.
   */
  function DeleteKey<V>(st: State<V>, d: Defaults<V>, key: Key): Removal<V>
  {
    var n := |st.sequential|;
    if Assoc.HasKey(st.random, key) then
      Removal(Assoc.Lookup(st.random, key), State(st.sequential, Assoc.Delete(st.random, key)))
    else if key.Int? && 0 <= Normalize(key.i, n) < n then
      var k := Normalize(key.i, n);
      Removal(st.sequential[k], State(st.sequential[..k], Demote(st.random, st.sequential, k + 1)))
    else
      Removal(Fallback(d, None), st)
  }

  /** shift (lib/sarah.rb:114-122). */
  function Shift<V>(st: State<V>, d: Defaults<V>): Removal<V>
  {
    if |st.sequential| > 0 then Removal(st.sequential[0], State(st.sequential[1..], st.random))
    else Removal(Fallback(d, None), st)
  }

  /** pop (lib/sarah.rb:125-133). */
  function Pop<V>(st: State<V>, d: Defaults<V>): Removal<V>
  {
    var n := |st.sequential|;
    if n > 0 then Removal(st.sequential[n - 1], State(st.sequential[..n - 1], st.random))
    else Removal(Fallback(d, None), st)
  }

  /** `(lo...hi).each { |k| @rnd.delete k }` (lib/sarah.rb:264, 274). */
  function DropRange<V>(random: seq<(Key, V)>, lo: int, hi: int): seq<(Key, V)>
    decreases hi - lo
  {
    if lo >= hi then random else DropRange(Assoc.Delete(random, Int(lo)), lo + 1, hi)
  }

  /** push (lib/sarah.rb:273-277); no migration follows. */
  function Push<V>(st: State<V>, vs: seq<V>): State<V>
  {
    var n := |st.sequential|;
    State(st.sequential + vs, DropRange(st.random, n, n + |vs|))
  }

  /** unshift (lib/sarah.rb:263-267); `@rnd` is not renumbered. */
  function Unshift<V>(st: State<V>, vs: seq<V>): State<V>
  {
    var n := |st.sequential|;
    State(vs + st.sequential, DropRange(st.random, n, n + |vs|))
  }

  /** `ah.each_index { |i| self[i] = ah[i] }` from index `i` on (lib/sarah.rb:251). */
  function AssignFrom<V>(st: State<V>, vs: seq<V>, i: nat): State<V>
    decreases |vs| - i
  {
    if i >= |vs| then st else AssignFrom(Assign(st, Int(i), vs[i]), vs, i + 1)
  }

  /** merge! of an array: each element at its index. */
  function MergeArray<V>(st: State<V>, vs: seq<V>): State<V>
  {
    AssignFrom(st, vs, 0)
  }

  /** merge! of a hash, and set_pairs: each pair through []=, in order (lib/sarah.rb:249, 200). */
  function MergePairs<V>(st: State<V>, pairs: seq<(Key, V)>): State<V>
    decreases |pairs|
  {
    if pairs == [] then st else MergePairs(Assign(st, pairs[0].0, pairs[0].1), pairs[1..])
  }

  function MergeSource<V>(st: State<V>, src: Source<V>): State<V>
  {
    match src
    case ArraySource(vs) => MergeArray(st, vs)
    case HashSource(ps) => MergePairs(st, ps)
  }

  /** merge! (lib/sarah.rb:246-255): the sources one after another. */
  function Merge<V>(st: State<V>, sources: seq<Source<V>>): State<V>
    decreases |sources|
  {
    if sources == [] then st else Merge(MergeSource(st, sources[0]), sources[1..])
  }

  function AppendPiece<V>(st: State<V>, p: Piece<V>): State<V>
  {
    match p
    case Nested(vs, ps) => MergePairs(Push(st, vs), ps)
    case Plain(HashSource(ps)) => MergePairs(st, ps)
    case Plain(ArraySource(vs)) => Push(st, vs)
  }

  /** append! (lib/sarah.rb:210-222). */
  function Append<V>(st: State<V>, pieces: seq<Piece<V>>): State<V>
    decreases |pieces|
  {
    if pieces == [] then st else Append(AppendPiece(st, pieces[0]), pieces[1..])
  }

  function InsertPiece<V>(st: State<V>, p: Piece<V>): State<V>
  {
    match p
    case Nested(vs, ps) => MergePairs(Unshift(st, vs), ps)
    case Plain(HashSource(ps)) => MergePairs(st, ps)
    case Plain(ArraySource(vs)) => Unshift(st, vs)
  }

  /** insert! (lib/sarah.rb:228-240): the pieces last to first. */
  function Insert<V>(st: State<V>, pieces: seq<Piece<V>>): State<V>
    decreases |pieces|
  {
    if pieces == [] then st
    else Insert(InsertPiece(st, pieces[|pieces| - 1]), pieces[..|pieces| - 1])
  }

  // ---------------------------------------------------------------- slices

  function Min(a: int, b: int): int
  {
    if a < b then a else b
  }

  /** Ruby's Array#slice(start, len) for start, len >= 0: nil past the end, else the clamped run. */
  function Section<V>(s: seq<V>, start: nat, len: nat): Option<seq<V>>
  {
    if start > |s| then None else Some(s[start..Min(start + len, |s|)])
  }

  /** What Array#slice!(start, len) leaves behind. */
  function Cut<V>(s: seq<V>, start: nat, len: nat): seq<V>
  {
    if start > |s| then s else s[..start] + s[Min(start + len, |s|)..]
  }

  /**
    slice (lib/sarah.rb:360-364): a new Sarah built from the section of `@seq`
    as an array and then all of `@rnd` as a hash, or nil.
   */
  function Slice<V>(st: State<V>, start: nat, len: nat): Option<State<V>>
  {
    match Section(st.sequential, start, len)
    case None => None
    case Some(part) => Some(MergePairs(MergeArray(Empty(), part), st.random))
  }

  /** seq_slice (lib/sarah.rb:378-382): as slice, without `@rnd`. */
  function SeqSlice<V>(st: State<V>, start: nat, len: nat): Option<State<V>>
  {
    match Section(st.sequential, start, len)
    case None => None
    case Some(part) => Some(MergeArray(Empty(), part))
  }

  /** The stores slice! and seq_slice! leave (lib/sarah.rb:370, 388): only `@seq` is cut. */
  function SliceRest<V>(st: State<V>, start: nat, len: nat): State<V>
  {
    State(Cut(st.sequential, start, len), st.random)
  }
}
