/**
  The Sarah object of lib/sarah.rb: the two stores and the defaults as fields,
  every operation as a method that updates them in place. Each method that
  changes the stores is proved to leave exactly the state the corresponding
  function of Store computes and to keep the invariant Store.Valid; the slice
  methods return a new Sarah that satisfies it. The queries are the functions
  of Store applied to State().
 */
module Container {
  import opened Wrappers
  import Assoc
  import Store
  import Properties

  class Sarah<V> {
    /** attr_accessor :default */
    var default: V
    /** attr_accessor :default_proc (a block given to new takes its place) */
    var defaultProc: Option<Option<Store.Key> -> V>
    /** @seq */
    var sequential: seq<V>
    /** @rnd */
    var random: seq<(Store.Key, V)>

    function State(): Store.State<V>
      reads this
    {
      Store.State(sequential, random)
    }

    function Defaults(): Store.Defaults<V>
      reads this
    {
      Store.Defaults(default, defaultProc)
    }

    ghost predicate Valid()
      reads this
    {
      Store.Valid(State())
    }

    // -------------------------------------------------------------- queries

    predicate HasKey(key: Store.Key)
      reads this
    {
      Store.HasKey(State(), key)
    }

    function Get(key: Store.Key): V
      reads this
    {
      Store.Get(State(), Defaults(), key)
    }

    function Fetch(key: Store.Key, fallback: Option<V>, block: Option<Store.Key -> V>): Result<V, Store.FetchError>
      reads this
    {
      Store.Fetch(State(), key, fallback, block)
    }

    function Size(): nat
      reads this
    {
      Store.Size(State())
    }

    function SeqSize(): nat
      reads this
    {
      |sequential|
    }

    function RndSize(): nat
      reads this
    {
      |random|
    }

    function Keys(): seq<Store.Key>
      reads this
    {
      Store.Keys(State())
    }

    function Values(): seq<V>
      reads this
    {
      Store.Values(State())
    }

    function Each(): seq<(Store.Key, V)>
      reads this
    {
      Store.Each(State())
    }

    // -------------------------------------------------------------- updates

    /** new (lib/sarah.rb:42-47): clear, take the defaults, then merge! the given sources. */
    constructor (default: V, defaultProc: Option<Option<Store.Key> -> V>, sources: seq<Store.Source<V>>)
      ensures State() == Store.Merge(Store.Empty(), sources)
      ensures Defaults() == Store.Defaults(default, defaultProc)
      ensures Valid()
    {
      this.default := default;
      this.defaultProc := defaultProc;
      sequential := [];
      random := [];
      new;
      Merge(sources);
    }

    /** clear (lib/sarah.rb:52-56). */
    method Clear()
      modifies this
      ensures State() == Store.Empty()
      ensures Defaults() == old(Defaults())
      ensures Valid()
    {
      sequential := [];
      random := [];
    }

    /** []= (lib/sarah.rb:160-177): place the value, then absorb `@rnd[size]`, `@rnd[size + 1]`, ... into `@seq`. */
    method Assign(key: Store.Key, value: V) returns (r: V)
      modifies this
      ensures State() == Store.Assign(old(State()), key, value)
      ensures r == value
      ensures Defaults() == old(Defaults())
      ensures old(Valid()) ==> Valid()
    {
      var n := |sequential|;
      if key.Int? && Store.Abs(key.i) <= n {
        var k := Store.Normalize(key.i, n);
        if k == n {
          sequential := sequential + [value];
        } else {
          sequential := sequential[k := value];
        }
        random := Assoc.Delete(random, Store.Int(k));
      } else {
        random := Assoc.Put(random, key, value);
      }
      ghost var placed := State();
      assert placed == Store.Place(old(State()), key, value);
      var i := |sequential|;
      while Assoc.HasKey(random, Store.Int(i))
        invariant i == |sequential|
        invariant Store.Absorb(State()) == Store.Absorb(placed)
        invariant Defaults() == old(Defaults())
        decreases |random|
      {
        sequential := sequential + [Assoc.Lookup(random, Store.Int(i))];
        random := Assoc.Delete(random, Store.Int(i));
        i := i + 1;
      }
      r := value;
      if Store.Valid(old(State())) {
        Properties.AssignKeepsValid(old(State()), key, value);
      }
    }

    /**
      delete_key (lib/sarah.rb:286-303): the removed value (or the default for
      nil); an index into `@seq` truncates it and demotes what followed.
     */
    method DeleteKey(key: Store.Key) returns (r: V)
      modifies this
      ensures Store.DeleteKey(old(State()), old(Defaults()), key) == Store.Removal(r, State())
      ensures Defaults() == old(Defaults())
      ensures old(Valid()) ==> Valid()
    {
      ghost var before := State();
      ghost var spec := Store.DeleteKey(before, Defaults(), key);
      if Store.Valid(before) {
        Properties.DeleteKeyKeepsValid(before, Defaults(), key);
      }
      var n := |sequential|;
      if Assoc.HasKey(random, key) {
        r := Assoc.Lookup(random, key);
        random := Assoc.Delete(random, key);
      } else if key.Int? && 0 <= Store.Normalize(key.i, n) < n {
        var k := Store.Normalize(key.i, n);
        r := sequential[k];
        random := DemoteTail(random, sequential, k + 1);
        sequential := sequential[..k];
      } else {
        r := Store.Fallback(Defaults(), None);
      }
      assert spec == Store.Removal(r, State());
    }

    /** The demotion loop of delete_key (lib/sarah.rb:294): every element of `seq` from `from` on is stored in `rnd` under its index. */
    static method DemoteTail(rnd: seq<(Store.Key, V)>, values: seq<V>, from: nat) returns (r: seq<(Store.Key, V)>)
      ensures r == Store.Demote(rnd, values, from)
    {
      r := rnd;
      var i := from;
      while i < |values|
        invariant from <= i
        invariant Store.Demote(r, values, i) == Store.Demote(rnd, values, from)
        decreases |values| - i
      {
        r := Assoc.Put(r, Store.Int(i), values[i]);
        i := i + 1;
      }
    }

    /** shift (lib/sarah.rb:114-122). */
    method Shift() returns (r: V)
      modifies this
      ensures Store.Shift(old(State()), old(Defaults())) == Store.Removal(r, State())
      ensures Defaults() == old(Defaults())
      ensures old(Valid()) ==> Valid()
    {
      if Store.Valid(old(State())) {
        Properties.ShiftPopKeepValid(old(State()), old(Defaults()));
      }
      if |sequential| > 0 {
        r := sequential[0];
        sequential := sequential[1..];
      } else {
        r := Store.Fallback(Defaults(), None);
      }
    }

    /** pop (lib/sarah.rb:125-133). */
    method Pop() returns (r: V)
      modifies this
      ensures Store.Pop(old(State()), old(Defaults())) == Store.Removal(r, State())
      ensures Defaults() == old(Defaults())
      ensures old(Valid()) ==> Valid()
    {
      if Store.Valid(old(State())) {
        Properties.ShiftPopKeepValid(old(State()), old(Defaults()));
      }
      var n := |sequential|;
      if n > 0 {
        r := sequential[n - 1];
        sequential := sequential[..n - 1];
      } else {
        r := Store.Fallback(Defaults(), None);
      }
    }

    /** Deletes the keys |@seq| ... |@seq| + m - 1 from `@rnd`, as push and unshift begin. */
    method DropKeys(m: nat)
      modifies this
      ensures State() == Store.State(old(sequential), Store.DropRange(old(random), |old(sequential)|, |old(sequential)| + m))
      ensures Defaults() == old(Defaults())
      ensures old(Valid()) ==> Valid()
    {
      var n := |sequential|;
      if Valid() {
        Properties.DropRangeKeepsValid(State(), n, n + m);
      }
      var k := n;
      while k < n + m
        invariant n <= k <= n + m
        invariant sequential == old(sequential)
        invariant Store.DropRange(random, k, n + m) == Store.DropRange(old(random), n, n + m)
        invariant Defaults() == old(Defaults())
        decreases n + m - k
      {
        random := Assoc.Delete(random, Store.Int(k));
        k := k + 1;
      }
    }

    /** push (lib/sarah.rb:273-277). */
    method Push(vs: seq<V>)
      modifies this
      ensures State() == Store.Push(old(State()), vs)
      ensures Defaults() == old(Defaults())
      ensures old(Valid()) ==> Valid()
    {
      DropKeys(|vs|);
      sequential := sequential + vs;
      if Store.Valid(old(State())) {
        Properties.PushUnshiftKeepValid(old(State()), vs);
      }
    }

    /** unshift (lib/sarah.rb:263-267). */
    method Unshift(vs: seq<V>)
      modifies this
      ensures State() == Store.Unshift(old(State()), vs)
      ensures Defaults() == old(Defaults())
      ensures old(Valid()) ==> Valid()
    {
      DropKeys(|vs|);
      sequential := vs + sequential;
      if Store.Valid(old(State())) {
        Properties.PushUnshiftKeepValid(old(State()), vs);
      }
    }

    /** merge! of an array (lib/sarah.rb:251): `self[i] = vs[i]` for every index. */
    method MergeArray(vs: seq<V>)
      modifies this
      ensures State() == Store.MergeArray(old(State()), vs)
      ensures Defaults() == old(Defaults())
      ensures old(Valid()) ==> Valid()
    {
      var i := 0;
      while i < |vs|
        invariant 0 <= i <= |vs|
        invariant Store.AssignFrom(State(), vs, i) == Store.MergeArray(old(State()), vs)
        invariant Defaults() == old(Defaults())
        invariant old(Valid()) ==> Valid()
        decreases |vs| - i
      {
        var _ := Assign(Store.Int(i), vs[i]);
        i := i + 1;
      }
    }

    /** merge! of a hash (lib/sarah.rb:249): `self[k] = v` for every pair in order. */
    method MergePairs(pairs: seq<(Store.Key, V)>)
      modifies this
      ensures State() == Store.MergePairs(old(State()), pairs)
      ensures Defaults() == old(Defaults())
      ensures old(Valid()) ==> Valid()
    {
      var j := 0;
      while j < |pairs|
        invariant 0 <= j <= |pairs|
        invariant Store.MergePairs(State(), pairs[j..]) == Store.MergePairs(old(State()), pairs)
        invariant Defaults() == old(Defaults())
        invariant old(Valid()) ==> Valid()
        decreases |pairs| - j
      {
        assert pairs[j..][0] == pairs[j] && pairs[j..][1..] == pairs[j + 1..];
        var _ := Assign(pairs[j].0, pairs[j].1);
        j := j + 1;
      }
    }

    /** set_pairs (lib/sarah.rb:199-202): `self[k] = v` for every pair in order. */
    method SetPairs(pairs: seq<(Store.Key, V)>)
      modifies this
      ensures State() == Store.MergePairs(old(State()), pairs)
      ensures Defaults() == old(Defaults())
      ensures old(Valid()) ==> Valid()
    {
      MergePairs(pairs);
    }

    /** merge! (lib/sarah.rb:246-255): each source in turn. */
    method Merge(sources: seq<Store.Source<V>>)
      modifies this
      ensures State() == Store.Merge(old(State()), sources)
      ensures Defaults() == old(Defaults())
      ensures old(Valid()) ==> Valid()
    {
      var j := 0;
      while j < |sources|
        invariant 0 <= j <= |sources|
        invariant Store.Merge(State(), sources[j..]) == Store.Merge(old(State()), sources)
        invariant Defaults() == old(Defaults())
        invariant old(Valid()) ==> Valid()
        decreases |sources| - j
      {
        assert sources[j..][0] == sources[j] && sources[j..][1..] == sources[j + 1..];
        match sources[j] {
          case ArraySource(vs) => MergeArray(vs);
          case HashSource(ps) => MergePairs(ps);
        }
        j := j + 1;
      }
    }

    /**
      set (lib/sarah.rb:186-191): the leading values are merged as an array,
      then the trailing hash, if there is one.
     */
    method Set(values: seq<V>, hash: Option<seq<(Store.Key, V)>>)
      modifies this
      ensures State() == Store.Merge(old(State()), [Store.ArraySource(values)] + if hash.Some? then [Store.HashSource(hash.value)] else [])
      ensures Defaults() == old(Defaults())
      ensures old(Valid()) ==> Valid()
    {
      var sources := [Store.ArraySource(values)] + if hash.Some? then [Store.HashSource(hash.value)] else [];
      Merge(sources);
    }

    /** The step append! takes for one structure (lib/sarah.rb:212-219). */
    method AppendPiece(p: Store.Piece<V>)
      modifies this
      ensures State() == Store.AppendPiece(old(State()), p)
      ensures Defaults() == old(Defaults())
      ensures old(Valid()) ==> Valid()
    {
      match p {
        case Nested(vs, ps) =>
          Push(vs);
          MergePairs(ps);
        case Plain(HashSource(ps)) => MergePairs(ps);
        case Plain(ArraySource(vs)) => Push(vs);
      }
    }

    /** append! (lib/sarah.rb:210-222): the structures first to last. */
    method Append(pieces: seq<Store.Piece<V>>)
      modifies this
      ensures State() == Store.Append(old(State()), pieces)
      ensures Defaults() == old(Defaults())
      ensures old(Valid()) ==> Valid()
    {
      var j := 0;
      while j < |pieces|
        invariant 0 <= j <= |pieces|
        invariant Store.Append(State(), pieces[j..]) == Store.Append(old(State()), pieces)
        invariant Defaults() == old(Defaults())
        invariant old(Valid()) ==> Valid()
        decreases |pieces| - j
      {
        assert pieces[j..][0] == pieces[j] && pieces[j..][1..] == pieces[j + 1..];
        AppendPiece(pieces[j]);
        j := j + 1;
      }
    }

    /** The step insert! takes for one structure (lib/sarah.rb:230-237). */
    method InsertPiece(p: Store.Piece<V>)
      modifies this
      ensures State() == Store.InsertPiece(old(State()), p)
      ensures Defaults() == old(Defaults())
      ensures old(Valid()) ==> Valid()
    {
      match p {
        case Nested(vs, ps) =>
          Unshift(vs);
          MergePairs(ps);
        case Plain(HashSource(ps)) => MergePairs(ps);
        case Plain(ArraySource(vs)) => Unshift(vs);
      }
    }

    /** insert! (lib/sarah.rb:228-240): the structures last to first. */
    method Insert(pieces: seq<Store.Piece<V>>)
      modifies this
      ensures State() == Store.Insert(old(State()), pieces)
      ensures Defaults() == old(Defaults())
      ensures old(Valid()) ==> Valid()
    {
      var j := |pieces|;
      assert pieces[..j] == pieces;
      while j > 0
        invariant 0 <= j <= |pieces|
        invariant Store.Insert(State(), pieces[..j]) == Store.Insert(old(State()), pieces)
        invariant Defaults() == old(Defaults())
        invariant old(Valid()) ==> Valid()
        decreases j
      {
        assert pieces[..j][..j - 1] == pieces[..j - 1] && pieces[..j][j - 1] == pieces[j - 1];
        InsertPiece(pieces[j - 1]);
        j := j - 1;
      }
      assert pieces[..0] == [];
    }

    // -------------------------------------------------------------- slices

    /** slice (lib/sarah.rb:360-364): a new Sarah with the same defaults, or nil. */
    method Slice(start: nat, len: nat) returns (r: Option<Sarah<V>>)
      ensures r.None? <==> Store.Slice(State(), start, len).None?
      ensures r.Some? ==> fresh(r.value) && r.value.State() == Store.Slice(State(), start, len).value
      ensures r.Some? ==> r.value.Defaults() == Defaults() && r.value.Valid()
    {
      match Store.Section(sequential, start, len) {
        case None => r := None;
        case Some(part) =>
          var s := new Sarah(default, defaultProc, [Store.ArraySource(part), Store.HashSource(random)]);
          ghost var sources := [Store.ArraySource(part), Store.HashSource(random)];
          assert sources[1..] == [Store.HashSource(random)] && sources[1..][1..] == [];
          ghost var fromArray := Store.MergeArray(Store.Empty(), part);
          assert Store.Merge(Store.Empty(), sources) == Store.Merge(fromArray, [Store.HashSource(random)]);
          assert Store.Merge(fromArray, [Store.HashSource(random)]) == Store.Merge(Store.MergePairs(fromArray, random), []);
          r := Some(s);
      }
    }

    /** seq_slice (lib/sarah.rb:378-382): as slice, without `@rnd`. */
    method SeqSlice(start: nat, len: nat) returns (r: Option<Sarah<V>>)
      ensures r.None? <==> Store.SeqSlice(State(), start, len).None?
      ensures r.Some? ==> fresh(r.value) && r.value.State() == Store.SeqSlice(State(), start, len).value
      ensures r.Some? ==> r.value.Defaults() == Defaults() && r.value.Valid()
    {
      match Store.Section(sequential, start, len) {
        case None => r := None;
        case Some(part) =>
          var s := new Sarah(default, defaultProc, [Store.ArraySource(part)]);
          r := Some(s);
      }
    }

    /** slice! (lib/sarah.rb:369-373): cuts the section out of `@seq` and returns what slice returned before the cut. */
    method SliceInPlace(start: nat, len: nat) returns (r: Option<Sarah<V>>)
      modifies this
      ensures r.None? <==> Store.Slice(old(State()), start, len).None?
      ensures r.Some? ==> fresh(r.value) && r.value.State() == Store.Slice(old(State()), start, len).value
      ensures r.Some? ==> r.value.Defaults() == Defaults() && r.value.Valid()
      ensures State() == Store.SliceRest(old(State()), start, len)
      ensures Defaults() == old(Defaults())
      ensures old(Valid()) ==> Valid()
    {
      r := Slice(start, len);
      sequential := Store.Cut(sequential, start, len);
    }

    /** seq_slice! (lib/sarah.rb:387-391). */
    method SeqSliceInPlace(start: nat, len: nat) returns (r: Option<Sarah<V>>)
      modifies this
      ensures r.None? <==> Store.SeqSlice(old(State()), start, len).None?
      ensures r.Some? ==> fresh(r.value) && r.value.State() == Store.SeqSlice(old(State()), start, len).value
      ensures r.Some? ==> r.value.Defaults() == Defaults() && r.value.Valid()
      ensures State() == Store.SliceRest(old(State()), start, len)
      ensures Defaults() == old(Defaults())
      ensures old(Valid()) ==> Valid()
    {
      r := SeqSlice(start, len);
      sequential := Store.Cut(sequential, start, len);
    }
  }
}
