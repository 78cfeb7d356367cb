/**
  An insertion-ordered hash, the behaviour of Ruby's Hash that the container
  relies on for its random-access store: a list of key/value entries in which
  assigning an existing key keeps its position, assigning a new key appends
  it, and deleting a key removes it.
 */
module Assoc {

  /** The keys of the entries, in order (Hash#keys). */
  function Keys<K, V>(l: seq<(K, V)>): (ks: seq<K>)
    ensures |ks| == |l|
  {
    if l == [] then [] else [l[0].0] + Keys(l[1..])
  }

  /** The values of the entries, in order (Hash#values). */
  function Values<K, V>(l: seq<(K, V)>): (vs: seq<V>)
    ensures |vs| == |l|
  {
    if l == [] then [] else [l[0].1] + Values(l[1..])
  }

  /** Hash#has_key? */
  predicate HasKey<K(==), V>(l: seq<(K, V)>, k: K)
  {
    l != [] && (l[0].0 == k || HasKey(l[1..], k))
  }

  /** Every key occurs at most once, as in a Ruby Hash. */
  ghost predicate Distinct<K, V>(l: seq<(K, V)>)
  {
    l == [] || (!HasKey(l[1..], l[0].0) && Distinct(l[1..]))
  }

  /** Hash#[] on a present key: the value of its (first) entry. */
  function Lookup<K(==), V>(l: seq<(K, V)>, k: K): V
    requires HasKey(l, k)
  {
    if l[0].0 == k then l[0].1 else Lookup(l[1..], k)
  }

  /** Hash#[]=: an existing key is updated where it stands, a new key is appended. */
  function Put<K(==), V>(l: seq<(K, V)>, k: K, v: V): (r: seq<(K, V)>)
    ensures HasKey(l, k) ==> Keys(r) == Keys(l)
    ensures !HasKey(l, k) ==> r == l + [(k, v)]
  {
    if l == [] then [(k, v)]
    else if l[0].0 == k then [(k, v)] + l[1..]
    else
      assert ([l[0]] + Put(l[1..], k, v))[1..] == Put(l[1..], k, v);
      [l[0]] + Put(l[1..], k, v)
  }

  /** Hash#delete: afterwards the key is absent; an absent key changes nothing. */
  function Delete<K(==), V>(l: seq<(K, V)>, k: K): (r: seq<(K, V)>)
    ensures !HasKey(r, k)
    ensures |r| <= |l|
    ensures HasKey(l, k) ==> |r| < |l|
    ensures !HasKey(l, k) ==> r == l
  {
    if l == [] then []
    else if l[0].0 == k then Delete(l[1..], k)
    else
      assert ([l[0]] + Delete(l[1..], k))[1..] == Delete(l[1..], k);
      [l[0]] + Delete(l[1..], k)
  }

  /** HasKey is membership in Keys. */
  lemma {:induction false} HasKeyIsInKeys<K, V>(l: seq<(K, V)>, k: K)
    ensures HasKey(l, k) <==> k in Keys(l)
  {
    if l != [] {
      HasKeyIsInKeys(l[1..], k);
    }
  }

  /** Reading back a key just put gives the new value; other keys read as before. */
  lemma {:induction false} PutLookup<K, V>(l: seq<(K, V)>, k: K, v: V, k': K)
    ensures HasKey(Put(l, k, v), k') <==> k' == k || HasKey(l, k')
    ensures HasKey(Put(l, k, v), k) && Lookup(Put(l, k, v), k) == v
    ensures k' != k && HasKey(l, k') ==> Lookup(Put(l, k, v), k') == Lookup(l, k')
  {
    if l != [] {
      if l[0].0 != k {
        PutLookup(l[1..], k, v, k');
        assert Put(l, k, v)[1..] == Put(l[1..], k, v);
      } else {
        assert Put(l, k, v)[1..] == l[1..];
      }
    }
  }

  /** Deleting one key does not change what any other key reads. */
  lemma {:induction false} DeleteLookup<K, V>(l: seq<(K, V)>, k: K, k': K)
    requires k' != k
    ensures HasKey(Delete(l, k), k') <==> HasKey(l, k')
    ensures HasKey(l, k') ==> Lookup(Delete(l, k), k') == Lookup(l, k')
  {
    if l != [] {
      DeleteLookup(l[1..], k, k');
      if l[0].0 != k {
        assert Delete(l, k)[1..] == Delete(l[1..], k);
      }
    }
  }

  /** Put keeps every key unique. */
  lemma {:induction false} PutDistinct<K, V>(l: seq<(K, V)>, k: K, v: V)
    requires Distinct(l)
    ensures Distinct(Put(l, k, v))
  {
    if l != [] {
      var r := Put(l, k, v);
      if l[0].0 == k {
        assert r[1..] == l[1..];
      } else {
        PutDistinct(l[1..], k, v);
        PutLookup(l[1..], k, v, l[0].0);
        assert r[1..] == Put(l[1..], k, v);
      }
    }
  }

  /** Delete keeps every key unique, and removes exactly one entry when the key was present. */
  lemma {:induction false} DeleteDistinct<K, V>(l: seq<(K, V)>, k: K)
    requires Distinct(l)
    ensures Distinct(Delete(l, k))
    ensures |Delete(l, k)| == if HasKey(l, k) then |l| - 1 else |l|
  {
    if l != [] {
      DeleteDistinct(l[1..], k);
      if l[0].0 != k {
        DeleteLookup(l[1..], k, l[0].0);
        assert Delete(l, k)[1..] == Delete(l[1..], k);
      }
    }
  }

  /** In a list with unique keys, every entry is what its own key reads. */
  lemma {:induction false} LookupAt<K, V>(l: seq<(K, V)>, p: nat)
    requires Distinct(l) && p < |l|
    ensures HasKey(l, l[p].0) && Lookup(l, l[p].0) == l[p].1
  {
    if p > 0 {
      LookupAt(l[1..], p - 1);
      assert l[1..][p - 1] == l[p];
    }
  }

  lemma {:induction false} KeysAt<K, V>(l: seq<(K, V)>, p: nat)
    requires p < |l|
    ensures Keys(l)[p] == l[p].0 && Values(l)[p] == l[p].1
  {
    if p > 0 {
      KeysAt(l[1..], p - 1);
    }
  }

  lemma {:induction false} HasKeyAt<K, V>(l: seq<(K, V)>, p: nat)
    requires p < |l|
    ensures HasKey(l, l[p].0)
  {
    if p > 0 {
      HasKeyAt(l[1..], p - 1);
      assert l[1..][p - 1] == l[p];
    }
  }

  /** A present key stands at some position. */
  lemma {:induction false} FindKey<K, V>(l: seq<(K, V)>, k: K) returns (p: nat)
    requires HasKey(l, k)
    ensures p < |l| && l[p].0 == k
  {
    if l[0].0 == k {
      p := 0;
    } else {
      var q := FindKey(l[1..], k);
      p := q + 1;
    }
  }

  lemma {:induction false} HasKeyAppend<K, V>(a: seq<(K, V)>, b: seq<(K, V)>, k: K)
    ensures HasKey(a + b, k) <==> HasKey(a, k) || HasKey(b, k)
    ensures HasKey(a, k) ==> Lookup(a + b, k) == Lookup(a, k)
    ensures !HasKey(a, k) && HasKey(b, k) ==> Lookup(a + b, k) == Lookup(b, k)
  {
    if a == [] {
      assert a + b == b;
    } else {
      HasKeyAppend(a[1..], b, k);
      assert (a + b)[1..] == a[1..] + b;
    }
  }

  /** In a list with unique keys, entries at different positions have different keys. */
  lemma {:induction false} DistinctAt<K, V>(l: seq<(K, V)>, p: nat, q: nat)
    requires Distinct(l) && p < q < |l|
    ensures l[p].0 != l[q].0
  {
    if p == 0 {
      HasKeyAt(l[1..], q - 1);
      assert l[1..][q - 1] == l[q];
    } else {
      DistinctAt(l[1..], p - 1, q - 1);
      assert l[1..][p - 1] == l[p] && l[1..][q - 1] == l[q];
    }
  }

  /** Two lists with unique keys and no key in common concatenate to a list with unique keys. */
  lemma {:induction false} DistinctAppend<K, V>(a: seq<(K, V)>, b: seq<(K, V)>)
    requires Distinct(a) && Distinct(b)
    requires forall p :: 0 <= p < |a| ==> !HasKey(b, a[p].0)
    ensures Distinct(a + b)
  {
    if a == [] {
      assert a + b == b;
    } else {
      assert (a + b)[1..] == a[1..] + b;
      forall p | 0 <= p < |a[1..]| ensures !HasKey(b, a[1..][p].0) {
        assert a[1..][p] == a[p + 1];
      }
      DistinctAppend(a[1..], b);
      HasKeyAppend(a[1..], b, a[0].0);
    }
  }
}
