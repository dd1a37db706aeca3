/**
 * A JavaScript object (or `Map`) with string keys, as an insertion-ordered
 * association list: assigning to a present key keeps its position, assigning
 * to a new key appends it, and `delete` removes it.
 */
module Assoc {
  import opened Wrappers

  type AssocList<V> = seq<(string, V)>

  /** The keys in insertion order (`Object.keys`). */
  function Keys<V>(m: AssocList<V>): (r: seq<string>)
    ensures |r| == |m|
    ensures forall i :: 0 <= i < |m| ==> r[i] == m[i].0
  {
    seq(|m|, i requires 0 <= i < |m| => m[i].0)
  }

  /** No key occurs twice. */
  predicate DistinctKeys<V>(m: AssocList<V>) {
    forall i, j :: 0 <= i < j < |m| ==> m[i].0 != m[j].0
  }

  /** The position of `k`, if present. */
  function IndexOfKey<V>(m: AssocList<V>, k: string): (r: Option<nat>)
    ensures r.Some? ==> r.value < |m| && m[r.value].0 == k
    ensures r.Some? ==> forall j :: 0 <= j < r.value ==> m[j].0 != k
    ensures r.None? ==> forall j :: 0 <= j < |m| ==> m[j].0 != k
    decreases |m|
  {
    if |m| == 0 then None
    else if m[0].0 == k then Some(0)
    else
      match IndexOfKey(m[1..], k)
      case None => None
      case Some(i) => Some(i + 1)
  }

  /** `m[k]`, where a missing key reads as `undefined`. */
  function Lookup<V>(m: AssocList<V>, k: string): Option<V> {
    match IndexOfKey(m, k)
    case None => None
    case Some(i) => Some(m[i].1)
  }

  /** `m[k] = v`. */
  function Put<V>(m: AssocList<V>, k: string, v: V): (r: AssocList<V>)
    ensures IndexOfKey(m, k).Some? ==> r == m[IndexOfKey(m, k).value := (k, v)]
    ensures IndexOfKey(m, k).None? ==> r == m + [(k, v)]
  {
    match IndexOfKey(m, k)
    case None => m + [(k, v)]
    case Some(i) => m[i := (k, v)]
  }

  /** `delete m[k]`. */
  function Remove<V>(m: AssocList<V>, k: string): (r: AssocList<V>)
    ensures |r| <= |m|
    decreases |m|
  {
    if |m| == 0 then []
    else if m[0].0 == k then Remove(m[1..], k)
    else [m[0]] + Remove(m[1..], k)
  }

  /** `delete` keeps exactly the entries of the other keys. */
  lemma {:induction false} RemoveEntries<V>(m: AssocList<V>, k: string)
    ensures var r := Remove(m, k); forall i :: 0 <= i < |r| ==> r[i] in m && r[i].0 != k
    ensures var r := Remove(m, k); forall i :: 0 <= i < |m| && m[i].0 != k ==> m[i] in r
    decreases |m|
  {
    if |m| > 0 {
      RemoveEntries(m[1..], k);
      assert m == [m[0]] + m[1..];
    }
  }

  /** A key is present exactly when it is one of the keys. */
  lemma LookupKeys<V>(m: AssocList<V>, k: string)
    ensures Lookup(m, k).Some? <==> k in Keys(m)
  {
    if k in Keys(m) {
      var i :| 0 <= i < |Keys(m)| && Keys(m)[i] == k;
      assert m[i].0 == k;
    }
  }

  /** Reading a key just written gives the written value; other keys read as before. */
  lemma PutLookup<V>(m: AssocList<V>, k: string, v: V, j: string)
    ensures Lookup(Put(m, k, v), j) == if j == k then Some(v) else Lookup(m, j)
  {
    var r := Put(m, k, v);
    match IndexOfKey(m, k)
    case None =>
      FirstKeyAppend(m, k, v, j);
    case Some(i) =>
      FirstKeyUpdate(m, i, k, v, j);
  }

  lemma FirstKeyAppend<V>(m: AssocList<V>, k: string, v: V, j: string)
    requires IndexOfKey(m, k).None?
    ensures Lookup(m + [(k, v)], j) == if j == k then Some(v) else Lookup(m, j)
  {
    var r := m + [(k, v)];
    match IndexOfKey(m, j)
    case None =>
      if j == k {
        KeyAt(r, |m|, j);
      } else {
        NoKey(r, j);
      }
    case Some(i) =>
      KeyAt(r, i, j);
  }

  lemma FirstKeyUpdate<V>(m: AssocList<V>, i: nat, k: string, v: V, j: string)
    requires IndexOfKey(m, k) == Some(i)
    ensures Lookup(m[i := (k, v)], j) == if j == k then Some(v) else Lookup(m, j)
  {
    var r := m[i := (k, v)];
    if j == k {
      KeyAt(r, i, j);
    } else {
      match IndexOfKey(m, j)
      case None =>
        NoKey(r, j);
      case Some(p) =>
        KeyAt(r, p, j);
    }
  }

  /** The first position holding `k` is where the lookup goes. */
  lemma KeyAt<V>(m: AssocList<V>, i: nat, k: string)
    requires i < |m| && m[i].0 == k
    requires forall p :: 0 <= p < i ==> m[p].0 != k
    ensures IndexOfKey(m, k) == Some(i)
  {
  }

  lemma NoKey<V>(m: AssocList<V>, k: string)
    requires forall p :: 0 <= p < |m| ==> m[p].0 != k
    ensures IndexOfKey(m, k).None?
  {
  }

  /** After `delete m[k]`, `k` reads as `undefined` and every other key reads as before. */
  lemma {:induction false} RemoveLookup<V>(m: AssocList<V>, k: string, j: string)
    ensures Lookup(Remove(m, k), j) == if j == k then None else Lookup(m, j)
    decreases |m|
  {
    if |m| > 0 {
      RemoveLookup(m[1..], k, j);
      LookupCons(m[0], m[1..], j);
      if m[0].0 != k {
        LookupCons(m[0], Remove(m[1..], k), j);
        assert Remove(m, k) == [m[0]] + Remove(m[1..], k);
      }
      assert m == [m[0]] + m[1..];
    }
  }

  lemma LookupCons<V>(e: (string, V), m: AssocList<V>, j: string)
    ensures Lookup([e] + m, j) == if e.0 == j then Some(e.1) else Lookup(m, j)
  {
    assert ([e] + m)[1..] == m;
  }

  /** Writing a present key keeps the key order; writing a new key appends it. */
  lemma PutKeys<V>(m: AssocList<V>, k: string, v: V)
    ensures k in Keys(m) ==> Keys(Put(m, k, v)) == Keys(m)
    ensures k !in Keys(m) ==> Keys(Put(m, k, v)) == Keys(m) + [k]
  {
    LookupKeys(m, k);
  }

  /** `delete` drops exactly the deleted key from the key order. */
  lemma {:induction false} RemoveKeys<V>(m: AssocList<V>, k: string)
    ensures Keys(Remove(m, k)) == RemoveAll(Keys(m), k)
    decreases |m|
  {
    if |m| > 0 {
      RemoveKeys(m[1..], k);
      KeysCons(m[0], m[1..]);
      assert [m[0]] + m[1..] == m;
      if m[0].0 != k {
        KeysCons(m[0], Remove(m[1..], k));
      }
    }
  }

  lemma KeysCons<V>(e: (string, V), m: AssocList<V>)
    ensures Keys([e] + m) == [e.0] + Keys(m)
  {
  }

  /** The sequence with every occurrence of `k` dropped. */
  function RemoveAll(s: seq<string>, k: string): (r: seq<string>)
    ensures k !in r
    ensures forall x :: x in r <==> x in s && x != k
    decreases |s|
  {
    if |s| == 0 then []
    else if s[0] == k then RemoveAll(s[1..], k)
    else [s[0]] + RemoveAll(s[1..], k)
  }

  /** Writing and deleting keep keys distinct. */
  lemma PutDistinct<V>(m: AssocList<V>, k: string, v: V)
    requires DistinctKeys(m)
    ensures DistinctKeys(Put(m, k, v))
  {
  }

  lemma {:induction false} RemoveDistinct<V>(m: AssocList<V>, k: string)
    requires DistinctKeys(m)
    ensures DistinctKeys(Remove(m, k))
    decreases |m|
  {
    if |m| > 0 {
      var t := Remove(m[1..], k);
      RemoveDistinct(m[1..], k);
      RemoveEntries(m[1..], k);
      if m[0].0 != k {
        assert forall i :: 0 <= i < |t| ==> t[i] in m[1..];
        assert forall i :: 0 < i < |m| ==> m[i].0 != m[0].0;
        assert forall i :: 0 <= i < |t| ==> t[i].0 != m[0].0;
        assert Remove(m, k) == [m[0]] + t;
      }
    }
  }

  /** Every entry after `m[k] = v` was already there or is the written one. */
  lemma PutEntries<V>(m: AssocList<V>, k: string, v: V)
    ensures var r := Put(m, k, v); forall i :: 0 <= i < |r| ==> r[i] in m || r[i] == (k, v)
  {
  }

  /** With distinct keys, every entry after `m[k] = v` is the written one or an untouched entry of another key. */
  lemma PutEntriesDistinct<V>(m: AssocList<V>, k: string, v: V)
    requires DistinctKeys(m)
    ensures var r := Put(m, k, v); forall i :: 0 <= i < |r| ==> r[i] == (k, v) || (r[i] in m && r[i].0 != k)
  {
  }

  /** `delete` acts on each part of a concatenation separately. */
  lemma {:induction false} RemoveAppend<V>(a: AssocList<V>, b: AssocList<V>, k: string)
    ensures Remove(a + b, k) == Remove(a, k) + Remove(b, k)
    decreases |a|
  {
    if |a| == 0 {
      assert a + b == b;
    } else {
      var t := a[1..];
      assert (a + b)[0] == a[0] && (a + b)[1..] == t + b;
      RemoveAppend(t, b, k);
      if a[0].0 == k {
        assert Remove(a + b, k) == Remove(t + b, k);
      } else {
        assert Remove(a + b, k) == [a[0]] + Remove(t + b, k);
        assert Remove(a, k) == [a[0]] + Remove(t, k);
      }
    }
  }

  /** Deleting an absent key changes nothing. */
  lemma {:induction false} RemoveAbsent<V>(m: AssocList<V>, k: string)
    requires k !in Keys(m)
    ensures Remove(m, k) == m
    decreases |m|
  {
    if |m| > 0 {
      assert m[0].0 == Keys(m)[0];
      assert Keys(m[1..]) == Keys(m)[1..];
      RemoveAbsent(m[1..], k);
      assert [m[0]] + m[1..] == m;
    }
  }
}
