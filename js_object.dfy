/**
 * A plain JavaScript object with string keys: its own properties in
 * insertion order, which is the order `Object.keys`, `Object.values` and
 * `Object.entries` report and `JSON.stringify` writes for keys that are
 * not array indices. Assigning to a key that is present replaces the
 * value in place; a new key goes last. Keys that are array indices
 * ("0", "2", ...), which JavaScript lists first in ascending order, and
 * "__proto__", whose assignment sets the prototype, are not modelled.
 */
module JsObject {
  import opened Wrappers
  import Lists

  type Obj<V> = seq<(string, V)>

  /** `Object.keys`. */
  function Keys<V>(o: Obj<V>): (ks: seq<string>)
    ensures |ks| == |o|
    ensures forall i :: 0 <= i < |o| ==> ks[i] == o[i].0
  {
    seq(|o|, i requires 0 <= i < |o| => o[i].0)
  }

  /** `Object.values`. */
  function Values<V>(o: Obj<V>): (vs: seq<V>)
    ensures |vs| == |o|
    ensures forall i :: 0 <= i < |o| ==> vs[i] == o[i].1
  {
    seq(|o|, i requires 0 <= i < |o| => o[i].1)
  }

  /** Every object the program builds has each key at most once. */
  predicate DistinctKeys<V>(o: Obj<V>) {
    forall i, j :: 0 <= i < j < |o| ==> o[i].0 != o[j].0
  }

  function KeyIndex<V>(o: Obj<V>, k: string): Option<nat> {
    Lists.FirstIndex(o, (e: (string, V)) => e.0 == k)
  }

  /** Property read, `None` for `undefined`. */
  function Get<V>(o: Obj<V>, k: string): (r: Option<V>)
    ensures r.None? <==> k !in Keys(o)
  {
    match KeyIndex(o, k)
    case None => None
    case Some(i) => assert Keys(o)[i] == k; Some(o[i].1)
  }

  /** `o[k] = v`, or the spread `{ ...o, [k]: v }`. */
  function Set<V>(o: Obj<V>, k: string, v: V): (r: Obj<V>)
    ensures DistinctKeys(o) ==> DistinctKeys(r)
    ensures k in Keys(o) ==> Keys(r) == Keys(o)
    ensures k !in Keys(o) ==> r == o + [(k, v)]
  {
    match KeyIndex(o, k)
    case None => o + [(k, v)]
    case Some(i) => o[i := (k, v)]
  }

  /** What `Set` stores is read back, and no other key changes. */
  lemma GetSet<V>(o: Obj<V>, k: string, v: V, k': string)
    ensures Get(Set(o, k, v), k') == if k' == k then Some(v) else Get(o, k')
  {
    var r := Set(o, k, v);
    var p := (e: (string, V)) => e.0 == k';
    match KeyIndex(o, k)
    case None =>
      FirstIndexAppend(o, (k, v), p);
    case Some(i) =>
      assert forall j :: 0 <= j < |o| && j != i ==> r[j] == o[j];
      FirstIndexReplace(o, i, (k, v), p);
  }

  /** The first match is determined by where `p` holds. */
  lemma FirstIndexIs<T>(s: seq<T>, p: T -> bool, i: nat)
    requires i < |s| && p(s[i]) && forall k :: 0 <= k < i ==> !p(s[k])
    ensures Lists.FirstIndex(s, p) == Some(i)
  {
  }

  lemma FirstIndexAppend<T>(s: seq<T>, x: T, p: T -> bool)
    ensures Lists.FirstIndex(s + [x], p) ==
      if Lists.FirstIndex(s, p).Some? then Lists.FirstIndex(s, p)
      else if p(x) then Some(|s|) else None
  {
    var t := s + [x];
    assert forall k :: 0 <= k < |s| ==> t[k] == s[k];
    var b := Lists.FirstIndex(s, p);
    if b.Some? {
      FirstIndexIs(t, p, b.value);
    } else if p(x) {
      FirstIndexIs(t, p, |s|);
    } else {
      assert forall k :: 0 <= k < |t| ==> !p(t[k]);
    }
  }

  /** Replacing an element on which `p` agrees does not move the first match. */
  lemma FirstIndexReplace<T>(s: seq<T>, i: nat, x: T, p: T -> bool)
    requires i < |s| && p(x) == p(s[i])
    ensures Lists.FirstIndex(s[i := x], p) == Lists.FirstIndex(s, p)
  {
    var r := s[i := x];
    assert forall j :: 0 <= j < |s| ==> p(r[j]) == p(s[j]);
    var b := Lists.FirstIndex(s, p);
    if b.Some? {
      FirstIndexIs(r, p, b.value);
    }
  }

  /** Assigning `o[name] = value` for each entry in order, as a `forEach` that
      builds an object does. */
  function FromEntries<V>(entries: seq<(string, V)>): (o: Obj<V>)
    ensures DistinctKeys(o)
  {
    if entries == [] then []
    else
      var last := entries[|entries| - 1];
      Set(FromEntries(entries[..|entries| - 1]), last.0, last.1)
  }

  /** The value a key last received in a list of entries. */
  function LastValue<V>(entries: seq<(string, V)>, k: string): Option<V> {
    if entries == [] then None
    else if entries[|entries| - 1].0 == k then Some(entries[|entries| - 1].1)
    else LastValue(entries[..|entries| - 1], k)
  }

  /** A later entry with the same key overwrites an earlier one. */
  lemma {:induction false} GetFromEntries<V>(entries: seq<(string, V)>, k: string)
    ensures Get(FromEntries(entries), k) == LastValue(entries, k)
  {
    if entries != [] {
      var last := entries[|entries| - 1];
      GetFromEntries(entries[..|entries| - 1], k);
      GetSet(FromEntries(entries[..|entries| - 1]), last.0, last.1, k);
    }
  }

  /** Entries whose keys are distinct come back out as they went in: the
      object's `Object.entries` is the list itself. */
  lemma {:induction false} FromDistinctEntries<V>(entries: seq<(string, V)>)
    requires DistinctKeys(entries)
    ensures FromEntries(entries) == entries
  {
    if entries != [] {
      var init := entries[..|entries| - 1];
      var last := entries[|entries| - 1];
      FromDistinctEntries(init);
      assert last.0 !in Keys(init) by {
        forall j | 0 <= j < |init| ensures init[j].0 != last.0 {
          assert init[j] == entries[j];
        }
      }
      assert init + [last] == entries;
    }
  }
}
