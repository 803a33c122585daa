/**
 * Python's `dict` with string keys, as the skills manager uses it: a finite
 * map that remembers insertion order. Assigning to a present key keeps its
 * position, assigning to a new key appends it, and `del` drops it from the
 * order; `keys()` and `values()` follow that order.
 */
module Dicts {

  datatype Dict<V> = Dict(keys: seq<string>, entries: map<string, V>)

  ghost predicate Distinct(s: seq<string>) {
    forall i, j :: 0 <= i < j < |s| ==> s[i] != s[j]
  }

  /** The order lists every key of the map exactly once. */
  ghost predicate Valid<V>(d: Dict<V>) {
    Distinct(d.keys) && forall k :: k in d.entries <==> k in d.keys
  }

  /** `{}` */
  function Empty<V>(): (d: Dict<V>)
    ensures Valid(d) && d.entries == map[] && d.keys == []
  {
    Dict([], map[])
  }

  /** `d[k] = v` */
  function Put<V>(d: Dict<V>, k: string, v: V): (r: Dict<V>)
    requires Valid(d)
    ensures Valid(r)
    ensures r.entries == d.entries[k := v]
    ensures k in d.entries ==> r.keys == d.keys
    ensures k !in d.entries ==> r.keys == d.keys + [k]
  {
    if k in d.entries then Dict(d.keys, d.entries[k := v])
    else Dict(d.keys + [k], d.entries[k := v])
  }

  /** The position of `k` in `s`. */
  function IndexOf(s: seq<string>, k: string): (i: nat)
    requires k in s
    ensures i < |s| && s[i] == k
    ensures forall j :: 0 <= j < i ==> s[j] != k
  {
    if s[0] == k then 0 else 1 + IndexOf(s[1..], k)
  }

  /** Appending to a list does not move the first position of a key it already holds. */
  lemma IndexOfPrefix(s: seq<string>, t: seq<string>, k: string)
    requires k in s
    ensures IndexOf(s + t, k) == IndexOf(s, k)
  {
    var i := IndexOf(s, k);
    assert (s + t)[i] == k;
  }

  /** A key appended to a list that lacks it sits at the end. */
  lemma IndexOfAppended(s: seq<string>, k: string)
    requires k !in s
    ensures IndexOf(s + [k], k) == |s|
  {
    assert (s + [k])[|s|] == k;
  }

  /** Extending a list keeps the relative order of keys it already holds. */
  lemma OrderKeptByExtension(s: seq<string>, u: seq<string>, a: string, b: string)
    requires a in s && b in s && s <= u
    requires IndexOf(s, a) < IndexOf(s, b)
    ensures a in u && b in u && IndexOf(u, a) < IndexOf(u, b)
  {
    assert u == s + u[|s|..];
    IndexOfPrefix(s, u[|s|..], a);
    IndexOfPrefix(s, u[|s|..], b);
  }

  /** A key already in a list comes before one appended to it. */
  lemma OrderBeforeAppended(s: seq<string>, a: string, b: string)
    requires a in s && b !in s
    ensures a in s + [b] && b in s + [b] && IndexOf(s + [b], a) < IndexOf(s + [b], b)
  {
    IndexOfPrefix(s, [b], a);
    IndexOfAppended(s, b);
  }

  /** The element of `s[..i] + s[i + 1..]` at `j` is the one of `s` at `j` or `j + 1`. */
  lemma DropAtIndex(s: seq<string>, i: nat, j: nat)
    requires i < |s| && j < |s| - 1
    ensures (s[..i] + s[i + 1..])[j] == if j < i then s[j] else s[j + 1]
  {
  }

  /** Dropping position `i` from a list of distinct keys drops exactly `s[i]`. */
  lemma DropAt(s: seq<string>, i: nat)
    requires Distinct(s) && i < |s|
    ensures Distinct(s[..i] + s[i + 1..])
    ensures forall x :: x in s[..i] + s[i + 1..] <==> x in s && x != s[i]
  {
    var t := s[..i] + s[i + 1..];
    forall j1, j2 | 0 <= j1 < j2 < |t|
      ensures t[j1] != t[j2]
    {
      DropAtIndex(s, i, j1);
      DropAtIndex(s, i, j2);
    }
    forall x | x in s && x != s[i]
      ensures x in t
    {
      var j :| 0 <= j < |s| && s[j] == x;
      if j < i {
        DropAtIndex(s, i, j);
      } else {
        DropAtIndex(s, i, j - 1);
      }
    }
    forall x | x in t
      ensures x in s && x != s[i]
    {
      var j :| 0 <= j < |t| && t[j] == x;
      DropAtIndex(s, i, j);
    }
  }

  /** `del d[k]`; Python raises KeyError for a missing key. */
  function Remove<V>(d: Dict<V>, k: string): (r: Dict<V>)
    requires Valid(d) && k in d.entries
    ensures Valid(r)
    ensures r.entries == d.entries - {k}
    ensures var i := IndexOf(d.keys, k); r.keys == d.keys[..i] + d.keys[i + 1..]
    ensures |r.keys| == |d.keys| - 1
  {
    var i := IndexOf(d.keys, k);
    var keys := d.keys[..i] + d.keys[i + 1..];
    var entries := d.entries - {k};
    DropAt(d.keys, i);
    assert forall x :: x in entries <==> x in keys;
    Dict(keys, entries)
  }

  /** `list(d.values())` */
  function Values<V>(d: Dict<V>): (vs: seq<V>)
    requires Valid(d)
    ensures |vs| == |d.keys|
    ensures forall i :: 0 <= i < |vs| ==> vs[i] == d.entries[d.keys[i]]
  {
    seq(|d.keys|, i requires 0 <= i < |d.keys| => d.entries[d.keys[i]])
  }

  lemma {:induction false} DistinctCardinality(s: seq<string>)
    requires Distinct(s)
    ensures |set x | x in s| == |s|
  {
    if s != [] {
      var init := s[..|s| - 1];
      var last := s[|s| - 1];
      assert Distinct(init);
      DistinctCardinality(init);
      assert (set x | x in s) == (set x | x in init) + {last} by {
        forall x | x in s
          ensures x in init || x == last
        {
          var j :| 0 <= j < |s| && s[j] == x;
          if j < |s| - 1 { assert init[j] == x; }
        }
      }
      assert last !in init;
    }
  }

  /** The order of a well-formed dict lists as many keys as its map holds. */
  lemma OrderMatchesEntries<V>(d: Dict<V>)
    requires Valid(d)
    ensures |d.keys| == |d.entries|
  {
    DistinctCardinality(d.keys);
    assert d.entries.Keys == set x | x in d.keys;
  }

  /** `len(d)`: the length of the order is the number of keys. */
  function Size<V>(d: Dict<V>): (n: nat)
    requires Valid(d)
    ensures n == |d.entries|
  {
    OrderMatchesEntries(d);
    |d.keys|
  }
}
