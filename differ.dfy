/**
  The comparison of two parsed tables behind `props_compare`: the keys found in only one
  of them (`compare_dict_keys`, props_check.py:524-529) and the common keys whose first
  values differ (`compare_dict_values`, props_check.py:532-540).
 */
module Differ {
  import opened Text
  import opened PropertyTable

  /** `sorted(list(dict2.keys() - dict1.keys()))` and the same the other way round
      (props_check.py:526-527): the keys of `b` missing from `a`, and those of `a` missing
      from `b`, each in strictly ascending order. */
  function MissingKeys(a: Table, b: Table): (r: (seq<string>, seq<string>))
    ensures forall x :: x in r.0 <==> x in b.entries && x !in a.entries
    ensures forall x :: x in r.1 <==> x in a.entries && x !in b.entries
    ensures StrictlyAscending(r.0) && StrictlyAscending(r.1)
  {
    SortedSetAscending(b.entries.Keys - a.entries.Keys);
    SortedSetAscending(a.entries.Keys - b.entries.Keys);
    (SortedSet(b.entries.Keys - a.entries.Keys), SortedSet(a.entries.Keys - b.entries.Keys))
  }

  /** The two lists are the only ascending listings of the two differences: whatever
      listing a caller builds of them in ascending order is the result. */
  lemma MissingKeysUnique(a: Table, b: Table, onlyB: seq<string>, onlyA: seq<string>)
    requires StrictlyAscending(onlyB) && forall x :: x in onlyB <==> x in b.entries && x !in a.entries
    requires StrictlyAscending(onlyA) && forall x :: x in onlyA <==> x in a.entries && x !in b.entries
    ensures MissingKeys(a, b) == (onlyB, onlyA)
  {
    var r := MissingKeys(a, b);
    AscendingUnique(onlyB, r.0);
    AscendingUnique(onlyA, r.1);
  }

  /** Swapping the tables swaps the two lists. */
  lemma MissingKeysSwap(a: Table, b: Table)
    ensures MissingKeys(b, a) == (MissingKeys(a, b).1, MissingKeys(a, b).0)
  {
    var r := MissingKeys(a, b);
    MissingKeysUnique(b, a, r.1, r.0);
  }

  /** Tables keyed `{a, b}` and `{b, c}`: `c` is missing from the first, `a` from the second. */
  lemma MissingKeysExample(a: Table, b: Table)
    requires a.entries.Keys == {"a", "b"} && b.entries.Keys == {"b", "c"}
    ensures MissingKeys(a, b) == (["c"], ["a"])
  {
    MissingKeysUnique(a, b, ["c"], ["a"]);
  }

  /** One entry of the `compare_dict_values` result: a key and its first value in each table. */
  datatype Difference = Difference(key: string, left: string, right: string)

  /** `dict[key][0][0]`: the value of the first entry recorded for `key`. */
  function First(t: Table, key: string): string
  {
    if key in t.entries && t.entries[key] != [] then t.entries[key][0].value else ""
  }

  /** `key` is in both tables and their first values differ (props_check.py:536-537). */
  predicate Differs(a: Table, b: Table, key: string)
  {
    key in a.entries && key in b.entries && First(a, key) != First(b, key)
  }

  function DifferenceAt(a: Table, b: Table, key: string): Difference
  {
    Difference(key, First(a, key), First(b, key))
  }

  /** The differences found while walking `keys` in order, before sorting. */
  function Collect(a: Table, b: Table, keys: seq<string>): seq<Difference>
  {
    if keys == [] then []
    else
      var key := keys[|keys| - 1];
      Collect(a, b, keys[..|keys| - 1]) + (if Differs(a, b, key) then [DifferenceAt(a, b, key)] else [])
  }

  /** The keys of `ds` are pairwise different. */
  predicate DistinctKeys(ds: seq<Difference>)
  {
    forall i, j :: 0 <= i < j < |ds| ==> ds[i].key != ds[j].key
  }

  /** `ds` is in strictly ascending order of key. */
  predicate AscendingKeys(ds: seq<Difference>)
  {
    forall i, j :: 0 <= i < j < |ds| ==> Less(ds[i].key, ds[j].key)
  }

  /** Exactly the walked keys that differ are collected, each with its two first values;
      walking distinct keys collects distinct keys. */
  lemma {:induction false} CollectSpec(a: Table, b: Table, keys: seq<string>)
    ensures forall d :: d in Collect(a, b, keys) <==> d.key in keys && Differs(a, b, d.key) && d == DifferenceAt(a, b, d.key)
    ensures Distinct(keys) ==> DistinctKeys(Collect(a, b, keys))
    decreases |keys|
  {
    if keys != [] {
      var k := |keys| - 1;
      var front := keys[..k];
      CollectSpec(a, b, front);
      assert keys == front + [keys[k]];
      var c := Collect(a, b, keys);
      var cf := Collect(a, b, front);
      if Distinct(keys) {
        assert Distinct(front) by {
          forall i, j | 0 <= i < j < |front| ensures front[i] != front[j] {
            assert front[i] == keys[i] && front[j] == keys[j];
          }
        }
        assert keys[k] !in front by {
          forall i | 0 <= i < |front| ensures front[i] != keys[k] {
            assert front[i] == keys[i];
          }
        }
        forall i, j | 0 <= i < j < |c| ensures c[i].key != c[j].key {
          if j >= |cf| {
            assert c[i] == cf[i] && cf[i] in cf;
          } else {
            assert c[i] == cf[i] && c[j] == cf[j];
          }
        }
      }
    }
  }

  /** Only the first value on each side is inspected: tables that agree on their keys and
      first values collect the same differences, whatever their other entries are. */
  lemma {:induction false} OnlyFirstValues(a: Table, a': Table, b: Table, b': Table, keys: seq<string>)
    requires a.entries.Keys == a'.entries.Keys && b.entries.Keys == b'.entries.Keys
    requires forall k :: First(a, k) == First(a', k) && First(b, k) == First(b', k)
    ensures Collect(a, b, keys) == Collect(a', b', keys)
    decreases |keys|
  {
    if keys != [] {
      OnlyFirstValues(a, a', b, b', keys[..|keys| - 1]);
    }
  }

  /** `d` inserted before the first entry whose key is greater. */
  function Insert(d: Difference, ds: seq<Difference>): (r: seq<Difference>)
    ensures multiset(r) == multiset(ds) + multiset{d}
  {
    if ds == [] then [d]
    else if Less(d.key, ds[0].key) then [d] + ds
    else
      assert ds == [ds[0]] + ds[1..];
      [ds[0]] + Insert(d, ds[1..])
  }

  /** Every key of `ds` is greater than `k`. */
  predicate Above(k: string, ds: seq<Difference>)
  {
    forall i :: 0 <= i < |ds| ==> Less(k, ds[i].key)
  }

  /** The tail of an ascending list is ascending and above its head. */
  lemma AscendingTail(ds: seq<Difference>)
    requires ds != [] && AscendingKeys(ds)
    ensures AscendingKeys(ds[1..]) && Above(ds[0].key, ds[1..])
  {
    var rest := ds[1..];
    forall i, j | 0 <= i < j < |rest| ensures Less(rest[i].key, rest[j].key) {
      assert rest[i] == ds[i + 1] && rest[j] == ds[j + 1];
    }
    forall i | 0 <= i < |rest| ensures Less(ds[0].key, rest[i].key) {
      assert rest[i] == ds[i + 1];
    }
  }

  /** An entry below an ascending list can go in front of it. */
  lemma ConsAscending(h: Difference, r: seq<Difference>)
    requires AscendingKeys(r) && Above(h.key, r)
    ensures AscendingKeys([h] + r)
  {
    var r' := [h] + r;
    forall i, j | 0 <= i < j < |r'| ensures Less(r'[i].key, r'[j].key) {
      if i == 0 {
        assert r'[j] == r[j - 1];
      } else {
        assert r'[i] == r[i - 1] && r'[j] == r[j - 1];
      }
    }
  }

  /** A key below the head of an ascending list is below all of it. */
  lemma BelowHead(k: string, ds: seq<Difference>)
    requires ds != [] && AscendingKeys(ds) && Less(k, ds[0].key)
    ensures Above(k, ds)
  {
    forall i | 0 <= i < |ds| ensures Less(k, ds[i].key) {
      if i > 0 {
        LessTransitive(k, ds[0].key, ds[i].key);
      }
    }
  }

  /** Inserting an entry above `k` into a list above `k` gives a list above `k`. */
  lemma InsertAbove(k: string, d: Difference, ds: seq<Difference>)
    requires Less(k, d.key) && Above(k, ds)
    ensures Above(k, Insert(d, ds))
  {
    var r := Insert(d, ds);
    forall i | 0 <= i < |r| ensures Less(k, r[i].key) {
      assert r[i] in multiset(r);
      if r[i] != d {
        assert r[i] in multiset(ds);
        var j :| 0 <= j < |ds| && ds[j] == r[i];
      }
    }
  }

  /** Inserting a new key into an ascending list keeps it ascending. */
  lemma {:induction false} InsertAscending(d: Difference, ds: seq<Difference>)
    requires AscendingKeys(ds) && forall i :: 0 <= i < |ds| ==> ds[i].key != d.key
    ensures AscendingKeys(Insert(d, ds))
    decreases |ds|
  {
    if ds != [] && !Less(d.key, ds[0].key) {
      var rest := ds[1..];
      AscendingTail(ds);
      assert forall i :: 0 <= i < |rest| ==> rest[i].key != d.key by {
        forall i | 0 <= i < |rest| ensures rest[i].key != d.key {
          assert rest[i] == ds[i + 1];
        }
      }
      InsertAscending(d, rest);
      LessTotal(d.key, ds[0].key);
      InsertAbove(ds[0].key, d, rest);
      ConsAscending(ds[0], Insert(d, rest));
    } else if ds != [] {
      BelowHead(d.key, ds);
      ConsAscending(d, ds);
    }
  }

  /** Python's `sorted` on the collected triples, by insertion; their keys are distinct, so
      ordering the triples is ordering their keys. */
  function Sort(ds: seq<Difference>): (r: seq<Difference>)
    ensures multiset(r) == multiset(ds)
  {
    if ds == [] then []
    else
      assert ds == ds[..|ds| - 1] + [ds[|ds| - 1]];
      Insert(ds[|ds| - 1], Sort(ds[..|ds| - 1]))
  }

  /** The front of a list with distinct keys has distinct keys, none of them the last one's. */
  lemma DistinctKeysFront(ds: seq<Difference>)
    requires ds != [] && DistinctKeys(ds)
    ensures DistinctKeys(ds[..|ds| - 1])
    ensures forall i :: 0 <= i < |ds| - 1 ==> ds[i].key != ds[|ds| - 1].key
  {
    var front := ds[..|ds| - 1];
    forall i, j | 0 <= i < j < |front| ensures front[i].key != front[j].key {
      assert front[i] == ds[i] && front[j] == ds[j];
    }
  }

  /** A rearrangement of a list that avoids key `k` avoids it too. */
  lemma AvoidsKey(s: seq<Difference>, t: seq<Difference>, k: string)
    requires multiset(s) == multiset(t) && forall i :: 0 <= i < |t| ==> t[i].key != k
    ensures forall i :: 0 <= i < |s| ==> s[i].key != k
  {
    forall i | 0 <= i < |s| ensures s[i].key != k {
      assert s[i] in multiset(t);
      var j :| 0 <= j < |t| && t[j] == s[i];
    }
  }

  /** Sorting triples with distinct keys puts them in strictly ascending order of key. */
  lemma {:induction false} SortAscending(ds: seq<Difference>)
    requires DistinctKeys(ds)
    ensures AscendingKeys(Sort(ds))
    decreases |ds|
  {
    if ds != [] {
      var k := |ds| - 1;
      var front := ds[..k];
      DistinctKeysFront(ds);
      SortAscending(front);
      AvoidsKey(Sort(front), front, ds[k].key);
      InsertAscending(ds[k], Sort(front));
    }
  }

  /** Lists with the same multiset have the same members. */
  lemma SameMembers(r: seq<Difference>, c: seq<Difference>)
    requires multiset(r) == multiset(c)
    ensures forall d :: d in r <==> d in c
  {
    forall d ensures d in r <==> d in c {
      assert d in r <==> d in multiset(r);
      assert d in c <==> d in multiset(c);
    }
  }

  /** A table compared with itself collects nothing. */
  lemma CollectSelf(a: Table, keys: seq<string>)
    ensures Collect(a, a, keys) == []
  {
    CollectSpec(a, a, keys);
    if Collect(a, a, keys) != [] {
      assert Collect(a, a, keys)[0] in Collect(a, a, keys);
    }
  }

  /** Sorting what is collected over distinct keys keeps exactly the collected triples, in
      strictly ascending order of key; a table compared with itself has no differences. */
  lemma SortedDifferences(a: Table, b: Table)
    requires Valid(a)
    ensures var r := Sort(Collect(a, b, a.order));
      && (forall d :: d in r <==> Differs(a, b, d.key) && d == DifferenceAt(a, b, d.key))
      && AscendingKeys(r)
      && (a == b ==> r == [])
  {
    var c := Collect(a, b, a.order);
    CollectSpec(a, b, a.order);
    SortAscending(c);
    SameMembers(Sort(c), c);
    if a == b {
      CollectSelf(a, a.order);
    }
  }

  /** Walking one more key adds its difference, if any. */
  lemma CollectSnoc(a: Table, b: Table, keys: seq<string>, i: nat)
    requires i < |keys|
    ensures Collect(a, b, keys[..i + 1]) ==
              Collect(a, b, keys[..i]) + (if Differs(a, b, keys[i]) then [DifferenceAt(a, b, keys[i])] else [])
  {
    assert keys[..i + 1][..i] == keys[..i];
  }

  /** Lines 533-538: the walk over the keys of `a`, collecting the differences. */
  method CollectDifferences(a: Table, b: Table) returns (differing: seq<Difference>)
    requires Valid(a)
    requires forall k :: k in a.entries ==> a.entries[k] != []
    requires forall k :: k in b.entries ==> b.entries[k] != []
    ensures differing == Collect(a, b, a.order)
  {
    differing := [];
    var i := 0;
    while i < |a.order|
      invariant 0 <= i <= |a.order|
      invariant differing == Collect(a, b, a.order[..i])
    {
      var key := a.order[i];
      CollectSnoc(a, b, a.order, i);
      if key in b.entries {
        if a.entries[key][0].value != b.entries[key][0].value {
          differing := differing + [Difference(key, a.entries[key][0].value, b.entries[key][0].value)];
        } else {
          assert differing == differing + [];
        }
      } else {
        assert differing == differing + [];
      }
      i := i + 1;
    }
    assert a.order[..i] == a.order;
  }

  /** `compare_dict_values` (props_check.py:532-540): every key of `a` also in `b` whose
      first values differ, with both of them, sorted. */
  method CompareValues(a: Table, b: Table) returns (r: seq<Difference>)
    requires Valid(a)
    requires forall k :: k in a.entries ==> a.entries[k] != []
    requires forall k :: k in b.entries ==> b.entries[k] != []
    ensures forall d :: d in r <==> Differs(a, b, d.key) && d == DifferenceAt(a, b, d.key)
    ensures AscendingKeys(r)
    ensures a == b ==> r == []
  {
    var differing := CollectDifferences(a, b);
    r := Sort(differing);
    SortedDifferences(a, b);
  }
}
