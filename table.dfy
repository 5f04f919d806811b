/**
  The parsed table `properties` of `load_properties_file` (props_check.py:320-366):
  a Python dict from key to the list of `(value, comments)` tuples recorded for it,
  in insertion order.
 */
module PropertyTable {
  import opened Wrappers

  /** One occurrence of a key: its value and the comment lines collected before it
      (`None` when there were none). */
  datatype Entry = Entry(value: string, comments: Option<seq<string>>)

  /** A dict keeps its keys in insertion order: `order` lists them, `entries` maps them. */
  datatype Table = Table(order: seq<string>, entries: map<string, seq<Entry>>)

  const Empty: Table := Table([], map[])

  predicate Distinct<T(==)>(s: seq<T>)
  {
    forall i, j :: 0 <= i < j < |s| ==> s[i] != s[j]
  }

  /** The dict invariant: every key once in `order`, and `order` lists exactly the keys. */
  ghost predicate Valid(t: Table)
  {
    Distinct(t.order) && forall k :: k in t.order <==> k in t.entries
  }

  /** `a` is a prefix of `b`. */
  predicate IsPrefix<T(==)>(a: seq<T>, b: seq<T>)
  {
    |a| <= |b| && b[..|a|] == a
  }

  /** The dict update of props_check.py:352-356: when `key` already has a non-empty
      list, `e` is appended unless an equal `(value, comments)` pair is already in it;
      otherwise `key` is bound to `[e]`. */
  function Add(t: Table, key: string, e: Entry): (r: Table)
    ensures key in r.entries && e in r.entries[key]
  {
    if key in t.entries && t.entries[key] != [] then
      if e in t.entries[key] then t
      else Table(t.order, t.entries[key := t.entries[key] + [e]])
    else if key in t.entries then
      Table(t.order, t.entries[key := [e]])
    else
      Table(t.order + [key], t.entries[key := [e]])
  }

  /** `Add` keeps the dict invariant, touches only `key`, appends a new key at the end of
      the order, and only ever appends to a key's non-empty list, once and never a pair
      that is already there. */
  lemma AddSpec(t: Table, key: string, e: Entry)
    requires Valid(t)
    ensures var r := Add(t, key, e);
      && Valid(r)
      && (forall k :: k in r.entries <==> k in t.entries || k == key)
      && (forall k :: k in t.entries && k != key ==> r.entries[k] == t.entries[k])
      && (key in t.entries ==> r.order == t.order)
      && (key !in t.entries ==> r.order == t.order + [key] && r.entries[key] == [e])
      && (key in t.entries && t.entries[key] != [] ==>
            IsPrefix(t.entries[key], r.entries[key])
            && r.entries[key] == (if e in t.entries[key] then t.entries[key] else t.entries[key] + [e]))
      && (key in t.entries && Distinct(t.entries[key]) ==> Distinct(r.entries[key]))
  {
    var r := Add(t, key, e);
    if key !in t.entries {
      assert r.order == t.order + [key];
      forall i, j | 0 <= i < j < |r.order| ensures r.order[i] != r.order[j] {
        if j == |t.order| { assert r.order[i] == t.order[i]; }
      }
    }
  }

  /** `u` grows `t`: keys only get added, at the end, and entry lists only get longer
      at their end. */
  predicate Extends(t: Table, u: Table)
  {
    && IsPrefix(t.order, u.order)
    && forall k :: k in t.entries ==> k in u.entries && IsPrefix(t.entries[k], u.entries[k])
  }

  lemma PrefixTransitive(a: seq<string>, b: seq<string>, c: seq<string>)
    requires IsPrefix(a, b) && IsPrefix(b, c)
    ensures IsPrefix(a, c)
  {
    assert c[..|a|] == c[..|b|][..|a|];
  }

  lemma EntryPrefixTransitive(a: seq<Entry>, b: seq<Entry>, c: seq<Entry>)
    requires IsPrefix(a, b) && IsPrefix(b, c)
    ensures IsPrefix(a, c)
  {
    assert c[..|a|] == c[..|b|][..|a|];
  }

  lemma ExtendsReflexive(t: Table)
    ensures Extends(t, t)
  {
    assert t.order[..|t.order|] == t.order;
    forall k | k in t.entries ensures IsPrefix(t.entries[k], t.entries[k]) {
      assert t.entries[k][..|t.entries[k]|] == t.entries[k];
    }
  }

  /** `Add` only adds to a table whose lists are all non-empty. */
  lemma AddExtends(t: Table, key: string, e: Entry)
    requires Valid(t)
    requires forall k :: k in t.entries ==> t.entries[k] != []
    ensures Extends(t, Add(t, key, e))
  {
    var r := Add(t, key, e);
    AddSpec(t, key, e);
    assert IsPrefix(t.order, r.order) by {
      if key !in t.entries { assert r.order[..|t.order|] == t.order; }
      else { assert t.order[..|t.order|] == t.order; }
    }
    forall k | k in t.entries ensures k in r.entries && IsPrefix(t.entries[k], r.entries[k]) {
      assert t.entries[k][..|t.entries[k]|] == t.entries[k];
    }
  }
}
