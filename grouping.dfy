/**
  `sort_properties_by_key` and `group_properties_by_prefix` (props_check.py:375-413):
  the parsed table put in key order, then bucketed by the first two dot-separated
  segments of each key, with every key's values flattened and its comments joined.
 */
module Grouping {
  import opened Wrappers
  import opened Text
  import opened PropertyTable

  // ---------------------------------------------------------------------------
  // sort_properties_by_key

  /** A strictly ascending sequence has no repeated element. */
  lemma AscendingDistinct(s: seq<string>)
    requires StrictlyAscending(s)
    ensures Distinct(s)
  {
    forall i, j | 0 <= i < j < |s| ensures s[i] != s[j] {
      LessIrreflexive(s[i]);
    }
  }

  /** `dict(sorted(properties.items()))` (props_check.py:375-376): the same keys bound to
      the same lists, in strictly ascending key order. */
  function SortByKey(t: Table): (r: Table)
    ensures Valid(r) && StrictlyAscending(r.order)
    ensures forall k :: k in r.order <==> k in t.entries
    ensures r.entries == t.entries
  {
    var order := SortedSet(t.entries.Keys);
    SortedSetAscending(t.entries.Keys);
    AscendingDistinct(order);
    Table(order, t.entries)
  }

  /** Sorting is the only ascending arrangement of a table: any valid table with the same
      associations in ascending key order is `SortByKey`'s result. */
  lemma SortByKeyUnique(t: Table, u: Table)
    requires Valid(u) && StrictlyAscending(u.order) && u.entries == t.entries
    ensures u == SortByKey(t)
  {
    SortedSetAscending(t.entries.Keys);
    AscendingUnique(u.order, SortByKey(t).order);
  }

  // ---------------------------------------------------------------------------
  // group_properties_by_prefix

  /** The bucket of a key without a dot (props_check.py:406-411). */
  const Singles: (string, string) := ("_singles", "")

  /** `parts = key.split('.')`, then `(parts[0], parts[1])` when there are at least two
      parts and `('_singles', '')` otherwise (props_check.py:381-411). */
  function BucketOf(key: string): (b: (string, string))
  {
    var parts := Split(key, '.');
    if |parts| >= 2 then (parts[0], parts[1]) else Singles
  }

  /** A key with a dot starts with its bucket's two names joined by `.`, followed by
      nothing or by a further `.`; the names hold no dot. A key without a dot is a single. */
  lemma BucketOfShape(key: string)
    ensures '.' !in key ==> BucketOf(key) == Singles
    ensures '.' in key ==>
              var (f, n) := BucketOf(key);
              && '.' !in f && '.' !in n
              && IsPrefix(f + "." + n, key)
              && (|key| == |f + "." + n| || key[|f + "." + n|] == '.')
  {
    if '.' in key {
      var parts := Split(key, '.');
      var i := IndexOf(key, '.');
      var rest := key[i + 1..];
      assert parts == [key[..i]] + Split(rest, '.');
      assert parts[0] in parts && parts[1] in parts;
      var n := parts[1];
      assert n == Split(rest, '.')[0];
      PieceIsPrefix(rest, '.');
      Cut(key, i);
      PrefixJoin(key[..i], rest, n);
    }
  }

  /** The first piece of a split is a prefix, followed by the end or by the separator. */
  lemma PieceIsPrefix(s: string, sep: char)
    ensures IsPrefix(Split(s, sep)[0], s)
    ensures |Split(s, sep)[0]| == |s| || s[|Split(s, sep)[0]|] == sep
  {
    if sep in s {
      var i := IndexOf(s, sep);
      assert Split(s, sep)[0] == s[..i];
    } else {
      assert s[..|s|] == s;
    }
  }

  lemma Cut(s: string, i: nat)
    requires i < |s|
    ensures s == s[..i] + [s[i]] + s[i + 1..]
  {
  }

  lemma PrefixJoin(f: string, rest: string, n: string)
    requires IsPrefix(n, rest)
    ensures IsPrefix(f + "." + n, f + "." + rest)
    ensures |f + "." + n| < |f + "." + rest| ==> (f + "." + rest)[|f + "." + n|] == rest[|n|]
  {
    var p := f + "." + n;
    var q := f + "." + rest;
    assert forall k :: 0 <= k < |p| ==> q[k] == p[k] by {
      forall k | 0 <= k < |p| ensures q[k] == p[k] {
        if k > |f| { assert q[k] == rest[k - |f| - 1] && p[k] == n[k - |f| - 1]; }
      }
    }
    assert q[..|p|] == p;
  }

  /** The values of a key's `(value, comments)` list, in order (props_check.py:385-389). */
  function Values(es: seq<Entry>): (vs: seq<string>)
    ensures |vs| == |es|
    ensures forall i :: 0 <= i < |es| ==> vs[i] == es[i].value
  {
    if es == [] then [] else Values(es[..|es| - 1]) + [es[|es| - 1].value]
  }

  /** The comment lists of a key's entries, joined in order (`None` and empty lists add nothing). */
  function AllComments(es: seq<Entry>): seq<string>
  {
    if es == [] then []
    else
      var last := es[|es| - 1];
      AllComments(es[..|es| - 1]) + (if last.comments.Some? then last.comments.value else [])
  }

  /** Lines 391-395 for one entry: a non-empty comment list is appended to `key`'s
      joined comments, or starts them. */
  function AddComment(cm: map<string, seq<string>>, key: string, e: Entry): map<string, seq<string>>
  {
    if e.comments.Some? && e.comments.value != [] then
      if key in cm && cm[key] != [] then cm[key := cm[key] + e.comments.value]
      else cm[key := e.comments.value]
    else cm
  }

  /** The inner loop of lines 385-395 over one key's entries, as far as `grouped_comments` goes. */
  function AddComments(cm: map<string, seq<string>>, key: string, es: seq<Entry>): map<string, seq<string>>
  {
    if es == [] then cm else AddComment(AddComments(cm, key, es[..|es| - 1]), key, es[|es| - 1])
  }

  /** The second-level dict of one first-level group: its bucket names in creation order
      and, for each, the dict from key to values. */
  datatype Level = Level(names: seq<string>, buckets: map<string, map<string, seq<string>>>)

  /** The nested `defaultdict`: first-level name to its second level. */
  type Grouped = map<string, Level>

  /** `grouped_properties[f][n]` with its `defaultdict` side effect of creating the group
      and the bucket, followed by the put or merge of lines 400-411. The merge appends
      because a list of values is never an element of a list of strings. */
  function Place(g: Grouped, f: string, n: string, key: string, values: seq<string>): Grouped
  {
    var level := if f in g then g[f] else Level([], map[]);
    var names := if n in level.buckets then level.names else level.names + [n];
    var props := if n in level.buckets then level.buckets[n] else map[];
    var props' := if key in props && props[key] != [] then props[key := props[key] + values]
                  else props[key := values];
    g[f := Level(names, level.buckets[n := props'])]
  }

  /** Every key of `order` has a list in `entries`. */
  predicate KeysListed(order: seq<string>, entries: map<string, seq<Entry>>)
  {
    forall i :: 0 <= i < |order| ==> order[i] in entries
  }

  /** `grouped_properties` after the keys of `order`. */
  function Groups(order: seq<string>, entries: map<string, seq<Entry>>): Grouped
    requires KeysListed(order, entries)
  {
    if order == [] then map[]
    else
      var key := order[|order| - 1];
      Place(Groups(order[..|order| - 1], entries), BucketOf(key).0, BucketOf(key).1, key, Values(entries[key]))
  }

  /** `grouped_comments` after the keys of `order`. */
  function Comments(order: seq<string>, entries: map<string, seq<Entry>>): map<string, seq<string>>
    requires KeysListed(order, entries)
  {
    if order == [] then map[]
    else
      var key := order[|order| - 1];
      AddComments(Comments(order[..|order| - 1], entries), key, entries[key])
  }

  /** The second-level names of group `f` in the order the keys of `order` create them. */
  function SecondLevels(order: seq<string>, f: string): seq<string>
  {
    if order == [] then []
    else
      var prev := SecondLevels(order[..|order| - 1], f);
      var (f', n) := BucketOf(order[|order| - 1]);
      if f' == f && n !in prev then prev + [n] else prev
  }

  /** `Groups` and `Comments` one key further. */
  lemma GroupStep(order: seq<string>, entries: map<string, seq<Entry>>, i: nat)
    requires i < |order| && KeysListed(order[..i + 1], entries)
    ensures KeysListed(order[..i], entries)
    ensures var key := order[i];
            && Groups(order[..i + 1], entries) ==
                 Place(Groups(order[..i], entries), BucketOf(key).0, BucketOf(key).1, key, Values(entries[key]))
            && Comments(order[..i + 1], entries) == AddComments(Comments(order[..i], entries), key, entries[key])
  {
    assert order[..i + 1][..i] == order[..i];
    assert forall k :: 0 <= k < i ==> order[..i][k] == order[..i + 1][k];
  }

  /** Lines 385-395: the inner loop over one key's entries, collecting its values and
      joining its comments onto `before`. */
  method FlattenEntries(key: string, valueList: seq<Entry>, before: map<string, seq<string>>)
    returns (values: seq<string>, comments: map<string, seq<string>>)
    ensures values == Values(valueList) && comments == AddComments(before, key, valueList)
  {
    values, comments := [], before;
    var j := 0;
    while j < |valueList|
      invariant 0 <= j <= |valueList|
      invariant values == Values(valueList[..j])
      invariant comments == AddComments(before, key, valueList[..j])
    {
      var e := valueList[j];
      values := values + [e.value];
      if e.comments.Some? && e.comments.value != [] {
        if key in comments && comments[key] != [] {
          comments := comments[key := comments[key] + e.comments.value];
        } else {
          comments := comments[key := e.comments.value];
        }
      }
      assert valueList[..j + 1][..j] == valueList[..j];
      j := j + 1;
    }
    assert valueList[..j] == valueList;
  }

  /** Lines 381 and 396-411: the two names of `key`'s bucket. */
  method BucketNames(key: string) returns (first: string, second: string)
    ensures (first, second) == BucketOf(key)
  {
    var parts := Split(key, '.');
    first, second := "_singles", "";
    if |parts| >= 2 {
      first, second := parts[0], parts[1];
    }
  }

  /** `group_properties_by_prefix` (props_check.py:379-413), looping over the keys and,
      inside, over each key's entries as the source does. */
  method GroupByPrefix(t: Table) returns (grouped: Grouped, comments: map<string, seq<string>>)
    requires Valid(t)
    ensures KeysListed(t.order, t.entries)
    ensures grouped == Groups(t.order, t.entries) && comments == Comments(t.order, t.entries)
  {
    grouped, comments := map[], map[];
    var i := 0;
    while i < |t.order|
      invariant 0 <= i <= |t.order|
      invariant KeysListed(t.order[..i], t.entries)
      invariant grouped == Groups(t.order[..i], t.entries)
      invariant comments == Comments(t.order[..i], t.entries)
    {
      var key := t.order[i];
      var values;
      values, comments := FlattenEntries(key, t.entries[key], comments);
      var first, second := BucketNames(key);
      assert KeysListed(t.order[..i + 1], t.entries);
      GroupStep(t.order, t.entries, i);
      grouped := Place(grouped, first, second, key, values);
      i := i + 1;
    }
    assert t.order[..i] == t.order;
  }

  // ---------------------------------------------------------------------------
  // What the grouping computes

  /** With `key` not yet present, the comment loop binds `key` to its entries' joined
      comments when they are not empty, and leaves every other key alone. */
  lemma {:induction false} AddCommentsSpec(cm: map<string, seq<string>>, key: string, es: seq<Entry>)
    requires key !in cm
    ensures var r := AddComments(cm, key, es);
      && (forall k :: k != key ==> (k in r <==> k in cm) && (k in cm ==> r[k] == cm[k]))
      && (key in r <==> AllComments(es) != [])
      && (key in r ==> r[key] == AllComments(es))
    decreases |es|
  {
    if es != [] {
      AddCommentsSpec(cm, key, es[..|es| - 1]);
      var last := es[|es| - 1];
      if last.comments.Some? {
        assert [] + last.comments.value == last.comments.value;
      } else {
        assert AllComments(es) == AllComments(es[..|es| - 1]) + [];
      }
    }
  }

  /** What `Place` changes: group `f` gets bucket `n` (at the end of its names when new),
      and that bucket binds `key` to `values` unless `key` was already there. */
  lemma PlaceSpec(g: Grouped, f: string, n: string, key: string, values: seq<string>)
    ensures var r := Place(g, f, n, key, values);
      var old_ := if f in g then g[f] else Level([], map[]);
      && (forall f' :: f' in r <==> f' in g || f' == f)
      && (forall f' :: f' in g && f' != f ==> r[f'] == g[f'])
      && r[f].names == (if n in old_.buckets then old_.names else old_.names + [n])
      && (forall n' :: n' in r[f].buckets <==> n' == n || n' in old_.buckets)
      && (forall n' :: n' != n && n' in old_.buckets ==> r[f].buckets[n'] == old_.buckets[n'])
      && (var props := if n in old_.buckets then old_.buckets[n] else map[];
          && (forall k :: k in r[f].buckets[n] <==> k == key || k in props)
          && (forall k :: k != key && k in props ==> r[f].buckets[n][k] == props[k])
          && (key !in props ==> r[f].buckets[n][key] == values))
  {
  }

  /** The comments map holds exactly the keys whose entries carry comments, each bound to
      the concatenation of its entries' comment lists in order (props_check.py:391-395). */
  lemma {:induction false} GroupComments(order: seq<string>, entries: map<string, seq<Entry>>)
    requires KeysListed(order, entries) && Distinct(order)
    ensures var cm := Comments(order, entries);
      && (forall k :: k in cm ==> k in order)
      && (forall k :: k in order && k in entries ==>
            (k in cm <==> AllComments(entries[k]) != []) && (k in cm ==> cm[k] == AllComments(entries[k])))
    decreases |order|
  {
    if order != [] {
      var p := order[..|order| - 1];
      var key := order[|order| - 1];
      Front(order, entries);
      GroupComments(p, entries);
      var cm := Comments(p, entries);
      assert key !in cm;
      AddCommentsSpec(cm, key, entries[key]);
    }
  }

  /** The keys before the last one, and what they inherit from all of `order`. */
  lemma Front(order: seq<string>, entries: map<string, seq<Entry>>)
    requires order != [] && KeysListed(order, entries)
    ensures var p := order[..|order| - 1];
      var key := order[|order| - 1];
      && KeysListed(p, entries) && key in entries && order == p + [key]
      && (Distinct(order) ==> Distinct(p) && key !in p)
  {
    var p := order[..|order| - 1];
    assert forall i :: 0 <= i < |p| ==> p[i] == order[i];
  }

  lemma {:induction false} SecondLevelsDistinct(order: seq<string>, f: string)
    ensures Distinct(SecondLevels(order, f))
    decreases |order|
  {
    if order != [] {
      SecondLevelsDistinct(order[..|order| - 1], f);
    }
  }

  /** Group `f` exists exactly when some key of `order` creates a bucket in it, and then
      its buckets are named once each, in the order those keys create them. */
  ghost predicate LevelMatches(g: Grouped, order: seq<string>, f: string)
  {
    && (f in g <==> SecondLevels(order, f) != [])
    && (f in g ==> g[f].names == SecondLevels(order, f) && forall n :: n in g[f].names <==> n in g[f].buckets)
  }

  ghost predicate LevelsMatch(g: Grouped, order: seq<string>)
  {
    forall f :: LevelMatches(g, order, f)
  }

  /** Placing a key into its own group extends that group's names as `SecondLevels` does. */
  lemma PlaceLevelsOwn(g: Grouped, order: seq<string>, key: string, values: seq<string>)
    requires LevelMatches(g, order, BucketOf(key).0)
    ensures LevelMatches(Place(g, BucketOf(key).0, BucketOf(key).1, key, values), order + [key], BucketOf(key).0)
  {
    var (f0, n0) := BucketOf(key);
    PlaceSpec(g, f0, n0, key, values);
    SecondLevelsSnoc(order, key, f0);
  }

  /** Placing a key leaves every other group as it was. */
  lemma PlaceLevelsOther(g: Grouped, order: seq<string>, key: string, values: seq<string>, f: string)
    requires f != BucketOf(key).0 && LevelMatches(g, order, f)
    ensures LevelMatches(Place(g, BucketOf(key).0, BucketOf(key).1, key, values), order + [key], f)
  {
    var (f0, n0) := BucketOf(key);
    PlaceSpec(g, f0, n0, key, values);
    SecondLevelsSnoc(order, key, f);
  }

  lemma PlaceLevels(g: Grouped, order: seq<string>, key: string, values: seq<string>)
    requires LevelsMatch(g, order)
    ensures LevelsMatch(Place(g, BucketOf(key).0, BucketOf(key).1, key, values), order + [key])
  {
    var r := Place(g, BucketOf(key).0, BucketOf(key).1, key, values);
    forall f ensures LevelMatches(r, order + [key], f) {
      if f == BucketOf(key).0 {
        PlaceLevelsOwn(g, order, key, values);
      } else {
        PlaceLevelsOther(g, order, key, values, f);
      }
    }
  }

  /** The bucket names of every group, in creation order (props_check.py:396-411). */
  lemma {:induction false} GroupLevels(order: seq<string>, entries: map<string, seq<Entry>>)
    requires KeysListed(order, entries)
    ensures LevelsMatch(Groups(order, entries), order)
    decreases |order|
  {
    if order != [] {
      var p := order[..|order| - 1];
      var key := order[|order| - 1];
      Front(order, entries);
      GroupLevels(p, entries);
      PlaceLevels(Groups(p, entries), p, key, Values(entries[key]));
    }
  }

  /** Every key in a bucket of `g` is one of `order`'s and belongs to that bucket. */
  predicate Sound(g: Grouped, order: seq<string>)
  {
    forall f, n, k :: f in g && n in g[f].buckets && k in g[f].buckets[n] ==>
      k in order && BucketOf(k) == (f, n)
  }

  lemma PlaceSound(g: Grouped, order: seq<string>, key: string, values: seq<string>)
    requires Sound(g, order)
    ensures Sound(Place(g, BucketOf(key).0, BucketOf(key).1, key, values), order + [key])
  {
    var (f0, n0) := BucketOf(key);
    var r := Place(g, f0, n0, key, values);
    forall f, n, k | f in r && n in r[f].buckets && k in r[f].buckets[n]
      ensures k in order + [key] && BucketOf(k) == (f, n)
    {
      PlacedFrom(g, f0, n0, key, values, f, n, k);
    }
  }

  /** A key in a bucket after placing is the placed key in its bucket, or was there before. */
  lemma PlacedFrom(g: Grouped, f0: string, n0: string, key: string, values: seq<string>,
                   f: string, n: string, k: string)
    requires var r := Place(g, f0, n0, key, values);
      f in r && n in r[f].buckets && k in r[f].buckets[n]
    ensures (k == key && f == f0 && n == n0) || (f in g && n in g[f].buckets && k in g[f].buckets[n])
  {
    PlaceSpec(g, f0, n0, key, values);
  }

  /** Every key in a bucket belongs there: it is one of the table's keys and its
      bucket is that group and name. */
  lemma {:induction false} GroupSound(order: seq<string>, entries: map<string, seq<Entry>>)
    requires KeysListed(order, entries)
    ensures Sound(Groups(order, entries), order)
    decreases |order|
  {
    if order != [] {
      var p := order[..|order| - 1];
      var key := order[|order| - 1];
      Front(order, entries);
      GroupSound(p, entries);
      PlaceSound(Groups(p, entries), p, key, Values(entries[key]));
    }
  }

  /** `k` sits in its own bucket of `g`, bound to `values`. */
  predicate InBucket(g: Grouped, k: string, values: seq<string>)
  {
    var (f, n) := BucketOf(k);
    f in g && n in g[f].buckets && k in g[f].buckets[n] && g[f].buckets[n][k] == values
  }

  /** Every key of `order` listed in `entries` sits in its own bucket, bound to its values. */
  predicate PlacedAll(g: Grouped, order: seq<string>, entries: map<string, seq<Entry>>)
  {
    forall k :: k in order && k in entries ==> InBucket(g, k, Values(entries[k]))
  }

  /** Placing a key that is new to a sound grouping keeps every key placed before. */
  lemma PlaceKeeps(g: Grouped, p: seq<string>, entries: map<string, seq<Entry>>, key: string)
    requires Sound(g, p) && PlacedAll(g, p, entries) && key !in p && key in entries
    ensures PlacedAll(Place(g, BucketOf(key).0, BucketOf(key).1, key, Values(entries[key])), p + [key], entries)
  {
    var (f0, n0) := BucketOf(key);
    PlaceSpec(g, f0, n0, key, Values(entries[key]));
    var r := Place(g, f0, n0, key, Values(entries[key]));
    forall k | k in p + [key] && k in entries ensures InBucket(r, k, Values(entries[k])) {
      if k != key {
        assert k in p;
        assert InBucket(g, k, Values(entries[k]));
      }
    }
  }

  /** Every key sits in its own bucket, bound to the values of its entries in order
      (props_check.py:385-411). */
  lemma {:induction false} GroupPlacement(order: seq<string>, entries: map<string, seq<Entry>>)
    requires KeysListed(order, entries) && Distinct(order)
    ensures PlacedAll(Groups(order, entries), order, entries)
    decreases |order|
  {
    if order != [] {
      var p := order[..|order| - 1];
      var key := order[|order| - 1];
      Front(order, entries);
      GroupPlacement(p, entries);
      GroupSound(p, entries);
      PlaceKeeps(Groups(p, entries), p, entries, key);
    }
  }

  /** Every key of `entries` sits in the bucket `BucketOf` names, bound to its values. */
  predicate Placed(g: Grouped, entries: map<string, seq<Entry>>)
  {
    forall k :: k in entries ==>
      var (f, n) := BucketOf(k);
      f in g && n in g[f].buckets && k in g[f].buckets[n] && g[f].buckets[n][k] == Values(entries[k])
  }

  /** The comments map binds exactly the keys with comments to their joined comments. */
  predicate CommentsJoined(cm: map<string, seq<string>>, entries: map<string, seq<Entry>>)
  {
    && (forall k :: k in cm ==> k in entries && cm[k] == AllComments(entries[k]))
    && (forall k :: k in entries && AllComments(entries[k]) != [] ==> k in cm)
  }

  /** For a table, every key is in exactly one bucket, the one `BucketOf` names, bound to its
      values; and the comments map is exactly the keys with comments (props_check.py:379-413). */
  lemma GroupTable(t: Table)
    requires Valid(t)
    ensures KeysListed(t.order, t.entries)
    ensures var g := Groups(t.order, t.entries);
      var cm := Comments(t.order, t.entries);
      Placed(g, t.entries) && Sound(g, t.order) && CommentsJoined(cm, t.entries)
  {
    assert KeysListed(t.order, t.entries);
    GroupPlacement(t.order, t.entries);
    GroupSound(t.order, t.entries);
    GroupComments(t.order, t.entries);
    var g := Groups(t.order, t.entries);
    var cm := Comments(t.order, t.entries);
    assert Placed(g, t.entries) by {
      forall k | k in t.entries
        ensures var (f, n) := BucketOf(k);
          f in g && n in g[f].buckets && k in g[f].buckets[n] && g[f].buckets[n][k] == Values(t.entries[k])
      {
        assert k in t.order;
        assert InBucket(g, k, Values(t.entries[k]));
      }
    }
    assert CommentsJoined(cm, t.entries) by {
      forall k | k in t.entries && AllComments(t.entries[k]) != [] ensures k in cm {
        assert k in t.order;
      }
    }
  }

  /** The bucket of a key whose first two segments are known. */
  lemma BucketAt(key: string, i: nat, j: nat)
    requires i < j <= |key| && key[i] == '.' && '.' !in key[..i] && '.' !in key[i + 1..j]
    requires j == |key| || key[j] == '.'
    ensures BucketOf(key) == (key[..i], key[i + 1..j])
  {
    IndexOfAt(key, '.', i);
    var rest := key[i + 1..];
    assert rest[..j - i - 1] == key[i + 1..j];
    if j < |key| {
      IndexOfAt(rest, '.', j - i - 1);
      assert Split(rest, '.')[0] == key[i + 1..j];
    } else {
      assert rest == key[i + 1..j];
      assert Split(rest, '.') == [rest];
    }
    assert Split(key, '.') == [key[..i]] + Split(rest, '.');
  }

  /** Second-level buckets come out in creation order, which for sorted keys is not the
      order of their names: `-` sorts before `.`, so `a.b-c.x` comes before `a.b.x` and
      bucket `b-c` is created before `b`, although `b` sorts first. */
  lemma CreationOrderExample(k1: string, k2: string)
    requires k1 == "a.b-c.x" && k2 == "a.b.x"
    ensures Less(k1, k2) && Less("b", "b-c")
    ensures SecondLevels([k1, k2], "a") == ["b-c", "b"]
  {
    KeyOrderExample(k1, k2);
    FirstBucketExample(k1);
    SecondBucketExample(k2);
    SecondLevelsPair(k1, k2, "a");
  }

  lemma FirstBucketExample(k1: string)
    requires k1 == "a.b-c.x"
    ensures BucketOf(k1) == ("a", "b-c")
  {
    assert k1[..1] == "a" && k1[2..5] == [k1[2], k1[3], k1[4]] == "b-c";
    BucketAt(k1, 1, 5);
  }

  lemma SecondBucketExample(k2: string)
    requires k2 == "a.b.x"
    ensures BucketOf(k2) == ("a", "b")
  {
    assert k2[..1] == "a" && k2[2..3] == "b";
    BucketAt(k2, 1, 3);
  }

  /** Two keys of group `f` with different second names create their buckets in order. */
  lemma SecondLevelsPair(k1: string, k2: string, f: string)
    requires BucketOf(k1).0 == f && BucketOf(k2).0 == f && BucketOf(k1).1 != BucketOf(k2).1
    ensures SecondLevels([k1, k2], f) == [BucketOf(k1).1, BucketOf(k2).1]
  {
    SecondLevelsSnoc([], k1, f);
    SecondLevelsSnoc([k1], k2, f);
    assert [] + [k1] == [k1] && [k1] + [k2] == [k1, k2];
  }

  lemma KeyOrderExample(k1: string, k2: string)
    requires k1 == "a.b-c.x" && k2 == "a.b.x"
    ensures Less(k1, k2) && Less("b", "b-c")
  {
    assert Less(k1[3..], k2[3..]) by { assert k1[3] == '-' && k2[3] == '.'; }
    assert k1[2..][1..] == k1[3..] && k2[2..][1..] == k2[3..];
    assert Less(k1[2..], k2[2..]);
    assert k1[1..][1..] == k1[2..] && k2[1..][1..] == k2[2..];
    assert Less(k1[1..], k2[1..]);
  }

  lemma SecondLevelsSnoc(order: seq<string>, key: string, f: string)
    ensures var prev := SecondLevels(order, f);
      SecondLevels(order + [key], f) ==
        if BucketOf(key).0 == f && BucketOf(key).1 !in prev then prev + [BucketOf(key).1] else prev
  {
    assert (order + [key])[..|order|] == order;
  }
}
