/**
  `format_grouped_properties` (props_check.py:416-457): the grouped table written out as
  lines joined by newlines, groups and keys in ascending order, every value on its own
  `key=value` line preceded by the key's comments, keys with several values flagged, and
  a trailing report of the flagged keys.
 */
module Formatter {
  import opened Wrappers
  import opened Text
  import opened PropertyTable
  import opened Grouping

  const DuplicateMark := "### DUPLICATE KEY ###"
  const ReportHeader := "\n\n### Duplicate keys ###"
  const Footer := "\n#####\n"

  /** A comment line as written back: indented by two spaces unless it starts with `#` or `!`
      (props_check.py:434-436). */
  function CommentLine(c: string): string
  {
    if StartsWith(c, '#') || StartsWith(c, '!') then c else "  " + c
  }

  /** `f"{key} = {value}"` or `f"{key}={value}"` (props_check.py:439-442). */
  function KeyLine(key: string, value: string, addSpaces: bool): string
  {
    if addSpaces then key + " = " + value else key + "=" + value
  }

  /** The comment lines of a key, as written back, in order. */
  function CommentLines(cs: seq<string>): (ls: seq<string>)
    ensures |ls| == |cs|
    ensures forall i :: 0 <= i < |cs| ==> ls[i] == CommentLine(cs[i])
  {
    if cs == [] then [] else CommentLines(cs[..|cs| - 1]) + [CommentLine(cs[|cs| - 1])]
  }

  /** `grouped_comments.get(key, [])` when a non-empty comments map is given, else nothing
      (props_check.py:432-433). */
  function CommentsFor(cm: Option<map<string, seq<string>>>, key: string): seq<string>
  {
    if cm.Some? && cm.value != map[] && key in cm.value then cm.value[key] else []
  }

  /** The lines written so far and the keys flagged as duplicates so far. */
  datatype Out = Out(lines: seq<string>, dups: seq<string>)

  function Cat(a: Out, b: Out): Out
  {
    Out(a.lines + b.lines, a.dups + b.dups)
  }

  /** Lines 431-442 for the values of one key: the comments, then the key line, per value. */
  function ValueLines(key: string, values: seq<string>, cs: seq<string>, addSpaces: bool): seq<string>
  {
    if values == [] then []
    else ValueLines(key, values[..|values| - 1], cs, addSpaces) + CommentLines(cs)
           + [KeyLine(key, values[|values| - 1], addSpaces)]
  }

  /** Every name listed in `s` is a key of `m`. */
  predicate Within<V>(s: seq<string>, m: map<string, V>)
  {
    forall i :: 0 <= i < |s| ==> s[i] in m
  }

  /** Lines 428-442 for one key: the duplicate mark when it has several values, then its
      value lines; the key is flagged exactly then. */
  function KeyOut(key: string, values: seq<string>, cs: seq<string>, addSpaces: bool): Out
  {
    var dup := |values| > 1;
    Out((if dup then [DuplicateMark] else []) + ValueLines(key, values, cs, addSpaces),
        if dup then [key] else [])
  }

  /** Lines 427-442 over the keys of a bucket, in the order given. */
  function KeysOut(keys: seq<string>, props: map<string, seq<string>>, cm: Option<map<string, seq<string>>>,
                   addSpaces: bool): Out
    requires Within(keys, props)
  {
    if keys == [] then Out([], [])
    else
      var key := keys[|keys| - 1];
      Cat(KeysOut(keys[..|keys| - 1], props, cm, addSpaces), KeyOut(key, props[key], CommentsFor(cm, key), addSpaces))
  }

  /** Lines 425-442 for one bucket: its `## f.n` header when it holds more than one key,
      then its keys in ascending order. */
  function BucketOut(f: string, n: string, props: map<string, seq<string>>, cm: Option<map<string, seq<string>>>,
                     addSpaces: bool): Out
  {
    var keys := SortedSet(props.Keys);
    Cat(Out(if |props| > 1 then ["\n## " + f + "." + n] else [], []), KeysOut(keys, props, cm, addSpaces))
  }

  /** Every name of the level has a bucket, as in the nested dict. */
  predicate Consistent(level: Level)
  {
    Within(level.names, level.buckets)
  }

  /** Lines 425-442 over the buckets of one group, in creation order. */
  function NamesOut(f: string, names: seq<string>, level: Level, cm: Option<map<string, seq<string>>>,
                    addSpaces: bool): Out
    requires Within(names, level.buckets)
  {
    if names == [] then Out([], [])
    else
      var n := names[|names| - 1];
      Cat(NamesOut(f, names[..|names| - 1], level, cm, addSpaces), BucketOut(f, n, level.buckets[n], cm, addSpaces))
  }

  /** Lines 423-442 for one group: its `# f` header, then its buckets. */
  function GroupOut(f: string, level: Level, cm: Option<map<string, seq<string>>>, addSpaces: bool): Out
    requires Consistent(level)
  {
    Cat(Out(["\n# " + f], []), NamesOut(f, level.names, level, cm, addSpaces))
  }

  /** Every group of `g` is consistent. */
  predicate AllConsistent(g: Grouped)
  {
    forall f :: f in g ==> Consistent(g[f])
  }

  /** Lines 423-442 over the groups named in `firsts`. */
  function FirstsOut(firsts: seq<string>, g: Grouped, cm: Option<map<string, seq<string>>>, addSpaces: bool): Out
    requires AllConsistent(g)
    requires Within(firsts, g)
  {
    if firsts == [] then Out([], [])
    else
      var f := firsts[|firsts| - 1];
      Cat(FirstsOut(firsts[..|firsts| - 1], g, cm, addSpaces), GroupOut(f, g[f], cm, addSpaces))
  }

  /** The groups in ascending order of their names (props_check.py:423). */
  function BodyOut(g: Grouped, cm: Option<map<string, seq<string>>>, addSpaces: bool): Out
    requires AllConsistent(g)
  {
    FirstsOut(SortedSet(g.Keys), g, cm, addSpaces)
  }

  /** The source header, written when a non-empty source name is given (props_check.py:420-421). */
  function Header(source: Option<string>): seq<string>
  {
    if source.Some? && source.value != "" then ["##### Source file: " + source.value + " #####"] else []
  }

  /** `'## ' + dk` for each flagged key, in order (props_check.py:451-453). */
  function DupLines(dups: seq<string>): (ls: seq<string>)
    ensures |ls| == |dups|
    ensures forall i :: 0 <= i < |dups| ==> ls[i] == "## " + dups[i]
  {
    if dups == [] then [] else DupLines(dups[..|dups| - 1]) + ["## " + dups[|dups| - 1]]
  }

  /** The report of flagged keys, present only when there are some (props_check.py:447-453). */
  function Report(dups: seq<string>): seq<string>
  {
    if dups == [] then [] else [ReportHeader] + DupLines(dups)
  }

  /** All lines of the output (props_check.py:417-455). */
  function FormatLines(g: Grouped, source: Option<string>, cm: Option<map<string, seq<string>>>, addSpaces: bool)
    : seq<string>
    requires AllConsistent(g)
  {
    var body := BodyOut(g, cm, addSpaces);
    Header(source) + body.lines + Report(body.dups) + [Footer]
  }

  /** The returned text (props_check.py:457). */
  function Format(g: Grouped, source: Option<string>, cm: Option<map<string, seq<string>>>, addSpaces: bool)
    : string
    requires AllConsistent(g)
  {
    Join(FormatLines(g, source, cm, addSpaces), "\n") + "\n\n"
  }

  lemma LinesAssoc(a: seq<string>, b: seq<string>, c: seq<string>)
    ensures (a + b) + c == a + (b + c)
  {
  }

  lemma LinesAssoc4(a: seq<string>, b: seq<string>, c: seq<string>, d: seq<string>)
    ensures ((a + b) + c) + d == a + ((b + c) + d)
  {
  }

  lemma CatEmpty(a: Out)
    ensures Cat(a, Out([], [])) == a && Cat(Out([], []), a) == a
  {
    assert a.lines + [] == a.lines && a.dups + [] == a.dups;
    assert [] + a.lines == a.lines && [] + a.dups == a.dups;
  }

  lemma CatAssoc(a: Out, b: Out, c: Out)
    ensures Cat(Cat(a, b), c) == Cat(a, Cat(b, c))
  {
    LinesAssoc(a.lines, b.lines, c.lines);
    LinesAssoc(a.dups, b.dups, c.dups);
  }

  lemma ValueLinesSnoc(key: string, values: seq<string>, i: nat, cs: seq<string>, addSpaces: bool)
    requires i < |values|
    ensures ValueLines(key, values[..i + 1], cs, addSpaces) ==
              ValueLines(key, values[..i], cs, addSpaces) + CommentLines(cs) + [KeyLine(key, values[i], addSpaces)]
  {
    assert values[..i + 1][..i] == values[..i];
  }

  lemma KeysOutSnoc(keys: seq<string>, i: nat, props: map<string, seq<string>>,
                    cm: Option<map<string, seq<string>>>, addSpaces: bool)
    requires i < |keys| && Within(keys, props)
    ensures Within(keys[..i], props)
    ensures Within(keys[..i + 1], props)
    ensures KeysOut(keys[..i + 1], props, cm, addSpaces) ==
              Cat(KeysOut(keys[..i], props, cm, addSpaces), KeyOut(keys[i], props[keys[i]], CommentsFor(cm, keys[i]), addSpaces))
  {
    assert keys[..i + 1][..i] == keys[..i];
  }

  lemma NamesOutSnoc(f: string, names: seq<string>, i: nat, level: Level,
                     cm: Option<map<string, seq<string>>>, addSpaces: bool)
    requires i < |names| && Within(names, level.buckets)
    ensures Within(names[..i], level.buckets)
    ensures Within(names[..i + 1], level.buckets)
    ensures NamesOut(f, names[..i + 1], level, cm, addSpaces) ==
              Cat(NamesOut(f, names[..i], level, cm, addSpaces), BucketOut(f, names[i], level.buckets[names[i]], cm, addSpaces))
  {
    assert names[..i + 1][..i] == names[..i];
  }

  lemma FirstsOutSnoc(firsts: seq<string>, i: nat, g: Grouped, cm: Option<map<string, seq<string>>>, addSpaces: bool)
    requires AllConsistent(g)
    requires i < |firsts| && Within(firsts, g)
    ensures Within(firsts[..i], g)
    ensures Within(firsts[..i + 1], g)
    ensures FirstsOut(firsts[..i + 1], g, cm, addSpaces) ==
              Cat(FirstsOut(firsts[..i], g, cm, addSpaces), GroupOut(firsts[i], g[firsts[i]], cm, addSpaces))
  {
    assert firsts[..i + 1][..i] == firsts[..i];
  }

  lemma DupLinesSnoc(dups: seq<string>, j: nat)
    requires j < |dups|
    ensures DupLines(dups[..j + 1]) == DupLines(dups[..j]) + ["## " + dups[j]]
  {
    assert dups[..j + 1][..j] == dups[..j];
  }

  // ---------------------------------------------------------------------------
  // The nested loops of format_grouped_properties

  /** Lines 433-437: the loop over a key's comments. */
  method EmitComments(lines: seq<string>, comments: seq<string>) returns (lines': seq<string>)
    ensures lines' == lines + CommentLines(comments)
  {
    lines' := lines;
    var j := 0;
    while j < |comments|
      invariant 0 <= j <= |comments|
      invariant lines' == lines + CommentLines(comments[..j])
    {
      var comment := comments[j];
      if !StartsWith(comment, '#') && !StartsWith(comment, '!') {
        comment := "  " + comment;
      }
      lines' := lines' + [comment];
      assert comments[..j + 1][..j] == comments[..j];
      LinesAssoc(lines, CommentLines(comments[..j]), [comment]);
      j := j + 1;
    }
    assert comments[..j] == comments;
  }

  /** Lines 432-442 for one value: the key's comments, then its `key=value` line. */
  method EmitValue(lines: seq<string>, key: string, value: string, cm: Option<map<string, seq<string>>>,
                   addSpaces: bool)
    returns (lines': seq<string>)
    ensures lines' == lines + CommentLines(CommentsFor(cm, key)) + [KeyLine(key, value, addSpaces)]
  {
    lines' := lines;
    if cm.Some? && cm.value != map[] {
      lines' := EmitComments(lines', if key in cm.value then cm.value[key] else []);
    } else {
      assert lines' == lines + [];
    }
    if addSpaces {
      lines' := lines' + [key + " = " + value];
    } else {
      lines' := lines' + [key + "=" + value];
    }
  }

  /** Lines 431-442: the loop over a key's values. */
  method EmitValues(lines: seq<string>, key: string, values: seq<string>, cm: Option<map<string, seq<string>>>,
                    addSpaces: bool)
    returns (lines': seq<string>)
    ensures lines' == lines + ValueLines(key, values, CommentsFor(cm, key), addSpaces)
  {
    lines' := lines;
    var i := 0;
    assert lines' == lines + ValueLines(key, values[..i], CommentsFor(cm, key), addSpaces);
    while i < |values|
      invariant 0 <= i <= |values|
      invariant lines' == lines + ValueLines(key, values[..i], CommentsFor(cm, key), addSpaces)
    {
      lines' := EmitValue(lines', key, values[i], cm, addSpaces);
      ValueLinesSnoc(key, values, i, CommentsFor(cm, key), addSpaces);
      LinesAssoc4(lines, ValueLines(key, values[..i], CommentsFor(cm, key), addSpaces),
                  CommentLines(CommentsFor(cm, key)), [KeyLine(key, values[i], addSpaces)]);
      i := i + 1;
    }
    assert values[..i] == values;
  }

  /** Lines 428-442: the duplicate check for one key, then its values. */
  method EmitKey(lines: seq<string>, dups: seq<string>, key: string, values: seq<string>,
                 cm: Option<map<string, seq<string>>>, addSpaces: bool)
    returns (lines': seq<string>, dups': seq<string>)
    ensures Out(lines', dups') == Cat(Out(lines, dups), KeyOut(key, values, CommentsFor(cm, key), addSpaces))
  {
    ghost var out := KeyOut(key, values, CommentsFor(cm, key), addSpaces);
    lines', dups' := lines, dups;
    if |values| > 1 {
      lines' := lines' + [DuplicateMark];
      dups' := dups' + [key];
    }
    ghost var marked := lines';
    assert marked == lines + (if |values| > 1 then [DuplicateMark] else []);
    assert dups' == dups + out.dups;
    lines' := EmitValues(lines', key, values, cm, addSpaces);
    LinesAssoc(lines, if |values| > 1 then [DuplicateMark] else [], ValueLines(key, values, CommentsFor(cm, key), addSpaces));
  }

  /** One turn of the loop over a bucket's sorted keys: key `keys[i]` is written. */
  method EmitNextKey(lines: seq<string>, dups: seq<string>, ghost start: Out, keys: seq<string>, i: nat,
                     props: map<string, seq<string>>, cm: Option<map<string, seq<string>>>, addSpaces: bool)
    returns (lines': seq<string>, dups': seq<string>)
    requires i < |keys| && Within(keys, props)
    requires Within(keys[..i], props)
    requires Out(lines, dups) == Cat(start, KeysOut(keys[..i], props, cm, addSpaces))
    ensures Within(keys[..i + 1], props)
    ensures Out(lines', dups') == Cat(start, KeysOut(keys[..i + 1], props, cm, addSpaces))
  {
    var key := keys[i];
    lines', dups' := EmitKey(lines, dups, key, props[key], cm, addSpaces);
    KeysOutSnoc(keys, i, props, cm, addSpaces);
    CatAssoc(start, KeysOut(keys[..i], props, cm, addSpaces), KeyOut(key, props[key], CommentsFor(cm, key), addSpaces));
  }

  /** Lines 427-442: the loop over the sorted keys of a bucket. */
  method EmitKeys(lines: seq<string>, dups: seq<string>, keys: seq<string>, props: map<string, seq<string>>,
                  cm: Option<map<string, seq<string>>>, addSpaces: bool)
    returns (lines': seq<string>, dups': seq<string>)
    requires Within(keys, props)
    ensures Out(lines', dups') == Cat(Out(lines, dups), KeysOut(keys, props, cm, addSpaces))
  {
    lines', dups' := lines, dups;
    ghost var start := Out(lines, dups);
    var i := 0;
    assert Out(lines', dups') == Cat(start, KeysOut(keys[..i], props, cm, addSpaces)) by {
      assert lines + [] == lines && dups + [] == dups;
    }
    while i < |keys|
      invariant 0 <= i <= |keys|
      invariant Within(keys[..i], props)
      invariant Out(lines', dups') == Cat(start, KeysOut(keys[..i], props, cm, addSpaces))
    {
      lines', dups' := EmitNextKey(lines', dups', start, keys, i, props, cm, addSpaces);
      i := i + 1;
    }
    assert keys[..i] == keys;
  }

  /** The sorted keys of a bucket are keys of it. */
  lemma SortedKeysWithin(props: map<string, seq<string>>)
    ensures Within(SortedSet(props.Keys), props)
  {
  }

  /** Lines 425-442 for one bucket: its header when it holds several keys, then its keys. */
  method EmitBucket(lines: seq<string>, dups: seq<string>, f: string, n: string, props: map<string, seq<string>>,
                    cm: Option<map<string, seq<string>>>, addSpaces: bool)
    returns (lines': seq<string>, dups': seq<string>)
    ensures Out(lines', dups') == Cat(Out(lines, dups), BucketOut(f, n, props, cm, addSpaces))
  {
    lines', dups' := lines, dups;
    if |props| > 1 {
      lines' := lines' + ["\n## " + f + "." + n];
    }
    ghost var header := Out(if |props| > 1 then ["\n## " + f + "." + n] else [], []);
    assert Out(lines', dups') == Cat(Out(lines, dups), header) by {
      assert dups + [] == dups;
      if |props| <= 1 { assert lines + [] == lines; }
    }
    var keys := SortedSet(props.Keys);
    SortedKeysWithin(props);
    lines', dups' := EmitKeys(lines', dups', keys, props, cm, addSpaces);
    CatAssoc(Out(lines, dups), header, KeysOut(keys, props, cm, addSpaces));
  }

  /** One turn of the loop over a group's buckets: bucket `names[i]` is written. */
  method EmitNextBucket(lines: seq<string>, dups: seq<string>, ghost start: Out, f: string, names: seq<string>,
                        i: nat, level: Level, cm: Option<map<string, seq<string>>>, addSpaces: bool)
    returns (lines': seq<string>, dups': seq<string>)
    requires i < |names| && Within(names, level.buckets)
    requires Within(names[..i], level.buckets)
    requires Out(lines, dups) == Cat(start, NamesOut(f, names[..i], level, cm, addSpaces))
    ensures Within(names[..i + 1], level.buckets)
    ensures Out(lines', dups') == Cat(start, NamesOut(f, names[..i + 1], level, cm, addSpaces))
  {
    var n := names[i];
    lines', dups' := EmitBucket(lines, dups, f, n, level.buckets[n], cm, addSpaces);
    NamesOutSnoc(f, names, i, level, cm, addSpaces);
    CatAssoc(start, NamesOut(f, names[..i], level, cm, addSpaces), BucketOut(f, n, level.buckets[n], cm, addSpaces));
  }

  /** Lines 424-442 for one group: its header, then the loop over its buckets. */
  method EmitGroup(lines: seq<string>, dups: seq<string>, f: string, level: Level,
                   cm: Option<map<string, seq<string>>>, addSpaces: bool)
    returns (lines': seq<string>, dups': seq<string>)
    requires Consistent(level)
    ensures Out(lines', dups') == Cat(Out(lines, dups), GroupOut(f, level, cm, addSpaces))
  {
    lines', dups' := lines + ["\n# " + f], dups;
    ghost var start := Out(lines', dups');
    assert start == Cat(Out(lines, dups), Out(["\n# " + f], [])) by { assert dups + [] == dups; }
    var i := 0;
    while i < |level.names|
      invariant 0 <= i <= |level.names|
      invariant Within(level.names[..i], level.buckets)
      invariant Out(lines', dups') == Cat(start, NamesOut(f, level.names[..i], level, cm, addSpaces))
    {
      lines', dups' := EmitNextBucket(lines', dups', start, f, level.names, i, level, cm, addSpaces);
      i := i + 1;
    }
    assert level.names[..i] == level.names;
    CatAssoc(Out(lines, dups), Out(["\n# " + f], []), NamesOut(f, level.names, level, cm, addSpaces));
  }

  /** One turn of the loop over the first-level names: group `firsts[i]` is written. */
  method EmitNextGroup(lines: seq<string>, dups: seq<string>, ghost start: Out, firsts: seq<string>, i: nat,
                       g: Grouped, cm: Option<map<string, seq<string>>>, addSpaces: bool)
    returns (lines': seq<string>, dups': seq<string>)
    requires AllConsistent(g)
    requires i < |firsts| && Within(firsts, g)
    requires Within(firsts[..i], g)
    requires Out(lines, dups) == Cat(start, FirstsOut(firsts[..i], g, cm, addSpaces))
    ensures Within(firsts[..i + 1], g)
    ensures Out(lines', dups') == Cat(start, FirstsOut(firsts[..i + 1], g, cm, addSpaces))
  {
    var f := firsts[i];
    lines', dups' := EmitGroup(lines, dups, f, g[f], cm, addSpaces);
    FirstsOutSnoc(firsts, i, g, cm, addSpaces);
    CatAssoc(start, FirstsOut(firsts[..i], g, cm, addSpaces), GroupOut(f, g[f], cm, addSpaces));
  }

  /** The loop over the sorted first-level names (props_check.py:423-445). */
  method EmitBody(lines: seq<string>, dups: seq<string>, g: Grouped, cm: Option<map<string, seq<string>>>,
                  addSpaces: bool)
    returns (lines': seq<string>, dups': seq<string>)
    requires AllConsistent(g)
    ensures Out(lines', dups') == Cat(Out(lines, dups), BodyOut(g, cm, addSpaces))
  {
    lines', dups' := lines, dups;
    ghost var start := Out(lines, dups);
    var firsts := SortedSet(g.Keys);
    assert Within(firsts, g);
    var i := 0;
    assert Out(lines', dups') == Cat(start, FirstsOut(firsts[..i], g, cm, addSpaces)) by {
      assert lines + [] == lines && dups + [] == dups;
    }
    while i < |firsts|
      invariant 0 <= i <= |firsts|
      invariant Within(firsts[..i], g)
      invariant Out(lines', dups') == Cat(start, FirstsOut(firsts[..i], g, cm, addSpaces))
    {
      lines', dups' := EmitNextGroup(lines', dups', start, firsts, i, g, cm, addSpaces);
      i := i + 1;
    }
    assert firsts[..i] == firsts;
  }

  /** The report of flagged keys (props_check.py:447-453). */
  method EmitReport(lines: seq<string>, dups: seq<string>) returns (lines': seq<string>)
    ensures lines' == lines + Report(dups)
  {
    lines' := lines;
    if dups != [] {
      lines' := lines' + [ReportHeader];
      var j := 0;
      while j < |dups|
        invariant 0 <= j <= |dups|
        invariant lines' == lines + [ReportHeader] + DupLines(dups[..j])
      {
        lines' := lines' + ["## " + dups[j]];
        DupLinesSnoc(dups, j);
        LinesAssoc(lines + [ReportHeader], DupLines(dups[..j]), ["## " + dups[j]]);
        j := j + 1;
      }
      assert dups[..j] == dups;
      LinesAssoc(lines, [ReportHeader], DupLines(dups));
    } else {
      assert lines + [] == lines;
    }
  }

  /** `format_grouped_properties` (props_check.py:416-457). */
  method FormatGrouped(g: Grouped, source: Option<string>, cm: Option<map<string, seq<string>>>, addSpaces: bool)
    returns (text: string)
    requires AllConsistent(g)
    ensures text == Format(g, source, cm, addSpaces)
  {
    var lines: seq<string> := [];
    if source.Some? && source.value != "" {
      lines := lines + ["##### Source file: " + source.value + " #####"];
    }
    assert lines == Header(source);
    var dups: seq<string>;
    lines, dups := EmitBody(lines, [], g, cm, addSpaces);
    ghost var b := BodyOut(g, cm, addSpaces);
    assert lines == Header(source) + b.lines && dups == b.dups by {
      assert [] + b.dups == b.dups;
    }
    lines := EmitReport(lines, dups);
    lines := lines + [Footer];
    text := Join(lines, "\n") + "\n\n";
  }

  // ---------------------------------------------------------------------------
  // What the output holds

  /** `i * m + m <= n * m` when `i < n`: the blocks of `m` lines before block `i + 1`
      fit in `n` blocks. */
  lemma {:induction false} BlockBound(i: nat, n: nat, m: nat)
    requires i < n
    ensures i * m + m <= n * m
    decreases n
  {
    if i < n - 1 {
      BlockBound(i, n - 1, m);
    }
    assert n * m == (n - 1) * m + m;
  }

  /** Each value takes one block: the key's comment lines, then its `key=value` line. */
  lemma {:induction false} ValueLinesLength(key: string, values: seq<string>, cs: seq<string>, addSpaces: bool)
    ensures |ValueLines(key, values, cs, addSpaces)| == |values| * (|cs| + 1)
    decreases |values|
  {
    if values != [] {
      var n := |values|;
      ValueLinesLength(key, values[..n - 1], cs, addSpaces);
      assert n * (|cs| + 1) == (n - 1) * (|cs| + 1) + |cs| + 1;
    }
  }

  /** Line `j` of block `i` is comment `j` of the key, and the block's last line is the
      `i`-th value's `key=value` line: every value is written, in order, after every comment. */
  lemma {:induction false} ValueLinesAt(key: string, values: seq<string>, cs: seq<string>, addSpaces: bool,
                                        i: nat, j: nat)
    requires i < |values| && j <= |cs|
    ensures i * (|cs| + 1) + j < |ValueLines(key, values, cs, addSpaces)|
    ensures ValueLines(key, values, cs, addSpaces)[i * (|cs| + 1) + j] ==
              if j < |cs| then CommentLine(cs[j]) else KeyLine(key, values[i], addSpaces)
    decreases |values|
  {
    var n := |values|;
    var m := |cs| + 1;
    var front := values[..n - 1];
    var block := CommentLines(cs) + [KeyLine(key, values[n - 1], addSpaces)];
    ValueLinesLength(key, front, cs, addSpaces);
    BlockBound(i, n, m);
    assert ValueLines(key, values, cs, addSpaces) == ValueLines(key, front, cs, addSpaces) + block;
    if i < n - 1 {
      BlockBound(i, n - 1, m);
      ValueLinesAt(key, front, cs, addSpaces, i, j);
      assert front[i] == values[i];
      MulNonnegative(i, m);
      IndexLeft(ValueLines(key, front, cs, addSpaces), block, i * m + j);
    } else {
      assert i * m == (n - 1) * m;
      IndexRight(ValueLines(key, front, cs, addSpaces), block, j);
    }
  }

  lemma IndexLeft(a: seq<string>, b: seq<string>, x: int)
    requires 0 <= x < |a|
    ensures (a + b)[x] == a[x]
  {
  }

  lemma MulNonnegative(i: nat, m: nat)
    ensures 0 <= i * m
  {
  }

  lemma IndexRight(a: seq<string>, b: seq<string>, x: nat)
    requires x < |b|
    ensures (a + b)[|a| + x] == b[x]
  {
  }

  /** Every value of a key is written on a `key=value` line. */
  lemma ValueWritten(key: string, values: seq<string>, cs: seq<string>, addSpaces: bool, v: string)
    requires v in values
    ensures KeyLine(key, v, addSpaces) in ValueLines(key, values, cs, addSpaces)
  {
    var i :| 0 <= i < |values| && values[i] == v;
    ValueLinesAt(key, values, cs, addSpaces, i, |cs|);
  }

  /** A key is flagged exactly when it has several values, and then its lines start with
      the duplicate mark; either way one block of lines per value follows. */
  lemma KeyOutShape(key: string, values: seq<string>, cs: seq<string>, addSpaces: bool)
    ensures var o := KeyOut(key, values, cs, addSpaces);
      && (o.dups == [key] <==> |values| > 1)
      && (o.dups == [] <==> |values| <= 1)
      && (|values| > 1 ==> |o.lines| > 0 && o.lines[0] == DuplicateMark)
      && |o.lines| == (if |values| > 1 then 1 else 0) + |values| * (|cs| + 1)
  {
    ValueLinesLength(key, values, cs, addSpaces);
  }

  /** A key of `props` occurring more than once in the file. */
  predicate Flagged(props: map<string, seq<string>>, x: string)
  {
    x in props && |props[x]| > 1
  }

  /** Over a run of keys, exactly the listed keys with several values are flagged. */
  lemma {:induction false} KeysOutDups(keys: seq<string>, props: map<string, seq<string>>,
                                       cm: Option<map<string, seq<string>>>, addSpaces: bool, x: string)
    requires Within(keys, props)
    ensures x in KeysOut(keys, props, cm, addSpaces).dups <==> x in keys && Flagged(props, x)
    decreases |keys|
  {
    if keys != [] {
      var front := keys[..|keys| - 1];
      assert Within(front, props);
      KeysOutDups(front, props, cm, addSpaces, x);
      assert keys == front + [keys[|keys| - 1]];
    }
  }

  /** A bucket flags exactly its keys with several values. */
  lemma BucketOutDups(f: string, n: string, props: map<string, seq<string>>,
                      cm: Option<map<string, seq<string>>>, addSpaces: bool, x: string)
    ensures x in BucketOut(f, n, props, cm, addSpaces).dups <==> Flagged(props, x)
  {
    SortedKeysWithin(props);
    KeysOutDups(SortedSet(props.Keys), props, cm, addSpaces, x);
  }

  /** Some bucket named in `names` flags `x`. */
  predicate InSomeBucket(names: seq<string>, buckets: map<string, map<string, seq<string>>>, x: string)
  {
    exists i :: 0 <= i < |names| && names[i] in buckets && Flagged(buckets[names[i]], x)
  }

  /** A run of buckets flags `x` when its front does or its last bucket does. */
  lemma InSomeBucketSnoc(names: seq<string>, buckets: map<string, map<string, seq<string>>>, x: string)
    requires names != []
    ensures var k := |names| - 1;
      InSomeBucket(names, buckets, x) <==>
        InSomeBucket(names[..k], buckets, x) || (names[k] in buckets && Flagged(buckets[names[k]], x))
  {
    var k := |names| - 1;
    var front := names[..k];
    if InSomeBucket(names, buckets, x) {
      var i :| 0 <= i < |names| && names[i] in buckets && Flagged(buckets[names[i]], x);
      if i < k { assert front[i] == names[i]; }
    }
    if InSomeBucket(front, buckets, x) {
      var i :| 0 <= i < |front| && front[i] in buckets && Flagged(buckets[front[i]], x);
      assert names[i] == front[i];
    }
  }

  /** Over a run of buckets, exactly the keys flagged in one of them are flagged. */
  lemma {:induction false} NamesOutDups(f: string, names: seq<string>, level: Level,
                                        cm: Option<map<string, seq<string>>>, addSpaces: bool, x: string)
    requires Within(names, level.buckets)
    ensures x in NamesOut(f, names, level, cm, addSpaces).dups <==> InSomeBucket(names, level.buckets, x)
    decreases |names|
  {
    if names != [] {
      var k := |names| - 1;
      var front := names[..k];
      var n := names[k];
      assert Within(front, level.buckets);
      assert NamesOut(f, names, level, cm, addSpaces).dups ==
               NamesOut(f, front, level, cm, addSpaces).dups + BucketOut(f, n, level.buckets[n], cm, addSpaces).dups;
      NamesOutDups(f, front, level, cm, addSpaces, x);
      BucketOutDups(f, n, level.buckets[n], cm, addSpaces, x);
      InSomeBucketSnoc(names, level.buckets, x);
    }
  }

  /** A group flags exactly the keys flagged in one of its buckets. */
  lemma GroupOutDups(f: string, level: Level, cm: Option<map<string, seq<string>>>, addSpaces: bool, x: string)
    requires Consistent(level)
    ensures x in GroupOut(f, level, cm, addSpaces).dups <==> InSomeBucket(level.names, level.buckets, x)
  {
    NamesOutDups(f, level.names, level, cm, addSpaces, x);
  }

  /** Some group of `g` named in `firsts` flags `x` in one of its buckets. */
  predicate InSomeGroup(firsts: seq<string>, g: Grouped, x: string)
  {
    exists i :: 0 <= i < |firsts| && firsts[i] in g && InSomeBucket(g[firsts[i]].names, g[firsts[i]].buckets, x)
  }

  /** A run of groups flags `x` when its front does or its last group does. */
  lemma InSomeGroupSnoc(firsts: seq<string>, g: Grouped, x: string)
    requires firsts != []
    ensures var k := |firsts| - 1;
      InSomeGroup(firsts, g, x) <==>
        InSomeGroup(firsts[..k], g, x) || (firsts[k] in g && InSomeBucket(g[firsts[k]].names, g[firsts[k]].buckets, x))
  {
    var k := |firsts| - 1;
    var front := firsts[..k];
    if InSomeGroup(firsts, g, x) {
      var i :| 0 <= i < |firsts| && firsts[i] in g && InSomeBucket(g[firsts[i]].names, g[firsts[i]].buckets, x);
      if i < k { assert front[i] == firsts[i]; }
    }
    if InSomeGroup(front, g, x) {
      var i :| 0 <= i < |front| && front[i] in g && InSomeBucket(g[front[i]].names, g[front[i]].buckets, x);
      assert firsts[i] == front[i];
    }
  }

  /** Over a run of groups, exactly the keys flagged in one of their buckets are flagged. */
  lemma {:induction false} FirstsOutDups(firsts: seq<string>, g: Grouped, cm: Option<map<string, seq<string>>>,
                                         addSpaces: bool, x: string)
    requires AllConsistent(g) && Within(firsts, g)
    ensures x in FirstsOut(firsts, g, cm, addSpaces).dups <==> InSomeGroup(firsts, g, x)
    decreases |firsts|
  {
    if firsts != [] {
      var k := |firsts| - 1;
      var front := firsts[..k];
      var f := firsts[k];
      assert Within(front, g);
      assert FirstsOut(firsts, g, cm, addSpaces).dups ==
               FirstsOut(front, g, cm, addSpaces).dups + GroupOut(f, g[f], cm, addSpaces).dups;
      FirstsOutDups(front, g, cm, addSpaces, x);
      GroupOutDups(f, g[f], cm, addSpaces, x);
      InSomeGroupSnoc(firsts, g, x);
    }
  }

  /** The report lists exactly the keys that occur more than once in some bucket. */
  lemma BodyDups(g: Grouped, cm: Option<map<string, seq<string>>>, addSpaces: bool, x: string)
    requires AllConsistent(g)
    ensures x in BodyOut(g, cm, addSpaces).dups <==>
              exists f :: f in g && InSomeBucket(g[f].names, g[f].buckets, x)
  {
    var firsts := SortedSet(g.Keys);
    assert Within(firsts, g);
    FirstsOutDups(firsts, g, cm, addSpaces, x);
    AllGroupsListed(firsts, g, x);
  }

  /** Over a listing of all the groups, some listed group flags `x` exactly when some group does. */
  lemma AllGroupsListed(firsts: seq<string>, g: Grouped, x: string)
    requires forall f :: f in firsts <==> f in g
    ensures InSomeGroup(firsts, g, x) <==> exists f :: f in g && InSomeBucket(g[f].names, g[f].buckets, x)
  {
    if exists f :: f in g && InSomeBucket(g[f].names, g[f].buckets, x) {
      var f :| f in g && InSomeBucket(g[f].names, g[f].buckets, x);
      var i :| 0 <= i < |firsts| && firsts[i] == f;
    }
  }

  /** Every key in bucket `n` of the level belongs there: its first two segments are `f`
      and `n`. */
  predicate BucketsOwned(f: string, level: Level)
  {
    forall n, k :: n in level.buckets && k in level.buckets[n] ==> BucketOf(k) == (f, n)
  }

  /** A key flagged in one of the listed buckets of an owned level belongs to that level
      and to one of the listed names. */
  lemma FlaggedOwned(f: string, names: seq<string>, level: Level, x: string)
    requires BucketsOwned(f, level) && InSomeBucket(names, level.buckets, x)
    ensures BucketOf(x).0 == f && BucketOf(x).1 in names
  {
    var i :| 0 <= i < |names| && names[i] in level.buckets && Flagged(level.buckets[names[i]], x);
  }

  lemma DistinctCat(a: seq<string>, b: seq<string>)
    requires Distinct(a) && Distinct(b)
    requires forall x :: x in a ==> x !in b
    ensures Distinct(a + b)
  {
    forall i, j | 0 <= i < j < |a + b| ensures (a + b)[i] != (a + b)[j] {
      if i < |a| && j >= |a| {
        assert (a + b)[i] in a && (a + b)[j] == b[j - |a|];
      }
    }
  }

  /** Over distinct keys, no key is flagged twice. */
  lemma {:induction false} KeysOutDupsDistinct(keys: seq<string>, props: map<string, seq<string>>,
                                               cm: Option<map<string, seq<string>>>, addSpaces: bool)
    requires Within(keys, props) && Distinct(keys)
    ensures Distinct(KeysOut(keys, props, cm, addSpaces).dups)
    decreases |keys|
  {
    if keys != [] {
      var k := |keys| - 1;
      var front := keys[..k];
      var key := keys[k];
      assert Within(front, props) && Distinct(front);
      KeysOutDupsDistinct(front, props, cm, addSpaces);
      KeysOutDups(front, props, cm, addSpaces, key);
      assert key !in front by {
        forall i | 0 <= i < |front| ensures front[i] != key { assert front[i] == keys[i]; }
      }
      DistinctCat(KeysOut(front, props, cm, addSpaces).dups, KeyOut(key, props[key], CommentsFor(cm, key), addSpaces).dups);
    }
  }

  /** A bucket flags each of its keys at most once. */
  lemma BucketOutDupsDistinct(f: string, n: string, props: map<string, seq<string>>,
                              cm: Option<map<string, seq<string>>>, addSpaces: bool)
    ensures Distinct(BucketOut(f, n, props, cm, addSpaces).dups)
  {
    var keys := SortedSet(props.Keys);
    SortedKeysWithin(props);
    SortedSetAscending(props.Keys);
    AscendingDistinct(keys);
    KeysOutDupsDistinct(keys, props, cm, addSpaces);
    assert BucketOut(f, n, props, cm, addSpaces).dups == [] + KeysOut(keys, props, cm, addSpaces).dups;
  }

  /** Over distinct bucket names of an owned level, no key is flagged twice: each key is
      in one bucket only. */
  lemma {:induction false} NamesOutDupsDistinct(f: string, names: seq<string>, level: Level,
                                                cm: Option<map<string, seq<string>>>, addSpaces: bool)
    requires Within(names, level.buckets) && Distinct(names) && BucketsOwned(f, level)
    ensures Distinct(NamesOut(f, names, level, cm, addSpaces).dups)
    decreases |names|
  {
    if names != [] {
      var k := |names| - 1;
      var front := names[..k];
      var n := names[k];
      assert Within(front, level.buckets) && Distinct(front);
      var a := NamesOut(f, front, level, cm, addSpaces).dups;
      var b := BucketOut(f, n, level.buckets[n], cm, addSpaces).dups;
      NamesOutDupsDistinct(f, front, level, cm, addSpaces);
      BucketOutDupsDistinct(f, n, level.buckets[n], cm, addSpaces);
      assert n !in front by {
        forall i | 0 <= i < |front| ensures front[i] != n { assert front[i] == names[i]; }
      }
      forall x | x in a ensures x !in b {
        BucketDisjoint(f, front, n, level, cm, addSpaces, x);
      }
      DistinctCat(a, b);
    }
  }

  /** A key flagged by the buckets of `front` is not flagged by another bucket `n`. */
  lemma BucketDisjoint(f: string, front: seq<string>, n: string, level: Level,
                       cm: Option<map<string, seq<string>>>, addSpaces: bool, x: string)
    requires Within(front, level.buckets) && n in level.buckets && n !in front && BucketsOwned(f, level)
    requires x in NamesOut(f, front, level, cm, addSpaces).dups
    ensures x !in BucketOut(f, n, level.buckets[n], cm, addSpaces).dups
  {
    NamesOutDups(f, front, level, cm, addSpaces, x);
    FlaggedOwned(f, front, level, x);
    assert BucketOf(x) != (f, n);
    assert x in level.buckets[n] ==> BucketOf(x) == (f, n);
    BucketOutDups(f, n, level.buckets[n], cm, addSpaces, x);
  }

  /** Every group of `g` owns its buckets and names each of them once. */
  predicate GroupsOwned(g: Grouped)
  {
    forall f :: f in g ==> BucketsOwned(f, g[f]) && Distinct(g[f].names)
  }

  /** Over distinct groups that own their buckets, no key is flagged twice. */
  lemma {:induction false} FirstsOutDupsDistinct(firsts: seq<string>, g: Grouped,
                                                 cm: Option<map<string, seq<string>>>, addSpaces: bool)
    requires AllConsistent(g) && GroupsOwned(g) && Within(firsts, g) && Distinct(firsts)
    ensures Distinct(FirstsOut(firsts, g, cm, addSpaces).dups)
    decreases |firsts|
  {
    if firsts != [] {
      var k := |firsts| - 1;
      var front := firsts[..k];
      var f := firsts[k];
      assert Within(front, g) && Distinct(front);
      var a := FirstsOut(front, g, cm, addSpaces).dups;
      var b := GroupOut(f, g[f], cm, addSpaces).dups;
      FirstsOutDupsDistinct(front, g, cm, addSpaces);
      NamesOutDupsDistinct(f, g[f].names, g[f], cm, addSpaces);
      assert b == [] + NamesOut(f, g[f].names, g[f], cm, addSpaces).dups;
      assert f !in front by {
        forall i | 0 <= i < |front| ensures front[i] != f {
          assert front[i] == firsts[i];
        }
      }
      forall x | x in a ensures x !in b {
        GroupDisjoint(front, f, g, cm, addSpaces, x);
      }
      DistinctCat(a, b);
    }
  }

  /** A key flagged by the groups of `front` is not flagged by another group `f`. */
  lemma GroupDisjoint(front: seq<string>, f: string, g: Grouped, cm: Option<map<string, seq<string>>>,
                      addSpaces: bool, x: string)
    requires AllConsistent(g) && GroupsOwned(g) && Within(front, g) && f in g && f !in front
    requires x in FirstsOut(front, g, cm, addSpaces).dups
    ensures x !in GroupOut(f, g[f], cm, addSpaces).dups
  {
    FirstsOutDups(front, g, cm, addSpaces, x);
    var i :| 0 <= i < |front| && front[i] in g && InSomeBucket(g[front[i]].names, g[front[i]].buckets, x);
    FlaggedOwned(front[i], g[front[i]].names, g[front[i]], x);
    assert BucketOf(x).0 != f;
    GroupOutDups(f, g[f], cm, addSpaces, x);
    OwnedOnly(f, g[f].names, g[f], x);
  }

  /** Only a key of the level's own group is flagged in its buckets. */
  lemma OwnedOnly(f: string, names: seq<string>, level: Level, x: string)
    requires BucketsOwned(f, level)
    ensures InSomeBucket(names, level.buckets, x) ==> BucketOf(x).0 == f
  {
    if InSomeBucket(names, level.buckets, x) {
      FlaggedOwned(f, names, level, x);
    }
  }

  /** The report names each flagged key once when every group owns its buckets. */
  lemma BodyDupsDistinct(g: Grouped, cm: Option<map<string, seq<string>>>, addSpaces: bool)
    requires AllConsistent(g) && GroupsOwned(g)
    ensures Distinct(BodyOut(g, cm, addSpaces).dups)
  {
    var firsts := SortedSet(g.Keys);
    assert Within(firsts, g);
    SortedSetAscending(g.Keys);
    AscendingDistinct(firsts);
    FirstsOutDupsDistinct(firsts, g, cm, addSpaces);
  }

  /** A line of either part is a line of the concatenation. */
  lemma InCat(a: Out, b: Out, x: string)
    requires x in a.lines || x in b.lines
    ensures x in Cat(a, b).lines
  {
  }

  /** A line of the front or of the last key of a run of keys is a line of the run. */
  lemma KeysOutLines(keys: seq<string>, props: map<string, seq<string>>, cm: Option<map<string, seq<string>>>,
                     addSpaces: bool, x: string)
    requires keys != [] && Within(keys, props)
    requires Within(keys[..|keys| - 1], props)
    requires x in KeysOut(keys[..|keys| - 1], props, cm, addSpaces).lines
             || x in KeyOut(keys[|keys| - 1], props[keys[|keys| - 1]], CommentsFor(cm, keys[|keys| - 1]), addSpaces).lines
    ensures x in KeysOut(keys, props, cm, addSpaces).lines
  {
  }

  /** Every value of every listed key is written. */
  lemma {:induction false} KeysOutHas(keys: seq<string>, props: map<string, seq<string>>,
                                      cm: Option<map<string, seq<string>>>, addSpaces: bool,
                                      i: nat, v: string)
    requires Within(keys, props) && i < |keys| && v in props[keys[i]]
    ensures KeyLine(keys[i], v, addSpaces) in KeysOut(keys, props, cm, addSpaces).lines
    decreases |keys|
  {
    var k := |keys| - 1;
    var front := keys[..k];
    assert Within(front, props);
    if i == k {
      KeysOutHasLast(keys, props, cm, addSpaces, v);
    } else {
      assert front[i] == keys[i];
      KeysOutHas(front, props, cm, addSpaces, i, v);
      KeysOutLines(keys, props, cm, addSpaces, KeyLine(keys[i], v, addSpaces));
    }
  }

  lemma KeysOutHasLast(keys: seq<string>, props: map<string, seq<string>>,
                       cm: Option<map<string, seq<string>>>, addSpaces: bool, v: string)
    requires Within(keys, props) && keys != [] && v in props[keys[|keys| - 1]]
    ensures KeyLine(keys[|keys| - 1], v, addSpaces) in KeysOut(keys, props, cm, addSpaces).lines
  {
    var key := keys[|keys| - 1];
    assert Within(keys[..|keys| - 1], props);
    ValueWritten(key, props[key], CommentsFor(cm, key), addSpaces, v);
    KeysOutLines(keys, props, cm, addSpaces, KeyLine(key, v, addSpaces));
  }

  /** Every value of every key of a bucket is written. */
  lemma BucketOutHas(f: string, n: string, props: map<string, seq<string>>,
                     cm: Option<map<string, seq<string>>>, addSpaces: bool, key: string, v: string)
    requires key in props && v in props[key]
    ensures KeyLine(key, v, addSpaces) in BucketOut(f, n, props, cm, addSpaces).lines
  {
    SortedKeysWithin(props);
    var keys := SortedSet(props.Keys);
    var i :| 0 <= i < |keys| && keys[i] == key;
    KeysOutHas(keys, props, cm, addSpaces, i, v);
    InCat(Out(if |props| > 1 then ["\n## " + f + "." + n] else [], []), KeysOut(keys, props, cm, addSpaces),
          KeyLine(key, v, addSpaces));
  }

  /** A line of the front or of the last bucket of a run of buckets is a line of the run. */
  lemma NamesOutLines(f: string, names: seq<string>, level: Level, cm: Option<map<string, seq<string>>>,
                      addSpaces: bool, x: string)
    requires names != [] && Within(names, level.buckets)
    requires Within(names[..|names| - 1], level.buckets)
    requires x in NamesOut(f, names[..|names| - 1], level, cm, addSpaces).lines
             || x in BucketOut(f, names[|names| - 1], level.buckets[names[|names| - 1]], cm, addSpaces).lines
    ensures x in NamesOut(f, names, level, cm, addSpaces).lines
  {
  }

  /** A line of the front or of the last group of a run of groups is a line of the run. */
  lemma FirstsOutLines(firsts: seq<string>, g: Grouped, cm: Option<map<string, seq<string>>>, addSpaces: bool,
                       x: string)
    requires AllConsistent(g) && firsts != [] && Within(firsts, g)
    requires Within(firsts[..|firsts| - 1], g)
    requires x in FirstsOut(firsts[..|firsts| - 1], g, cm, addSpaces).lines
             || x in GroupOut(firsts[|firsts| - 1], g[firsts[|firsts| - 1]], cm, addSpaces).lines
    ensures x in FirstsOut(firsts, g, cm, addSpaces).lines
  {
  }

  /** Every value in every listed bucket is written. */
  lemma {:induction false} NamesOutHas(f: string, names: seq<string>, level: Level,
                                       cm: Option<map<string, seq<string>>>, addSpaces: bool,
                                       i: nat, key: string, v: string)
    requires Within(names, level.buckets) && i < |names|
    requires key in level.buckets[names[i]] && v in level.buckets[names[i]][key]
    ensures KeyLine(key, v, addSpaces) in NamesOut(f, names, level, cm, addSpaces).lines
    decreases |names|
  {
    var k := |names| - 1;
    var front := names[..k];
    assert Within(front, level.buckets);
    if i == k {
      NamesOutHasLast(f, names, level, cm, addSpaces, key, v);
    } else {
      assert front[i] == names[i];
      NamesOutHas(f, front, level, cm, addSpaces, i, key, v);
      NamesOutLines(f, names, level, cm, addSpaces, KeyLine(key, v, addSpaces));
    }
  }

  lemma NamesOutHasLast(f: string, names: seq<string>, level: Level,
                        cm: Option<map<string, seq<string>>>, addSpaces: bool, key: string, v: string)
    requires Within(names, level.buckets) && names != []
    requires key in level.buckets[names[|names| - 1]] && v in level.buckets[names[|names| - 1]][key]
    ensures KeyLine(key, v, addSpaces) in NamesOut(f, names, level, cm, addSpaces).lines
  {
    var n := names[|names| - 1];
    assert Within(names[..|names| - 1], level.buckets);
    BucketOutHas(f, n, level.buckets[n], cm, addSpaces, key, v);
    NamesOutLines(f, names, level, cm, addSpaces, KeyLine(key, v, addSpaces));
  }

  /** Bucket `j` of the level holds `v` among the values of `key`. */
  predicate HasValue(level: Level, j: nat, key: string, v: string)
  {
    j < |level.names| && level.names[j] in level.buckets && key in level.buckets[level.names[j]]
    && v in level.buckets[level.names[j]][key]
  }

  /** Every value in every bucket of a group is written. */
  lemma GroupOutHas(f: string, level: Level, cm: Option<map<string, seq<string>>>, addSpaces: bool,
                    j: nat, key: string, v: string)
    requires Consistent(level) && HasValue(level, j, key, v)
    ensures KeyLine(key, v, addSpaces) in GroupOut(f, level, cm, addSpaces).lines
  {
    NamesOutHas(f, level.names, level, cm, addSpaces, j, key, v);
    InCat(Out(["\n# " + f], []), NamesOut(f, level.names, level, cm, addSpaces), KeyLine(key, v, addSpaces));
  }

  /** Every value in every bucket of every listed group is written. */
  lemma {:induction false} FirstsOutHas(firsts: seq<string>, g: Grouped, cm: Option<map<string, seq<string>>>,
                                        addSpaces: bool, i: nat, j: nat, key: string, v: string)
    requires AllConsistent(g) && Within(firsts, g) && i < |firsts| && HasValue(g[firsts[i]], j, key, v)
    ensures KeyLine(key, v, addSpaces) in FirstsOut(firsts, g, cm, addSpaces).lines
    decreases |firsts|
  {
    var k := |firsts| - 1;
    var front := firsts[..k];
    assert Within(front, g);
    if i == k {
      FirstsOutHasLast(firsts, g, cm, addSpaces, j, key, v);
    } else {
      assert front[i] == firsts[i];
      FirstsOutHas(front, g, cm, addSpaces, i, j, key, v);
      FirstsOutLines(firsts, g, cm, addSpaces, KeyLine(key, v, addSpaces));
    }
  }

  lemma FirstsOutHasLast(firsts: seq<string>, g: Grouped, cm: Option<map<string, seq<string>>>,
                         addSpaces: bool, j: nat, key: string, v: string)
    requires AllConsistent(g) && Within(firsts, g) && firsts != [] && HasValue(g[firsts[|firsts| - 1]], j, key, v)
    ensures KeyLine(key, v, addSpaces) in FirstsOut(firsts, g, cm, addSpaces).lines
  {
    var f := firsts[|firsts| - 1];
    assert Within(firsts[..|firsts| - 1], g);
    GroupOutHas(f, g[f], cm, addSpaces, j, key, v);
    FirstsOutLines(firsts, g, cm, addSpaces, KeyLine(key, v, addSpaces));
  }

  /** Nothing is lost: every value of every key in every bucket of the grouping is written
      on a `key=value` line of the output. */
  lemma FormatHas(g: Grouped, source: Option<string>, cm: Option<map<string, seq<string>>>, addSpaces: bool,
                  f: string, j: nat, key: string, v: string)
    requires AllConsistent(g) && f in g && HasValue(g[f], j, key, v)
    ensures KeyLine(key, v, addSpaces) in FormatLines(g, source, cm, addSpaces)
  {
    var firsts := SortedSet(g.Keys);
    assert Within(firsts, g);
    var i :| 0 <= i < |firsts| && firsts[i] == f;
    FirstsOutHas(firsts, g, cm, addSpaces, i, j, key, v);
  }

  /** The last `|b|` characters of `a + b` are `b`. */
  lemma SuffixOfConcat(a: string, b: string)
    ensures (a + b)[|a + b| - |b|..] == b
  {
  }

  /** Joined lines ending in the footer end with it and the two trailing newlines. */
  lemma JoinedEnds(front: seq<string>)
    ensures var t := Join(front + [Footer], "\n") + "\n\n";
      |t| >= 9 && t[|t| - 9..] == "\n#####\n\n\n"
  {
    JoinSnoc(front, Footer, "\n");
    var before := if front == [] then [] else Join(front, "\n") + "\n";
    assert Join(front + [Footer], "\n") + "\n\n" == before + (Footer + "\n\n");
    SuffixOfConcat(before, Footer + "\n\n");
  }

  /** The text always ends with the closing `#####` line and two blank lines. */
  lemma FormatEnds(g: Grouped, source: Option<string>, cm: Option<map<string, seq<string>>>, addSpaces: bool)
    requires AllConsistent(g)
    ensures var t := Format(g, source, cm, addSpaces);
      |t| >= 9 && t[|t| - 9..] == "\n#####\n\n\n"
  {
    var body := BodyOut(g, cm, addSpaces);
    JoinedEnds(Header(source) + body.lines + Report(body.dups));
  }

  /** Joined lines open with the first line and the glue. */
  lemma JoinedStarts(ls: seq<string>, rest: string)
    requires |ls| >= 2
    ensures var t := Join(ls, "\n") + rest;
      |ls[0] + "\n"| <= |t| && t[..|ls[0] + "\n"|] == ls[0] + "\n"
  {
    var t := Join(ls, "\n") + rest;
    assert t == (ls[0] + "\n") + (Join(ls[1..], "\n") + rest);
  }

  /** With a non-empty source name the source line comes first, and the footer after it. */
  lemma FormatLinesHead(g: Grouped, source: Option<string>, cm: Option<map<string, seq<string>>>, addSpaces: bool)
    requires AllConsistent(g) && source.Some? && source.value != ""
    ensures var ls := FormatLines(g, source, cm, addSpaces);
      |ls| >= 2 && ls[0] == "##### Source file: " + source.value + " #####"
  {
  }

  /** With a non-empty source name the text opens with the source line. */
  lemma FormatStarts(g: Grouped, source: Option<string>, cm: Option<map<string, seq<string>>>, addSpaces: bool)
    requires AllConsistent(g) && source.Some? && source.value != ""
    ensures var t := Format(g, source, cm, addSpaces);
      var first := "##### Source file: " + source.value + " #####\n";
      |first| <= |t| && t[..|first|] == first
  {
    FormatLinesHead(g, source, cm, addSpaces);
    JoinedStarts(FormatLines(g, source, cm, addSpaces), "\n\n");
    SourceLine(source.value);
  }

  lemma SourceLine(v: string)
    ensures ("##### Source file: " + v + " #####") + "\n" == "##### Source file: " + v + " #####\n"
  {
  }

  /** A key with two values and one comment: marked, flagged, and each value preceded by
      the indented comment. */
  lemma KeyOutExample(key: string)
    requires key == "x"
    ensures KeyOut(key, ["1", "2"], ["c"], false) == Out([DuplicateMark, "  c", "x=1", "  c", "x=2"], ["x"])
  {
    assert CommentLine("c") == "  c" by {
      assert "c"[0] == 'c';
      assert "  " + "c" == "  c";
    }
    assert CommentLines(["c"]) == ["  c"] by {
      assert ["c"][..0] == [];
      assert CommentLines(["c"]) == CommentLines([]) + [CommentLine("c")];
    }
    assert KeyLine(key, "1", false) == "x=1" by { assert "x" + "=" + "1" == "x=1"; }
    assert KeyLine(key, "2", false) == "x=2" by { assert "x" + "=" + "2" == "x=2"; }
    assert ValueLines(key, ["1"], ["c"], false) == ["  c", "x=1"] by {
      assert ["1"][..0] == [];
    }
    assert ValueLines(key, ["1", "2"], ["c"], false) == ["  c", "x=1", "  c", "x=2"] by {
      assert ["1", "2"][..1] == ["1"];
    }
  }
}
