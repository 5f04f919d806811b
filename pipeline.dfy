/**
  The path a file takes through the tool's main flow (props_check.py:299-308): the parsed
  table is sorted, grouped and formatted, and the text is written to the output file.
  What the stages promise each other, and what the written file says about the table.
 */
module Pipeline {
  import opened Wrappers
  import opened Text
  import opened KeyNormalizer
  import opened PropertyTable
  import opened Parser
  import opened Grouping
  import opened Formatter

  // ---------------------------------------------------------------------------
  // The grouping meets the formatter's precondition

  /** Every group the grouping builds names exactly its buckets, so the formatter can walk
      it: the nested `defaultdict` creates a bucket whenever it records a name. */
  lemma GroupedConsistent(t: Table)
    requires Valid(t)
    ensures KeysListed(t.order, t.entries)
    ensures AllConsistent(Groups(t.order, t.entries))
  {
    assert KeysListed(t.order, t.entries);
    var g := Groups(t.order, t.entries);
    GroupLevels(t.order, t.entries);
    forall f | f in g ensures Consistent(g[f]) {
      assert LevelMatches(g, t.order, f);
    }
  }

  /** Every key of a group lies in the bucket its first two segments name, and every group
      names each of its buckets once. */
  lemma GroupedOwned(t: Table)
    requires Valid(t)
    ensures KeysListed(t.order, t.entries)
    ensures GroupsOwned(Groups(t.order, t.entries))
  {
    GroupTable(t);
    var g := Groups(t.order, t.entries);
    GroupLevels(t.order, t.entries);
    forall f | f in g ensures BucketsOwned(f, g[f]) && Distinct(g[f].names) {
      assert LevelMatches(g, t.order, f);
      SecondLevelsDistinct(t.order, f);
    }
  }

  /** The text the main flow writes for a table (props_check.py:299-308): the table sorted
      by key, grouped, its comments dropped when `stripComments` is set, and formatted
      under the name of the input file. */
  function Reformat(t: Table, source: Option<string>, stripComments: bool, addSpaces: bool): string
    requires Valid(t)
  {
    var s := SortByKey(t);
    GroupedConsistent(s);
    var cm := if stripComments then None else Some(Comments(s.order, s.entries));
    Format(Groups(s.order, s.entries), source, cm, addSpaces)
  }

  // ---------------------------------------------------------------------------
  // Nothing is lost, and the duplicate report is exact

  /** Every value of every key of the table is written on a `key=value` line. */
  lemma TableWritten(t: Table, source: Option<string>, cm: Option<map<string, seq<string>>>, addSpaces: bool,
                     k: string, v: string)
    requires Valid(t) && k in t.entries && v in Values(t.entries[k])
    ensures KeysListed(t.order, t.entries)
    ensures AllConsistent(Groups(t.order, t.entries))
    ensures KeyLine(k, v, addSpaces) in FormatLines(Groups(t.order, t.entries), source, cm, addSpaces)
  {
    GroupedConsistent(t);
    GroupTable(t);
    GroupLevels(t.order, t.entries);
    var g := Groups(t.order, t.entries);
    var (f, n) := BucketOf(k);
    assert f in g && n in g[f].buckets && k in g[f].buckets[n] && g[f].buckets[n][k] == Values(t.entries[k]);
    assert LevelMatches(g, t.order, f);
    var j :| 0 <= j < |g[f].names| && g[f].names[j] == n;
    assert HasValue(g[f], j, k, v);
    FormatHas(g, source, cm, addSpaces, f, j, k, v);
  }

  /** The duplicate report of lines 444-453 names exactly the keys recorded with more than
      one value, each of them once. */
  lemma ReportExact(t: Table, cm: Option<map<string, seq<string>>>, addSpaces: bool)
    requires Valid(t)
    ensures KeysListed(t.order, t.entries)
    ensures AllConsistent(Groups(t.order, t.entries))
    ensures var dups := BodyOut(Groups(t.order, t.entries), cm, addSpaces).dups;
      && Distinct(dups)
      && forall x :: x in dups <==> x in t.entries && |t.entries[x]| > 1
  {
    GroupedConsistent(t);
    GroupedOwned(t);
    var g := Groups(t.order, t.entries);
    BodyDupsDistinct(g, cm, addSpaces);
    forall x ensures x in BodyOut(g, cm, addSpaces).dups <==> x in t.entries && |t.entries[x]| > 1 {
      ReportedIff(t, cm, addSpaces, x);
    }
  }

  lemma ReportedIff(t: Table, cm: Option<map<string, seq<string>>>, addSpaces: bool, x: string)
    requires Valid(t)
    ensures KeysListed(t.order, t.entries)
    ensures AllConsistent(Groups(t.order, t.entries))
    ensures x in BodyOut(Groups(t.order, t.entries), cm, addSpaces).dups <==> x in t.entries && |t.entries[x]| > 1
  {
    GroupedConsistent(t);
    BodyDups(Groups(t.order, t.entries), cm, addSpaces, x);
    ReportedKey(t, x);
  }

  /** A key is flagged in some bucket exactly when the table holds it with several values. */
  lemma ReportedKey(t: Table, x: string)
    requires Valid(t)
    ensures KeysListed(t.order, t.entries)
    ensures var g := Groups(t.order, t.entries);
      (exists f :: f in g && InSomeBucket(g[f].names, g[f].buckets, x)) <==> x in t.entries && |t.entries[x]| > 1
  {
    GroupTable(t);
    var g := Groups(t.order, t.entries);
    if exists f :: f in g && InSomeBucket(g[f].names, g[f].buckets, x) {
      var f :| f in g && InSomeBucket(g[f].names, g[f].buckets, x);
      var i :| 0 <= i < |g[f].names| && g[f].names[i] in g[f].buckets && Flagged(g[f].buckets[g[f].names[i]], x);
      FlaggedInTable(t, f, g[f].names[i], x);
    }
    if x in t.entries && |t.entries[x]| > 1 {
      DupFlagged(t, x);
    }
  }

  /** A key flagged in a bucket of the grouping has several values in the table. */
  lemma FlaggedInTable(t: Table, f: string, n: string, x: string)
    requires Valid(t)
    requires KeysListed(t.order, t.entries)
    requires var g := Groups(t.order, t.entries);
      f in g && n in g[f].buckets && Flagged(g[f].buckets[n], x)
    ensures x in t.entries && |t.entries[x]| > 1
  {
    GroupTable(t);
    var g := Groups(t.order, t.entries);
    assert x in t.order && BucketOf(x) == (f, n);
    assert g[f].buckets[n][x] == Values(t.entries[x]);
  }

  /** A key with several values in the table is flagged in its own bucket. */
  lemma DupFlagged(t: Table, x: string)
    requires Valid(t) && x in t.entries && |t.entries[x]| > 1
    ensures KeysListed(t.order, t.entries)
    ensures var g := Groups(t.order, t.entries);
      exists f :: f in g && InSomeBucket(g[f].names, g[f].buckets, x)
  {
    GroupTable(t);
    GroupLevels(t.order, t.entries);
    var g := Groups(t.order, t.entries);
    var (f, n) := BucketOf(x);
    assert f in g && n in g[f].buckets && x in g[f].buckets[n] && g[f].buckets[n][x] == Values(t.entries[x]);
    assert LevelMatches(g, t.order, f);
    var i :| 0 <= i < |g[f].names| && g[f].names[i] == n;
    assert InSomeBucket(g[f].names, g[f].buckets, x);
  }

  /** For the main flow: every value of the input table is written. */
  lemma ReformatKeepsValues(t: Table, source: Option<string>, stripComments: bool, addSpaces: bool,
                            k: string, v: string)
    requires Valid(t) && k in t.entries && v in Values(t.entries[k])
    ensures var s := SortByKey(t);
      && KeysListed(s.order, s.entries)
      && AllConsistent(Groups(s.order, s.entries))
      && KeyLine(k, v, addSpaces) in
           FormatLines(Groups(s.order, s.entries), source,
                       if stripComments then None else Some(Comments(s.order, s.entries)), addSpaces)
  {
    var s := SortByKey(t);
    TableWritten(s, source, if stripComments then None else Some(Comments(s.order, s.entries)), addSpaces, k, v);
  }

  // ---------------------------------------------------------------------------
  // Reading a key line back

  /** A key line written without spaces reads back as its key and value. */
  lemma PlainLineReadBack(k: string, v: string)
    requires '=' !in k && SpacesEscaped(k) && Strip(k) == k && Strip(v) == v
    requires !StartsWith(k, '#') && !StartsWith(k, '!')
    ensures var line := Strip(KeyLine(k, v, false));
      IsEntryLine(line) && SplitEntry(line, false) == (k, v)
  {
    StrippedEnds(k);
    StrippedEnds(v);
    PlainStripped(k, v);
    EscapedFixpoint(k);
    LineSplits(k, v, k, v);
  }

  lemma PlainStripped(k: string, v: string)
    requires TrimStart(k) == k && TrimEnd(v) == v
    ensures Strip(KeyLine(k, v, false)) == k + ['='] + v
  {
    PlainKeyLine(k, v);
    StripAround(k, '=', v);
  }

  /** A key line written with `add_spaces` reads back as its key and value. */
  lemma SpacedLineReadBack(k: string, v: string)
    requires '=' !in k && SpacesEscaped(k) && Strip(k) == k && Strip(v) == v
    requires !StartsWith(k, '#') && !StartsWith(k, '!')
    ensures var line := Strip(KeyLine(k, v, true));
      IsEntryLine(line) && SplitEntry(line, false) == (k, v)
  {
    var a := TrimStart(k + " ");
    var b := TrimEnd(" " + v);
    SpacedStripped(k, v);
    PaddedKey(k);
    PaddedValue(v);
    EscapedFixpoint(k);
    LineSplits(a, b, k, v);
  }

  lemma SpacedStripped(k: string, v: string)
    ensures Strip(KeyLine(k, v, true)) == TrimStart(k + " ") + ['='] + TrimEnd(" " + v)
  {
    SpacedKeyLine(k, v);
    StripAround(k + " ", '=', " " + v);
  }

  /** A line `a=b` whose front holds no `=` and starts with neither `#` nor `!` is read as
      the entry `k`, `v` that `a` and `b` strip to. */
  lemma LineSplits(a: string, b: string, k: string, v: string)
    requires '=' !in a && (a == [] || (a[0] != '#' && a[0] != '!'))
    requires Escaped(Strip(a)) == k && Strip(b) == v
    ensures IsEntryLine(a + ['='] + b) && SplitEntry(a + ['='] + b, false) == (k, v)
  {
    SplitEntryAt(a, b);
    EntryLineAt(a, b);
  }

  lemma PlainKeyLine(k: string, v: string)
    ensures KeyLine(k, v, false) == k + ['='] + v
  {
  }

  lemma SpacedKeyLine(k: string, v: string)
    ensures KeyLine(k, v, true) == (k + " ") + ['='] + (" " + v)
  {
  }

  /** A string that is its own `strip()` has no whitespace at either end to trim. */
  lemma StrippedEnds(s: string)
    requires Strip(s) == s
    ensures TrimStart(s) == s && TrimEnd(s) == s
  {
  }

  /** A line with its first `=` after `a` splits into `a` and `b`. */
  lemma SplitEntryAt(a: string, b: string)
    requires '=' !in a
    ensures '=' in a + ['='] + b
    ensures SplitEntry(a + ['='] + b, false) == (Escaped(Strip(a)), Strip(b))
  {
    var line := a + ['='] + b;
    assert line[..|a|] == a;
    IndexOfAt(line, '=', |a|);
    assert line[|a| + 1..] == b;
  }

  /** A line holding `=` whose front starts with neither `#` nor `!` is read as `key=value`. */
  lemma EntryLineAt(a: string, b: string)
    requires a == [] || (a[0] != '#' && a[0] != '!')
    ensures IsEntryLine(a + ['='] + b)
  {
    var line := a + ['='] + b;
    assert line[|a|] == '=';
    assert line[0] == if a == [] then '=' else a[0];
  }

  /** `k + " "` loses only its last space to `strip()`, and its front keeps no `=`. */
  lemma PaddedKey(k: string)
    requires '=' !in k && Strip(k) == k && !StartsWith(k, '#') && !StartsWith(k, '!')
    ensures var a := TrimStart(k + " ");
      '=' !in a && Strip(a) == k && (a == [] || (a[0] != '#' && a[0] != '!'))
  {
    if k == [] {
      EmptyPadded();
    } else {
      KeyPadded(k);
    }
  }

  lemma EmptyPadded()
    ensures TrimStart([] + " ") == [] && Strip([]) == []
  {
    var p: string := [] + " ";
    assert p == [' '] && p[1..] == [];
  }

  lemma KeyPadded(k: string)
    requires k != [] && '=' !in k && Strip(k) == k
    ensures TrimStart(k + " ") == k + " " && '=' !in k + " " && Strip(k + " ") == k
  {
    var p := k + " ";
    assert p[0] == k[0] && !IsSpace(k[0]);
    assert TrimStart(p) == p;
    assert p[..|p| - 1] == k && p[|p| - 1] == ' ';
    assert TrimEnd(p) == TrimEnd(k);
    assert TrimEnd(k) == k;
  }

  /** `" " + v` loses only its first space to `strip()`. */
  lemma PaddedValue(v: string)
    requires Strip(v) == v
    ensures Strip(TrimEnd(" " + v)) == v
  {
    if v == [] {
      EmptyValuePadded();
    } else {
      ValuePadded(v);
    }
  }

  lemma EmptyValuePadded()
    ensures Strip(TrimEnd(" " + [])) == []
  {
    var q: string := " " + [];
    assert q == [' '] && q[..0] == [];
    EmptyPadded();
  }

  lemma ValuePadded(v: string)
    requires v != [] && Strip(v) == v
    ensures TrimEnd(" " + v) == " " + v && Strip(" " + v) == v
  {
    StrippedEnds(v);
    assert !IsSpace(v[|v| - 1]);
    SpaceBefore(v);
  }

  /** One space before a string that ends and starts with no whitespace is all `strip()`
      removes. */
  lemma SpaceBefore(v: string)
    requires v != [] && !IsSpace(v[|v| - 1]) && TrimStart(v) == v && TrimEnd(v) == v
    ensures TrimEnd(" " + v) == " " + v && Strip(" " + v) == v
  {
    var q := " " + v;
    assert q[|q| - 1] == v[|v| - 1];
    assert q[1..] == v && q[0] == ' ';
    StripIsTrims(q);
  }

  /** The line the formatter writes for `key` and `value` is read back by the parser as
      that key and value (props_check.py:337-343 against 439-442), whenever the key is as
      the parser stores it and the value is stripped. */
  lemma KeyLineReadBack(k: string, v: string, addSpaces: bool)
    requires '=' !in k && SpacesEscaped(k) && Strip(k) == k && Strip(v) == v
    requires !StartsWith(k, '#') && !StartsWith(k, '!')
    ensures var line := Strip(KeyLine(k, v, addSpaces));
      IsEntryLine(line) && SplitEntry(line, false) == (k, v)
  {
    if addSpaces {
      SpacedLineReadBack(k, v);
    } else {
      PlainLineReadBack(k, v);
    }
  }

  // ---------------------------------------------------------------------------
  // The file as a whole does not read back

  /** The table of the one-line file `x\.y=v`. */
  const LostKey := "x\\.y"
  const LostTable := Table([LostKey], map[LostKey := [Entry("v", None)]])

  /** The lines of the file written for `LostTable` under the source name `in`, as the
      parser reads them back. */
  const WrittenLines := ["##### Source file: in #####", "", "# x\\", "x\\.y=v", "", "#####", "", "", ""]

  /** A key whose first segment ends in a backslash does not survive a write and a re-read:
      the group header `# x\` the formatter writes for `x\.y` (props_check.py:423) is a
      comment line ending in a backslash, so on reading the file back it sets `long_line`
      (lines 334-336) and the key's own line is taken into the comment buffer (362-364). */
  lemma RoundTripLost(line: string)
    requires line == "x\\.y=v"
    ensures Parse([line], false) == LostTable && Valid(LostTable)
    ensures Split(Reformat(LostTable, Some("in"), false, false), '\n') == WrittenLines
    ensures Parse(WrittenLines, false).entries == map[]
  {
    ParseLostLine(line);
    GroupLostTable();
    FormatLostTable();
    SplitLostText(LostTable);
    RereadLost(WrittenLines);
  }

  lemma ParseLostLine(line: string)
    requires line == "x\\.y=v"
    ensures Parse([line], false) == LostTable && Valid(LostTable)
  {
    LostLineParts(line);
    LineSplits(LostKey, "v", LostKey, "v");
    OneEntryParsed(line, LostKey, "v");
    LostTableAdded();
  }

  /** A file of one line that reads as the entry `k`, `v` holds that one entry, without
      comments. */
  lemma OneEntryParsed(line: string, k: string, v: string)
    requires IsEntryLine(Strip(line)) && SplitEntry(Strip(line), false) == (k, v)
    ensures Parse([line], false) == Add(Empty, k, Entry(v, Attached([])))
  {
    CommentsAttachToNextEntry(Start, [], line, false);
    NoBlockBefore(line);
  }

  lemma NoBlockBefore(line: string)
    ensures [] + [line] == [line] && Start.comments + CommentsOf([]) == []
  {
  }

  lemma LostLineParts(line: string)
    requires line == "x\\.y=v"
    ensures line == LostKey + ['='] + "v" && Strip(line) == line
    ensures '=' !in LostKey && LostKey[0] != '#' && LostKey[0] != '!'
    ensures Escaped(Strip(LostKey)) == LostKey && Strip("v") == "v"
  {
    StripOfStripped(line);
    StripOfStripped(LostKey);
    NoSpaceUnchanged(LostKey);
    StripOfStripped("v");
  }

  lemma LostTableAdded()
    ensures Add(Empty, LostKey, Entry("v", Attached([]))) == LostTable && Valid(LostTable)
  {
    assert [] + [LostKey] == [LostKey];
  }

  /** Sorting keeps the one-key table, and grouping puts its key in bucket `x\` / `y`. */
  lemma GroupLostTable()
    ensures Valid(LostTable) && KeysListed(LostTable.order, LostTable.entries)
    ensures SortByKey(LostTable) == LostTable
    ensures Groups(LostTable.order, LostTable.entries) == map["x\\" := Level(["y"], map["y" := map[LostKey := ["v"]]])]
    ensures Comments(LostTable.order, LostTable.entries) == map[]
  {
    SortByKeyUnique(LostTable, LostTable);
    GroupLostKey(LostTable);
  }

  lemma GroupLostKey(t: Table)
    requires t == LostTable
    ensures KeysListed(t.order, t.entries)
    ensures Groups(t.order, t.entries) == map["x\\" := Level(["y"], map["y" := map[LostKey := ["v"]]])]
    ensures Comments(t.order, t.entries) == map[]
  {
    assert LostKey[..2] == "x\\" && LostKey[3..4] == "y";
    BucketAt(LostKey, 2, 4);
    assert [LostKey][..0] == [];
    assert Values([Entry("v", None)]) == ["v"];
    var g0 := Groups([], t.entries);
    assert g0 == map[];
    assert [] + ["y"] == ["y"];
    assert Place(g0, "x\\", "y", LostKey, ["v"]) == map["x\\" := Level(["y"], map["y" := map[LostKey := ["v"]]])];
    assert Groups(t.order, t.entries) == Place(g0, "x\\", "y", LostKey, ["v"]);
  }

  /** The lines the formatter builds for the grouped table. */
  lemma FormatLostTable()
    ensures Valid(LostTable)
    ensures var g := map["x\\" := Level(["y"], map["y" := map[LostKey := ["v"]]])];
      AllConsistent(g)
      && Format(g, Some("in"), Some(map[]), false) ==
           Join(["##### Source file: in #####", "\n# x\\", "x\\.y=v", "\n#####\n"], "\n") + "\n\n"
  {
    var g := map["x\\" := Level(["y"], map["y" := map[LostKey := ["v"]]])];
    LostBody(g);
    LostHeader();
    LostLines(g);
  }

  lemma LostLines(g: Grouped)
    requires AllConsistent(g) && BodyOut(g, Some(map[]), false) == Out(["\n# x\\", "x\\.y=v"], [])
    requires Header(Some("in")) == ["##### Source file: in #####"]
    ensures FormatLines(g, Some("in"), Some(map[]), false) ==
              ["##### Source file: in #####", "\n# x\\", "x\\.y=v", "\n#####\n"]
  {
    assert Report([]) == [];
  }

  /** The body of the grouped table: its one group header and its one key line. */
  lemma LostBody(g: Grouped)
    requires g == map["x\\" := Level(["y"], map["y" := map[LostKey := ["v"]]])]
    ensures AllConsistent(g) && BodyOut(g, Some(map[]), false) == Out(["\n# x\\", "x\\.y=v"], [])
  {
    var level := g["x\\"];
    assert Consistent(level);
    LostBucketOut(level.buckets["y"]);
    assert ["y"][..0] == [];
    assert NamesOut("x\\", ["y"], level, Some(map[]), false) == Out(["x\\.y=v"], []);
    LostGroupOut("x\\", level);
    SortedSingleton("x\\");
    assert g.Keys == {"x\\"};
    assert ["x\\"][..0] == [];
    assert SortedSet(g.Keys) == ["x\\"];
    assert FirstsOut(["x\\"], g, Some(map[]), false) ==
             Cat(Out([], []), GroupOut("x\\", level, Some(map[]), false));
  }

  lemma LostHeader()
    ensures Header(Some("in")) == ["##### Source file: in #####"]
  {
    assert "##### Source file: " + "in" + " #####" == "##### Source file: in #####";
  }

  lemma LostGroupOut(f: string, level: Level)
    requires f == "x\\" && Consistent(level)
    requires NamesOut(f, level.names, level, Some(map[]), false) == Out(["x\\.y=v"], [])
    ensures GroupOut(f, level, Some(map[]), false) == Out(["\n# x\\", "x\\.y=v"], [])
  {
    assert "\n# " + f == "\n# x\\";
    assert ["\n# x\\"] + ["x\\.y=v"] == ["\n# x\\", "x\\.y=v"];
  }

  lemma LostKeyOut()
    ensures KeyOut(LostKey, ["v"], [], false) == Out(["x\\.y=v"], [])
  {
    assert ["v"][..0] == [];
    assert KeyLine(LostKey, "v", false) == "x\\.y=v";
    assert ValueLines(LostKey, ["v"], [], false) == [] + [] + ["x\\.y=v"];
  }

  lemma LostBucketOut(props: map<string, seq<string>>)
    requires props == map[LostKey := ["v"]]
    ensures BucketOut("x\\", "y", props, Some(map[]), false) == Out(["x\\.y=v"], [])
  {
    SortedSingleton(LostKey);
    assert props.Keys == {LostKey};
    assert CommentsFor(Some(map[]), LostKey) == [];
    assert [LostKey][..0] == [];
    LostKeyOut();
    assert KeysOut([LostKey], props, Some(map[]), false) == Out(["x\\.y=v"], []);
  }

  /** The written text, split at its newlines. */
  lemma SplitLostText(t: Table)
    requires t == LostTable
    ensures Valid(t)
    ensures Split(Reformat(t, Some("in"), false, false), '\n') == WrittenLines
  {
    GroupLostTable();
    FormatLostTable();
    JoinLostText();
    LostLinesUnbroken(WrittenLines);
    SplitJoin(WrittenLines, '\n');
  }

  lemma LostLinesUnbroken(ls: seq<string>)
    requires ls == WrittenLines
    ensures forall i :: 0 <= i < |ls| ==> '\n' !in ls[i]
  {
    assert ls[0] == "##### Source file: in #####";
    assert '\n' !in ls[0] && '\n' !in ls[1] && '\n' !in ls[2] && '\n' !in ls[3] && '\n' !in ls[4];
    assert '\n' !in ls[5] && '\n' !in ls[6] && '\n' !in ls[7] && '\n' !in ls[8];
  }

  lemma JoinLostText()
    ensures Join(WrittenLines, "\n") ==
              Join(["##### Source file: in #####", "\n# x\\", "x\\.y=v", "\n#####\n"], "\n") + "\n\n"
  {
    assert "\n# x\\" == "\n" + "# x\\" && "\n#####\n" == "\n" + "#####" + "\n";
    JoinNewlines("##### Source file: in #####", "# x\\", "x\\.y=v", "#####");
  }

  /** Parts that start or end with a newline join as the lines between those newlines. */
  lemma JoinNewlines(h: string, c: string, d: string, e: string)
    ensures Join([h, "\n" + c, d, "\n" + e + "\n"], "\n") + "\n\n" == Join([h, "", c, d, "", e, "", "", ""], "\n")
  {
    JoinFour(h, "\n" + c, d, "\n" + e + "\n", "\n");
    JoinNine(h, c, d, e, "\n");
  }

  lemma JoinFour(a: string, b: string, c: string, d: string, glue: string)
    ensures Join([a, b, c, d], glue) == a + glue + (b + glue + (c + glue + d))
  {
    JoinCons(a, [b, c, d], glue);
    assert [a, b, c, d] == [a] + [b, c, d];
    JoinCons(b, [c, d], glue);
    assert [b, c, d] == [b] + [c, d];
    JoinCons(c, [d], glue);
    assert [c, d] == [c] + [d];
  }

  lemma JoinNine(h: string, c: string, d: string, e: string, nl: string)
    ensures Join([h, "", c, d, "", e, "", "", ""], nl) ==
              h + nl + ("" + nl + (c + nl + (d + nl + ("" + nl + (e + nl + ("" + nl + ("" + nl + "")))))))
  {
    var tail := ["", e, "", "", ""];
    JoinFive(e, nl);
    JoinCons(d, tail, nl);
    assert [d] + tail == [d, "", e, "", "", ""];
    JoinCons(c, [d] + tail, nl);
    assert [c] + ([d] + tail) == [c, d, "", e, "", "", ""];
    JoinCons("", [c] + ([d] + tail), nl);
    assert [""] + ([c] + ([d] + tail)) == ["", c, d, "", e, "", "", ""];
    JoinCons(h, [""] + ([c] + ([d] + tail)), nl);
    assert [h] + ([""] + ([c] + ([d] + tail))) == [h, "", c, d, "", e, "", "", ""];
  }

  lemma JoinFive(e: string, nl: string)
    ensures Join(["", e, "", "", ""], nl) == "" + nl + (e + nl + ("" + nl + ("" + nl + "")))
  {
    JoinFour(e, "", "", "", nl);
    JoinCons("", [e, "", "", ""], nl);
    assert [""] + [e, "", "", ""] == ["", e, "", "", ""];
  }

  lemma JoinCons(x: string, rest: seq<string>, glue: string)
    requires rest != []
    ensures Join([x] + rest, glue) == x + glue + Join(rest, glue)
  {
    assert ([x] + rest)[0] == x && ([x] + rest)[1..] == rest;
  }

  /** Reading the written lines back: the header and the group header are comments, the
      second ends in a backslash, and the key's line joins the comment buffer. */
  lemma RereadLost(L: seq<string>)
    requires L == WrittenLines
    ensures Parse(L, false).entries == map[]
  {
    LostLinesShape(L);
    RereadShape(L[0], L[2], L[3], L[5]);
  }

  lemma LostLinesShape(L: seq<string>)
    requires L == WrittenLines
    ensures L == [L[0], "", L[2], L[3], "", L[5], "", "", ""]
    ensures L[0] != [] && L[0][0] == '#' && !IsSpace(L[0][|L[0]| - 1])
    ensures L[2] != [] && L[2][0] == '#' && L[2][|L[2]| - 1] == '\\'
    ensures L[3] != [] && !IsSpace(L[3][0]) && !IsSpace(L[3][|L[3]| - 1]) && L[3][0] != '#' && L[3][0] != '!'
    ensures L[5] != [] && L[5][0] == '#' && !IsSpace(L[5][|L[5]| - 1])
  {
  }

  /** A file laid out as the one above (a comment, a comment ending in a backslash, any
      stripped non-comment line, a comment, blank lines) yields no entries. */
  lemma RereadShape(h: string, c: string, d: string, e: string)
    requires h != [] && h[0] == '#' && !IsSpace(h[|h| - 1])
    requires c != [] && c[0] == '#' && c[|c| - 1] == '\\'
    requires d != [] && !IsSpace(d[0]) && !IsSpace(d[|d| - 1]) && d[0] != '#' && d[0] != '!'
    requires e != [] && e[0] == '#' && !IsSpace(e[|e| - 1])
    ensures Parse([h, "", c, d, "", e, "", "", ""], false).entries == map[]
  {
    var a := [h, "", c];
    var b := ["", e, "", "", ""];
    assert [h, "", c, d, "", e, "", "", ""] == a + ([d] + b);
    RunAppend(Start, a, [d] + b, false);
    HeadRun(h, c);
    TailBlock(e);
    SwallowRun(Run(Start, a, false), d, b);
  }

  /** The two comments, the second ending in a backslash, leave the table empty and set
      `long_line`. */
  lemma HeadRun(h: string, c: string)
    requires h != [] && h[0] == '#' && !IsSpace(h[|h| - 1])
    requires c != [] && c[0] == '#' && c[|c| - 1] == '\\'
    ensures Run(Start, [h, "", c], false).table == Empty && Run(Start, [h, "", c], false).longLine
  {
    StripOfStripped(h);
    StripOfStripped(c);
    HeadBlock(h, c);
    CommentBlock(Start, [h, "", c], false);
  }

  /** With `long_line` set, a non-comment line and then a block of blank and comment lines
      leave the table as it is. */
  lemma SwallowRun(s: ParserState, d: string, b: seq<string>)
    requires s.longLine && d != [] && !IsSpace(d[0]) && !IsSpace(d[|d| - 1])
    requires d[0] != '#' && d[0] != '!'
    requires AllBlankOrComment(b)
    ensures Run(s, [d] + b, false).table == s.table
  {
    assert ([d] + b)[0] == d && ([d] + b)[1..] == b;
    SwallowStep(s, d);
    CommentBlock(Step(s, d, false), b, false);
  }

  lemma HeadBlock(h: string, c: string)
    requires Strip(h) == h && h != [] && h[0] == '#'
    requires Strip(c) == c && c != [] && c[0] == '#' && c[|c| - 1] == '\\'
    ensures AllBlankOrComment([h, "", c]) && Continues([h, "", c])
  {
    assert [h, "", c][1..] == ["", c] && ["", c][1..] == [c] && [c][1..] == [];
    assert IsBlankOrComment(h) && IsBlankOrComment("") && IsContinuedComment(c);
    assert AllBlankOrComment([c]) && AllBlankOrComment(["", c]);
  }

  lemma TailBlock(e: string)
    requires e != [] && e[0] == '#' && !IsSpace(e[|e| - 1])
    ensures AllBlankOrComment(["", e, "", "", ""])
  {
    StripOfStripped(e);
    var b := ["", e, "", "", ""];
    assert b[1..] == [e, "", "", ""] && b[1..][1..] == ["", "", ""];
    assert ["", "", ""][1..] == ["", ""] && ["", ""][1..] == [""] && [""][1..] == [];
  }

  /** While `long_line` is set, a stripped non-comment line is buffered and clears it. */
  lemma SwallowStep(s: ParserState, line: string)
    requires s.longLine && line != [] && !IsSpace(line[0]) && !IsSpace(line[|line| - 1])
    requires line[0] != '#' && line[0] != '!'
    ensures Step(s, line, false) == ParserState(s.table, s.comments + [line], false)
  {
    StripOfStripped(line);
  }
}
