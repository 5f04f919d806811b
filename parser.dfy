/**
  The line parser `load_properties_file` (props_check.py:320-372). The file is given
  as the sequence of its lines, already decoded; `None` stands for a file that could
  not be opened or decoded.
 */
module Parser {
  import opened Wrappers
  import opened Text
  import opened KeyNormalizer
  import opened PropertyTable

  /** A stripped line that starts with `#` or `!`. */
  predicate IsCommentLine(line: string)
  {
    line != "" && (StartsWith(line, '#') || StartsWith(line, '!'))
  }

  /** The loop's state: the table so far, the pending comment lines and `long_line`. */
  datatype ParserState = ParserState(table: Table, comments: seq<string>, longLine: bool)

  const Start: ParserState := ParserState(Empty, [], false)

  /** Every line can be decoded when `utf8` asks for values to be decoded. */
  predicate Decodable(lines: seq<string>, utf8: bool)
  {
    utf8 ==> forall k :: 0 <= k < |lines| ==> NoSurrogateEscapes(lines[k])
  }

  lemma NoSurrogateStrip(s: string)
    requires NoSurrogateEscapes(s)
    ensures NoSurrogateEscapes(Strip(s))
  {
    var r := Strip(s);
    var a := StripStart(s);
    assert a + |r| <= |s| && r == s[a..a + |r|];
    NoSurrogateSlice(s, a, a + |r|);
  }

  /** `key, value = line.split('=', 1)` followed by the key's `strip()` and
      `escape_spaces`, and the value's `strip()` and, when `utf8` is set,
      `decode_unicode_escapes` (props_check.py:337-343). */
  function SplitEntry(line: string, utf8: bool): (kv: (string, string))
    requires '=' in line
    requires utf8 ==> NoSurrogateEscapes(line)
  {
    var i := IndexOf(line, '=');
    var key := Escaped(Strip(line[..i]));
    var raw := Strip(line[i + 1..]);
    if utf8 then
      NoSurrogateSuffix(line, i + 1);
      NoSurrogateStrip(line[i + 1..]);
      (key, DecodeUnicode(raw))
    else
      (key, raw)
  }

  /** The comments attached to a new entry: the pending list, or `None` if it is empty. */
  function Attached(comments: seq<string>): Option<seq<string>>
  {
    if comments == [] then None else Some(comments)
  }

  /** One iteration of the loop over the file (props_check.py:327-364). */
  function Step(s: ParserState, raw: string, utf8: bool): (r: ParserState)
    requires utf8 ==> NoSurrogateEscapes(raw)
  {
    var line := Strip(raw);
    if IsCommentLine(line) then
      ParserState(s.table, s.comments + [line], s.longLine || EndsWith(line, '\\'))
    else if line != "" && '=' in line && !s.longLine then
      if utf8 then NoSurrogateStrip(raw); KeyValueStep(s, line, utf8)
      else KeyValueStep(s, line, utf8)
    else if line != "" then
      ParserState(s.table, s.comments + [line], false)
    else
      s
  }

  /** The key/value branch of `Step`. */
  function KeyValueStep(s: ParserState, line: string, utf8: bool): (r: ParserState)
    requires '=' in line
    requires utf8 ==> NoSurrogateEscapes(line)
  {
    var kv := SplitEntry(line, utf8);
    ParserState(Add(s.table, kv.0, Entry(kv.1, Attached(s.comments))), [], false)
  }

  /** The loop run over `lines` from state `s`. */
  function Run(s: ParserState, lines: seq<string>, utf8: bool): (r: ParserState)
    requires Decodable(lines, utf8)
    decreases |lines|
  {
    if lines == [] then s
    else
      assert lines[0] in lines;
      Run(Step(s, lines[0], utf8), lines[1..], utf8)
  }

  /** The table `load_properties_file` returns for a file with these lines. */
  function Parse(lines: seq<string>, utf8: bool): Table
    requires Decodable(lines, utf8)
  {
    Run(Start, lines, utf8).table
  }

  /** Lines 337-342: the part before the first `=`, stripped and space-escaped. */
  method SplitKey(line: string) returns (key: string)
    requires '=' in line
    ensures key == Escaped(Strip(line[..IndexOf(line, '=')]))
  {
    var eq := IndexOf(line, '=');
    key := Strip(line[..eq]);
    key := EscapeSpaces(key);
  }

  /** Lines 337-343: the part after the first `=`, stripped, and decoded when `utf8` is set. */
  method SplitValue(line: string, utf8: bool) returns (value: string)
    requires '=' in line
    requires utf8 ==> NoSurrogateEscapes(line)
    ensures value == SplitEntry(line, utf8).1
  {
    var eq := IndexOf(line, '=');
    value := Strip(line[eq + 1..]);
    if utf8 {
      NoSurrogateSuffix(line, eq + 1);
      NoSurrogateStrip(line[eq + 1..]);
      value := DecodeUnicode(value);
      assert value == SplitEntry(line, true).1;
    } else {
      assert value == SplitEntry(line, false).1;
    }
  }

  /** Lines 337-343: the key/value split of an accepted line. */
  method SplitKeyValue(line: string, utf8: bool) returns (key: string, value: string)
    requires '=' in line
    requires utf8 ==> NoSurrogateEscapes(line)
    ensures (key, value) == SplitEntry(line, utf8)
  {
    key := SplitKey(line);
    value := SplitValue(line, utf8);
  }

  /** Lines 352-356: the dict update for an accepted entry. */
  method Record(properties: Table, key: string, entry: Entry) returns (r: Table)
    ensures r == Add(properties, key, entry)
  {
    r := properties;
    if key in r.entries && r.entries[key] != [] {
      if entry !in r.entries[key] {
        r := Table(r.order, r.entries[key := r.entries[key] + [entry]]);
      }
    } else if key in r.entries {
      r := Table(r.order, r.entries[key := [entry]]);
    } else {
      r := Table(r.order + [key], r.entries[key := [entry]]);
    }
  }

  /** One pass of the loop body (props_check.py:327-364) on the loop's three variables. */
  method ProcessLine(properties: Table, comments: seq<string>, longLine: bool, raw: string, utf8: bool)
    returns (properties': Table, comments': seq<string>, longLine': bool)
    requires utf8 ==> NoSurrogateEscapes(raw)
    ensures ParserState(properties', comments', longLine') == Step(ParserState(properties, comments, longLine), raw, utf8)
  {
    properties', comments', longLine' := properties, comments, longLine;
    var line := Strip(raw);
    if line != "" && (StartsWith(line, '#') || StartsWith(line, '!')) {
      comments' := comments' + [line];
      if EndsWith(line, '\\') {
        longLine' := true;
      }
    } else if line != "" && !StartsWith(line, '#') && !StartsWith(line, '!') && '=' in line && !longLine' {
      if utf8 { NoSurrogateStrip(raw); }
      var key, value := SplitKeyValue(line, utf8);
      var commentsOut := if comments' != [] then Some(comments') else None;
      var entry := Entry(value, commentsOut);
      properties' := Record(properties', key, entry);
      comments' := [];
      longLine' := false;
    } else if line != "" {
      comments' := comments' + [line];
      longLine' := false;
    }
  }

  lemma RunUnfold(s: ParserState, lines: seq<string>, i: nat, utf8: bool)
    requires i < |lines|
    requires Decodable(lines[i..], utf8)
    ensures utf8 ==> NoSurrogateEscapes(lines[i])
    ensures Decodable(lines[i + 1..], utf8)
    ensures Run(s, lines[i..], utf8) == Run(Step(s, lines[i], utf8), lines[i + 1..], utf8)
  {
    assert lines[i..][0] == lines[i] && lines[i..][1..] == lines[i + 1..];
  }

  /** The parser loop of `load_properties_file` (props_check.py:324-366). */
  method LoadLines(lines: seq<string>, utf8: bool) returns (properties: Table)
    requires Decodable(lines, utf8)
    ensures properties == Parse(lines, utf8)
  {
    properties := Empty;
    var comments: seq<string> := [];
    var longLine := false;
    var i := 0;
    assert lines[0..] == lines;
    while i < |lines|
      invariant 0 <= i <= |lines|
      invariant Decodable(lines[i..], utf8)
      invariant Run(ParserState(properties, comments, longLine), lines[i..], utf8).table == Parse(lines, utf8)
    {
      RunUnfold(ParserState(properties, comments, longLine), lines, i, utf8);
      properties, comments, longLine := ProcessLine(properties, comments, longLine, lines[i], utf8);
      i := i + 1;
    }
  }

  /** `load_properties_file`: `None` when the file cannot be read, else the parsed table.
      Its callers treat an empty table like a failure (props_check.py:93, 98, 139, 279). */
  method LoadProperties(file: Option<seq<string>>, utf8: bool) returns (r: Option<Table>)
    requires file.Some? ==> Decodable(file.value, utf8)
    ensures file.None? ==> r.None?
    ensures file.Some? ==> r == Some(Parse(file.value, utf8))
  {
    if file.None? {
      return None;
    }
    var properties := LoadLines(file.value, utf8);
    return Some(properties);
  }

  // ---------------------------------------------------------------------------
  // Properties of the parser

  /** Running over `a + b` is running over `a`, then over `b`. */
  lemma {:induction false} RunAppend(s: ParserState, a: seq<string>, b: seq<string>, utf8: bool)
    requires Decodable(a + b, utf8)
    ensures Decodable(a, utf8) && Decodable(b, utf8)
    ensures Run(s, a + b, utf8) == Run(Run(s, a, utf8), b, utf8)
    decreases |a|
  {
    assert forall k :: 0 <= k < |a| ==> a[k] == (a + b)[k];
    assert forall k :: 0 <= k < |b| ==> b[k] == (a + b)[|a| + k];
    if a != [] {
      assert (a + b)[0] == a[0] && (a + b)[1..] == a[1..] + b;
      RunAppend(Step(s, a[0], utf8), a[1..], b, utf8);
    } else {
      assert a + b == b;
    }
  }

  /** A line that is blank or a comment once stripped. */
  predicate IsBlankOrComment(raw: string)
  {
    Strip(raw) == "" || IsCommentLine(Strip(raw))
  }

  /** Every line of the block is blank or a comment once stripped. */
  predicate AllBlankOrComment(block: seq<string>)
  {
    block == [] || (IsBlankOrComment(block[0]) && AllBlankOrComment(block[1..]))
  }

  /** Every line of the block is blank once stripped. */
  predicate AllBlank(block: seq<string>)
  {
    block == [] || (Strip(block[0]) == "" && AllBlank(block[1..]))
  }

  /** A comment line ending in a backslash, which sets `long_line`. */
  predicate IsContinuedComment(raw: string)
  {
    IsCommentLine(Strip(raw)) && EndsWith(Strip(raw), '\\')
  }

  /** Some comment line of the block ends in a backslash. */
  predicate Continues(block: seq<string>)
  {
    block != [] && (IsContinuedComment(block[0]) || Continues(block[1..]))
  }

  /** The comment lines a block of blank and comment lines contributes, stripped, in order. */
  function CommentsOf(block: seq<string>): seq<string>
  {
    if block == [] then []
    else (if Strip(block[0]) == "" then [] else [Strip(block[0])]) + CommentsOf(block[1..])
  }

  lemma ConcatAssoc(a: seq<string>, b: seq<string>, c: seq<string>)
    ensures a + (b + c) == (a + b) + c
  {
  }

  lemma BlockCons(block: seq<string>)
    requires block != []
    ensures CommentsOf(block) == CommentsOf([block[0]]) + CommentsOf(block[1..])
    ensures Continues(block) == (Continues([block[0]]) || Continues(block[1..]))
  {
    OneLineBlock(block[0]);
  }

  lemma OneLineBlock(x: string)
    ensures CommentsOf([x]) == (if Strip(x) == "" then [] else [Strip(x)])
    ensures Continues([x]) == IsContinuedComment(x)
  {
    assert [x][0] == x && [x][1..] == [];
  }

  /** One blank or comment line. */
  lemma StepComment(s: ParserState, raw: string, utf8: bool)
    requires (utf8 ==> NoSurrogateEscapes(raw))
    requires IsBlankOrComment(raw)
    ensures Step(s, raw, utf8) ==
              ParserState(s.table, s.comments + CommentsOf([raw]), s.longLine || Continues([raw]))
  {
    assert [raw][0] == raw && [raw][1..] == [];
  }

  /** Lines 330-333 and the blank case: a block of blank and comment lines leaves the table
      alone, appends its comment lines to the pending ones, and sets `long_line` exactly when
      one of them ends in a backslash (it never clears it). */
  lemma {:induction false} CommentBlock(s: ParserState, block: seq<string>, utf8: bool)
    requires Decodable(block, utf8)
    requires AllBlankOrComment(block)
    ensures Run(s, block, utf8) ==
              ParserState(s.table, s.comments + CommentsOf(block), s.longLine || Continues(block))
    decreases |block|
  {
    if block != [] {
      assert block[0] in block;
      StepComment(s, block[0], utf8);
      var next := Step(s, block[0], utf8);
      assert forall k :: 0 <= k < |block[1..]| ==> block[1..][k] == block[k + 1];
      CommentBlock(next, block[1..], utf8);
      BlockCons(block);
      ConcatAssoc(s.comments, CommentsOf([block[0]]), CommentsOf(block[1..]));
    }
  }

  /** Blank lines change nothing (props_check.py:327-364 has no branch for them). */
  lemma {:induction false} BlankLinesIgnored(s: ParserState, block: seq<string>, utf8: bool)
    requires Decodable(block, utf8)
    requires AllBlank(block)
    ensures Run(s, block, utf8) == s
    decreases |block|
  {
    if block != [] {
      assert block[0] in block;
      assert forall k :: 0 <= k < |block[1..]| ==> block[1..][k] == block[k + 1];
      BlankLinesIgnored(Step(s, block[0], utf8), block[1..], utf8);
    }
  }

  /** Lines 362-364: a line that is neither blank, a comment nor holds `=` joins the pending
      comments and clears `long_line`, whether it was set or not; the table does not change. */
  lemma NoEqualsLineBuffered(s: ParserState, raw: string, utf8: bool)
    requires utf8 ==> NoSurrogateEscapes(raw)
    requires Strip(raw) != "" && !IsCommentLine(Strip(raw)) && '=' !in Strip(raw)
    ensures Step(s, raw, utf8) == ParserState(s.table, s.comments + [Strip(raw)], false)
  {
  }

  /** A stripped line that the loop reads as `key=value` when `long_line` is off. */
  predicate IsEntryLine(line: string)
  {
    line != "" && !IsCommentLine(line) && '=' in line
  }

  /** Lines 330-359: after blank and comment lines none of which ends in a backslash, a
      `key=value` line records its split key and value with the collected comments (`None`
      when there are none), and leaves no pending comments and `long_line` off. */
  lemma CommentsAttachToNextEntry(s: ParserState, block: seq<string>, raw: string, utf8: bool)
    requires Decodable(block + [raw], utf8)
    requires AllBlankOrComment(block)
    requires !s.longLine && !Continues(block)
    requires IsEntryLine(Strip(raw))
    ensures utf8 ==> NoSurrogateEscapes(Strip(raw))
    ensures var kv := SplitEntry(Strip(raw), utf8);
            Run(s, block + [raw], utf8) ==
              ParserState(Add(s.table, kv.0, Entry(kv.1, Attached(s.comments + CommentsOf(block)))), [], false)
  {
    RunAppend(s, block, [raw], utf8);
    assert raw in block + [raw];
    if utf8 { NoSurrogateStrip(raw); }
    CommentBlock(s, block, utf8);
    var mid := Run(s, block, utf8);
    assert [raw][1..] == [];
    assert Run(mid, [raw], utf8) == Step(mid, raw, utf8);
  }

  /** Lines 332-336 and 362-364: while `long_line` is set, blank lines are skipped and the
      next non-comment line, even one holding `=`, joins the pending comments and clears
      the flag; the table does not change. */
  lemma LongLineSwallowsNext(s: ParserState, blanks: seq<string>, raw: string, utf8: bool)
    requires Decodable(blanks + [raw], utf8)
    requires AllBlank(blanks)
    requires s.longLine
    requires Strip(raw) != "" && !IsCommentLine(Strip(raw))
    ensures Run(s, blanks + [raw], utf8) == ParserState(s.table, s.comments + [Strip(raw)], false)
  {
    RunAppend(s, blanks, [raw], utf8);
    BlankLinesIgnored(s, blanks, utf8);
    assert raw in blanks + [raw];
    assert [raw][1..] == [];
    assert Run(s, [raw], utf8) == Step(s, raw, utf8);
  }

  /** What every table the parser builds satisfies: each key maps to a non-empty list of
      distinct `(value, comments)` pairs, keys are space-escaped and hold no `=`, and an
      attached comment list is never empty. */
  ghost predicate WellFormed(t: Table)
  {
    && Valid(t)
    && (forall k :: k in t.entries ==> t.entries[k] != [] && Distinct(t.entries[k]))
    && (forall k :: k in t.entries ==> SpacesEscaped(k) && '=' !in k)
    && (forall k, e :: k in t.entries && e in t.entries[k] ==> e.comments != Some([]))
  }

  /** A character absent from `s` is absent from every slice of it. */
  lemma NotInSlice(s: string, a: nat, b: nat, c: char)
    requires a <= b <= |s| && c !in s
    ensures c !in s[a..b]
  {
  }

  /** The key `SplitEntry` produces is space-escaped and holds no `=`. */
  lemma SplitKeyShape(line: string, utf8: bool)
    requires '=' in line
    requires utf8 ==> NoSurrogateEscapes(line)
    ensures SpacesEscaped(SplitEntry(line, utf8).0) && '=' !in SplitEntry(line, utf8).0
  {
    var i := IndexOf(line, '=');
    var k := line[..i];
    NotInSlice(k, StripStart(k), StripStart(k) + |Strip(k)|, '=');
    EscapedKeepsOtherChars(Strip(k), '=');
    EscapedHasSpacesEscaped(Strip(k));
  }

  /** Recording an entry whose key and comments have the right shape keeps the table
      well formed. */
  lemma AddWellFormed(t: Table, key: string, e: Entry)
    requires WellFormed(t)
    requires SpacesEscaped(key) && '=' !in key && e.comments != Some([])
    ensures WellFormed(Add(t, key, e))
  {
    var r := Add(t, key, e);
    AddSpec(t, key, e);
    forall k, x | k in r.entries && x in r.entries[k] ensures x.comments != Some([]) {
      if k == key && key in t.entries {
        assert x == e || x in t.entries[k];
      }
    }
  }

  /** One line keeps the table well formed. */
  lemma StepWellFormed(s: ParserState, raw: string, utf8: bool)
    requires WellFormed(s.table)
    requires utf8 ==> NoSurrogateEscapes(raw)
    ensures WellFormed(Step(s, raw, utf8).table)
  {
    var line := Strip(raw);
    if !IsCommentLine(line) && line != "" && '=' in line && !s.longLine {
      if utf8 { NoSurrogateStrip(raw); }
      KeyValueWellFormed(s, line, utf8);
    }
  }

  /** Recording an accepted line keeps the table well formed. */
  lemma KeyValueWellFormed(s: ParserState, line: string, utf8: bool)
    requires WellFormed(s.table)
    requires '=' in line && (utf8 ==> NoSurrogateEscapes(line))
    ensures WellFormed(KeyValueStep(s, line, utf8).table)
  {
    var kv := SplitEntry(line, utf8);
    SplitKeyShape(line, utf8);
    AddWellFormed(s.table, kv.0, Entry(kv.1, Attached(s.comments)));
  }

  /** Every table the parser builds is well formed. */
  lemma {:induction false} RunWellFormed(s: ParserState, lines: seq<string>, utf8: bool)
    requires WellFormed(s.table) && Decodable(lines, utf8)
    ensures WellFormed(Run(s, lines, utf8).table)
    decreases |lines|
  {
    if lines != [] {
      assert lines[0] in lines;
      StepWellFormed(s, lines[0], utf8);
      assert forall k :: 0 <= k < |lines[1..]| ==> lines[1..][k] == lines[k + 1];
      RunWellFormed(Step(s, lines[0], utf8), lines[1..], utf8);
    }
  }

  lemma ParseWellFormed(lines: seq<string>, utf8: bool)
    requires Decodable(lines, utf8)
    ensures WellFormed(Parse(lines, utf8))
  {
    RunWellFormed(Start, lines, utf8);
  }

  /** One line only adds to the table. */
  lemma StepExtends(s: ParserState, raw: string, utf8: bool)
    requires WellFormed(s.table)
    requires utf8 ==> NoSurrogateEscapes(raw)
    ensures Extends(s.table, Step(s, raw, utf8).table)
  {
    var line := Strip(raw);
    if !IsCommentLine(line) && line != "" && '=' in line && !s.longLine {
      if utf8 { NoSurrogateStrip(raw); }
      var kv := SplitEntry(line, utf8);
      AddExtends(s.table, kv.0, Entry(kv.1, Attached(s.comments)));
    } else {
      ExtendsReflexive(s.table);
    }
  }

  /** The parser never drops or reorders what it has recorded: the key order of the
      dict and each key's entry list keep file order. */
  lemma {:induction false} RunExtends(s: ParserState, lines: seq<string>, utf8: bool)
    requires WellFormed(s.table) && Decodable(lines, utf8)
    ensures Extends(s.table, Run(s, lines, utf8).table)
    decreases |lines|
  {
    if lines == [] {
      ExtendsReflexive(s.table);
    } else {
      assert lines[0] in lines;
      var t := s.table;
      var next := Step(s, lines[0], utf8);
      StepWellFormed(s, lines[0], utf8);
      StepExtends(s, lines[0], utf8);
      assert forall k :: 0 <= k < |lines[1..]| ==> lines[1..][k] == lines[k + 1];
      RunExtends(next, lines[1..], utf8);
      var u := Run(next, lines[1..], utf8).table;
      assert Run(s, lines, utf8).table == u;
      PrefixTransitive(t.order, next.table.order, u.order);
      forall k | k in t.entries ensures k in u.entries && IsPrefix(t.entries[k], u.entries[k]) {
        EntryPrefixTransitive(t.entries[k], next.table.entries[k], u.entries[k]);
      }
    }
  }
}
