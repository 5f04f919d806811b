# props_check: a verified model of the `.properties` normalisation pipeline

`props_check.py` reads Java-style `.properties` files. It turns each file into a table
from key to the list of `(value, comments)` pairs recorded for that key. It sorts
the table by key and buckets the keys by their first two dot-separated segments. It
then writes the grouped table back out as normalised text, and it compares two
tables. This project models that pipeline in Dafny and proves what each stage
computes.

Modules, one file each:

- `Wrappers` (`wrappers.dfy`): `Option`.
- `Text` (`text.dfy`): the string primitives the script uses.
  - `strip`, `split`, `join`, `startswith` and `endswith`;
  - the first `=` of a line;
  - Python's code-point order on strings, and `sorted` on a set of strings.
- `KeyNormalizer` (`normalizer.dfy`): `escape_spaces`, `decode_unicode_escapes` and the display form of a key.
- `PropertyTable` (`table.dfy`): the parsed table and its dict update. It is an insertion-ordered dict, written as an order sequence plus a map.
- `Parser` (`parser.dfy`): the line loop of `load_properties_file`. These are the specification functions `Step`, `Run` and `Parse`, the methods that perform the loop, and the lemmas about them.
- `Grouping` (`grouping.dfy`): `sort_properties_by_key` and `group_properties_by_prefix`.
- `Formatter` (`formatter.dfy`): `format_grouped_properties`. The specification functions build the output line by line, and the methods perform its nested loops.
- `Differ` (`differ.dfy`): `compare_dict_keys` and `compare_dict_values`.
- `Pipeline` (`pipeline.dfy`): the reformatting flow of lines 299-308 (sort, group, drop the comments when asked, format). It connects the stages: the grouping meets what the formatter needs, every value of the table is written, the duplicate report is exact, and a written key line reads back as its key and value. It also holds a file whose key is lost when the written text is read back.

Each loop of the script is modelled as a method with a `while` loop. Its contract says
it computes what a specification function defines, and the properties are lemmas
about those functions.

Points where the code's behaviour is easy to misread; the model follows the code:

- The duplicate test of the dict update (line 353) compares the whole `(value, comments)` pair. The same value with other comments is appended.
- A non-empty line without `=` that is not a comment goes into the comment buffer and clears `long_line` (lines 362-364).
- A comment line that does not end in `\` leaves `long_line` as it was (lines 330-333).
- The `## first.second` header is written when the bucket holds more than one *key* (line 426).
- Second-level buckets are written in creation order (line 425). For sorted keys this is not the order of the bucket names, because `-` sorts before `.`.
- A key's comments are written again before every one of its values (lines 432-437).
- `format_grouped_properties` writes the comments only when the comments dict is non-empty (line 432). An empty dict counts as none.

## Model

| member | source | states |
|---|---|---|
| KeyNormalizer.EscapeSpaces | props_check.py:482-497 | the loop returns `Escaped(s)`: each position contributes `\ ` for a space not preceded by a backslash and the character itself otherwise |
| KeyNormalizer.NoSpaceUnchanged | props_check.py:483-484 | a string without a space is returned unchanged |
| KeyNormalizer.EscapedHasSpacesEscaped | props_check.py:487-495 | every space in the result is immediately preceded by a backslash |
| KeyNormalizer.EscapedFixpoint | props_check.py:487-495 | a string whose spaces are already all escaped is returned unchanged |
| KeyNormalizer.EscapeIdempotent | props_check.py:482-497 | escaping twice is escaping once |
| KeyNormalizer.EscapedKeepsOtherChars | props_check.py:482-497 | escaping only adds backslashes: any other character is in the result iff it is in the input |
| KeyNormalizer.EscapedBackslashesPrecedeSpaces | props_check.py:487-495 | for an input without backslashes, every backslash of the result is followed by a space |
| KeyNormalizer.UnescapeEscaped | props_check.py:117 | `replace('\\ ', ' ')` gives the same string for a key whether or not its spaces were escaped |
| KeyNormalizer.UnescapeNoBackslash | props_check.py:117 | `replace('\\ ', ' ')` leaves a string without backslashes unchanged |
| KeyNormalizer.DisplayOfEscapedKey | props_check.py:117 | the display form of a stored key written without backslashes is the key as written |
| KeyNormalizer.HexValue | props_check.py:477 | `int(c, 16)` of a hex digit is below 16 |
| KeyNormalizer.EscapeCode | props_check.py:476-479 | the code point denoted by a `\uHHHH` match is below 0x10000 |
| KeyNormalizer.Substitute | props_check.py:479 | the regular expression substitution changes nothing in a string without `\u` |
| KeyNormalizer.DecodeUnicode | props_check.py:472-479 | returns the substitution: the early return for a string without `\u` agrees with it |
| KeyNormalizer.DecodeExample | props_check.py:472-479 | `a\u0041b` decodes to `aAb` |
| KeyNormalizer.ShortEscapeExample | props_check.py:479 | `\u00G1` (fewer than four hex digits) is left as it is |
| KeyNormalizer.HexDigit | props_check.py:477 | the digit written for a value below 16 is a hex digit whose value it is |
| KeyNormalizer.EscapeCharDecodes | props_check.py:476-479 | a character written as `\uHHHH` is matched at the front and denotes that character |
| KeyNormalizer.DecodeEscapeAll | props_check.py:472-479 | decoding a string written entirely as `\uHHHH` sequences gives the string back |
| Text.Strip | props_check.py:327 | `strip()` returns a slice of its input that neither starts nor ends with whitespace |
| Text.StripIdempotent | props_check.py:327 | stripping twice is stripping once |
| Text.StripAround | props_check.py:327 | around a non-space character, `strip()` trims only the whitespace at the outer ends |
| Text.IndexOf | props_check.py:337 | the split point is the first `=`: the line has `=` there and none before it |
| Text.Split | props_check.py:381 | `split('.')` gives at least one piece, at least two iff there is a dot, no piece holds a dot, and the first piece is the text before the first dot |
| Text.JoinSplit | props_check.py:381 | joining the pieces of a split with the separator gives the string back |
| Text.SplitJoin | props_check.py:326 | splitting at a separator the joined pieces do not hold gives the pieces back, as reading the written text line by line does |
| Text.LessTransitive | props_check.py:376 | Python's string order is transitive |
| Text.LessTotal | props_check.py:376 | Python's string order is total |
| Text.SortedSet | props_check.py:526-527 | `sorted` of a set lists exactly its elements, each once |
| Text.SortedSetAscending | props_check.py:526-527 | `sorted` of a set is strictly ascending |
| Text.AscendingUnique | props_check.py:526-527 | two strictly ascending lists of the same elements are equal |
| PropertyTable.Add | props_check.py:352-356 | after the update the key is bound and the new pair is in its list |
| PropertyTable.AddSpec | props_check.py:352-356 | the update keeps the dict invariant and touches only the key. A new key is appended to the order. A non-empty list gets the pair appended unless an equal pair is already there. Lists stay free of duplicates |
| PropertyTable.AddExtends | props_check.py:352-356 | the update only adds keys at the end and only appends to lists |
| Parser.SplitKey | props_check.py:337-339 | the key is the text before the first `=`, stripped and space-escaped |
| Parser.SplitValue | props_check.py:337-343 | the value is the text after the first `=`, stripped, and decoded only when `utf8` is set |
| Parser.SplitKeyValue | props_check.py:337-343 | the key and value of an accepted line are those of `SplitEntry` |
| Parser.Record | props_check.py:352-356 | the dict update is `Add` |
| Parser.ProcessLine | props_check.py:327-364 | one pass of the loop body moves the three loop variables as `Step` does |
| Parser.RunUnfold | props_check.py:326-364 | the loop over lines `i..` is one step followed by the loop over lines `i+1..` |
| Parser.LoadLines | props_check.py:320-366 | the loop over the lines returns `Parse` of them |
| Parser.LoadProperties | props_check.py:320-372 | a file that cannot be read gives `None`, and a readable one gives `Some` of its parsed table |
| Parser.RunAppend | props_check.py:326-364 | the loop over `a + b` is the loop over `a` followed by the loop over `b` |
| Parser.StepComment | props_check.py:330-333 | a blank or comment line leaves the table alone and appends the comment |
| Parser.CommentBlock | props_check.py:330-333 | a block of blank and comment lines leaves the table alone. It appends its comment lines to the pending ones and sets `long_line` iff one of them ends in `\`; it never clears the flag |
| Parser.BlankLinesIgnored | props_check.py:326-364 | blank lines change nothing |
| Parser.NoEqualsLineBuffered | props_check.py:362-364 | a non-blank, non-comment line without `=` joins the comment buffer and clears `long_line`, whether it was set or not, and the table does not change |
| Parser.CommentsAttachToNextEntry | props_check.py:330-359 | after comment lines none of which ends in `\`, a `key=value` line records its split key and value. The collected comments are attached, or `None` when there are none, and the buffer is emptied and `long_line` cleared |
| Parser.LongLineSwallowsNext | props_check.py:332-364 | with `long_line` set, blank lines are skipped and the next non-comment line joins the comments, even with an `=`. That line clears the flag and the table does not change |
| Parser.SplitKeyShape | props_check.py:337-339 | a split key has its spaces escaped and holds no `=` |
| Parser.AddWellFormed | props_check.py:345-356 | recording an accepted entry keeps the table well formed |
| Parser.StepWellFormed | props_check.py:327-364 | one line keeps the table well formed |
| Parser.RunWellFormed | props_check.py:326-364 | the loop keeps the table well formed |
| Parser.ParseWellFormed | props_check.py:320-366 | every key of a parsed table has a non-empty list of distinct pairs. Keys are space-escaped and hold no `=`, and no attached comment list is empty |
| Parser.StepExtends | props_check.py:327-364 | a line only adds keys at the end and only appends to lists |
| Parser.RunExtends | props_check.py:326-364 | entries keep file order: the table at any point is extended, never rewritten, by the lines after it |
| Grouping.AscendingDistinct | props_check.py:376 | a strictly ascending key list has no repeated key |
| Grouping.SortByKey | props_check.py:375-376 | sorting binds the same keys to the same lists, in strictly ascending key order |
| Grouping.SortByKeyUnique | props_check.py:375-376 | any valid table with those associations in ascending key order is the sorted one |
| Grouping.BucketOfShape | props_check.py:381-411 | a key with a dot starts with its two dot-free bucket names joined by `.`, followed by the end or another `.`; a key without a dot is a single |
| Grouping.PieceIsPrefix | props_check.py:381 | the first piece of a split is a prefix, followed by the end or the separator |
| Grouping.Values | props_check.py:385-389 | a key's flattened values are its entries' values, in order |
| Grouping.GroupStep | props_check.py:384-411 | the grouping and the comments dict each advance by one key per iteration |
| Grouping.FlattenEntries | props_check.py:385-395 | the inner loop collects the values and joins the comments |
| Grouping.BucketNames | props_check.py:381-411 | the names chosen are `(parts[0], parts[1])` for two or more parts and `('_singles', '')` otherwise |
| Grouping.GroupByPrefix | props_check.py:379-413 | the loops return `Groups` and `Comments` of the table |
| Grouping.AddCommentsSpec | props_check.py:391-395 | for a key not yet present, the comment loop binds it to its joined comments when they are not empty and leaves every other key alone |
| Grouping.PlaceSpec | props_check.py:396-411 | placing a key changes only its own group and bucket. A new bucket name is appended, and a new key is bound to its values |
| Grouping.GroupComments | props_check.py:391-395 | the comments dict holds exactly the keys with comments, each bound to the concatenation of its comment lists in order |
| Grouping.SecondLevelsDistinct | props_check.py:396-411 | each group names each bucket once |
| Grouping.PlaceLevels | props_check.py:396-411 | placing a key keeps every group's bucket names in creation order |
| Grouping.GroupLevels | props_check.py:396-411 | a group exists iff some key creates a bucket in it, and its bucket names are those buckets, once each, in creation order |
| Grouping.PlaceSound | props_check.py:396-411 | placing a key keeps every bucket holding only its own keys |
| Grouping.GroupSound | props_check.py:396-411 | every key in a bucket is a table key whose bucket that is |
| Grouping.PlaceKeeps | props_check.py:396-411 | placing a new key leaves every key placed before where it was |
| Grouping.GroupPlacement | props_check.py:385-411 | every key sits in its own bucket, bound to its entries' values in order |
| Grouping.GroupTable | props_check.py:379-413 | for a table, every key is in exactly the bucket `BucketOf` names, with its values, and the comments dict is exactly the keys with comments |
| Grouping.BucketAt | props_check.py:381-411 | a key whose first two segments are known has those as its bucket |
| Grouping.CreationOrderExample | props_check.py:425 | for the sorted keys `a.b-c.x`, `a.b.x`, bucket `b-c` is created before `b` although `b` sorts first |
| Grouping.SecondLevelsPair | props_check.py:396-411 | two keys of a group with different second names create their buckets in order |
| Formatter.CommentLines | props_check.py:433-437 | one line per comment, each indented unless it starts with `#` or `!` |
| Formatter.DupLines | props_check.py:451-453 | one `## key` line per flagged key, in order |
| Formatter.EmitComments | props_check.py:433-437 | the comment loop appends the key's comment lines |
| Formatter.EmitValue | props_check.py:432-442 | one value appends the comment lines, then the `key=value` line |
| Formatter.EmitValues | props_check.py:431-442 | the value loop appends `ValueLines` |
| Formatter.EmitKey | props_check.py:428-442 | one key appends its duplicate mark and flag when it has several values, then its value lines |
| Formatter.EmitNextKey | props_check.py:427-442 | one turn of the key loop appends the next key's output |
| Formatter.EmitKeys | props_check.py:427-442 | the key loop appends `KeysOut` of the keys |
| Formatter.EmitBucket | props_check.py:425-442 | one bucket appends its header when it holds more than one key, then its keys in ascending order |
| Formatter.EmitNextBucket | props_check.py:425-442 | one turn of the bucket loop appends the next bucket's output |
| Formatter.EmitGroup | props_check.py:423-442 | one group appends its `# f` header, then its buckets in creation order |
| Formatter.EmitNextGroup | props_check.py:423-442 | one turn of the group loop appends the next group's output |
| Formatter.EmitBody | props_check.py:423-442 | the group loop appends `BodyOut`, with the groups in ascending order |
| Formatter.EmitReport | props_check.py:447-453 | the report is its header and one line per flagged key, present only when some key is flagged |
| Formatter.FormatGrouped | props_check.py:416-457 | the function returns `Format`: header, groups, report and footer joined by newlines, with two trailing newlines |
| Formatter.ValueLinesLength | props_check.py:431-442 | a key writes `|cs| + 1` lines per value |
| Formatter.ValueLinesAt | props_check.py:431-442 | line `j` of block `i` is comment `j`. The block's last line is the `i`-th value's `key=value` line |
| Formatter.ValueWritten | props_check.py:431-442 | every value of a key is written on a `key=value` line |
| Formatter.KeyOutShape | props_check.py:428-442 | a key is flagged iff it has more than one value, and then its lines start with the duplicate mark. Its line count is the mark plus one block per value |
| Formatter.KeysOutDups | props_check.py:427-430 | over a run of keys, exactly the listed keys with several values are flagged |
| Formatter.BucketOutDups | props_check.py:425-430 | a bucket flags exactly its keys with several values |
| Formatter.NamesOutDups | props_check.py:425-430 | a group's buckets flag exactly the keys flagged in one of them |
| Formatter.FirstsOutDups | props_check.py:423-430 | a run of groups flags exactly the keys flagged in one of them |
| Formatter.BodyDups | props_check.py:423-430 | the report lists exactly the keys with more than one value in some bucket |
| Formatter.KeysOutDupsDistinct | props_check.py:427-430 | a run of distinct keys flags no key twice |
| Formatter.BucketOutDupsDistinct | props_check.py:425-430 | a bucket flags no key twice |
| Formatter.NamesOutDupsDistinct | props_check.py:425-430 | the distinct buckets of a group whose buckets hold only their own keys flag no key twice |
| Formatter.FirstsOutDupsDistinct | props_check.py:423-430 | distinct groups that own their buckets flag no key twice |
| Formatter.BodyDupsDistinct | props_check.py:423-453 | for a grouping whose buckets hold only their own keys, the duplicate report names no key twice |
| Formatter.KeysOutHas | props_check.py:427-442 | every value of every listed key is written |
| Formatter.BucketOutHas | props_check.py:425-442 | every value of every key of a bucket is written |
| Formatter.NamesOutHas | props_check.py:425-442 | every value in every listed bucket is written |
| Formatter.GroupOutHas | props_check.py:423-442 | every value in every bucket of a group is written |
| Formatter.FirstsOutHas | props_check.py:423-442 | every value in every bucket of every listed group is written |
| Formatter.FormatHas | props_check.py:416-457 | no value is lost: every value of every key in every bucket appears on a `key=value` line of the output |
| Formatter.FormatEnds | props_check.py:455-457 | the text always ends with `\n#####\n` and two more newlines |
| Formatter.FormatLinesHead | props_check.py:420-421 | with a non-empty source name, the source line is the first line |
| Formatter.FormatStarts | props_check.py:420-457 | with a non-empty source name, the text opens with `##### Source file: <name> #####` and a newline |
| Formatter.KeyOutExample | props_check.py:428-442 | a key with values `1` and `2` and comment `c` writes the mark, then `  c`, `x=1`, `  c`, `x=2`, and is flagged |
| Differ.MissingKeys | props_check.py:524-529 | the two lists are exactly `keys(b) - keys(a)` and `keys(a) - keys(b)`, each strictly ascending |
| Differ.MissingKeysUnique | props_check.py:526-527 | they are the only strictly ascending listings of those differences |
| Differ.MissingKeysSwap | props_check.py:524-529 | swapping the tables swaps the lists |
| Differ.MissingKeysExample | props_check.py:524-529 | tables keyed `{a, b}` and `{b, c}` give `([c], [a])` |
| Differ.CollectSpec | props_check.py:533-538 | exactly the walked keys present in both tables with different first values are collected, with both values. Distinct keys give distinct entries |
| Differ.OnlyFirstValues | props_check.py:536-537 | only first values matter: tables agreeing on keys and first values collect the same |
| Differ.Insert | props_check.py:540 | insertion keeps the elements and adds the new one |
| Differ.InsertAscending | props_check.py:540 | inserting a new key into an ascending list keeps it ascending |
| Differ.Sort | props_check.py:540 | sorting is a permutation |
| Differ.SortAscending | props_check.py:540 | sorting entries with distinct keys gives strictly ascending keys |
| Differ.CollectSelf | props_check.py:532-540 | a table compared with itself collects nothing |
| Differ.SortedDifferences | props_check.py:532-540 | the sorted result holds exactly the differing common keys with their first values, ascending, and is empty for identical tables |
| Differ.CollectDifferences | props_check.py:533-538 | the loop collects `Collect` over the keys of the first table in order |
| Differ.CompareValues | props_check.py:532-540 | the result holds exactly the common keys whose first values differ, with both values. It is sorted by key and empty when the tables are equal |
| Pipeline.GroupedConsistent | props_check.py:379-418 | the output of `group_properties_by_prefix` for a table meets what `format_grouped_properties` needs of it: each group's bucket names are its buckets, once each |
| Pipeline.GroupedOwned | props_check.py:379-413 | in the output of the grouping every bucket holds only its own keys and each group names each bucket once |
| Pipeline.TableWritten | props_check.py:299-308 | every value of every key of the table is written on a `key=value` line of the formatted output |
| Pipeline.ReformatKeepsValues | props_check.py:299-308 | after sorting and grouping, with or without comments, every value of the input table is written |
| Pipeline.ReportExact | props_check.py:444-453 | the duplicate report names each key recorded with more than one value, and only those, each once |
| Pipeline.ReportedKey | props_check.py:426-430 | a key is flagged in some bucket of the grouping iff the table holds it with more than one value |
| Pipeline.KeyLineReadBack | props_check.py:337-343 | the `key=value` line written for a key as the parser stores it and a stripped value (lines 439-442, with or without spaces) is read back as that key and that value |
| Pipeline.OneEntryParsed | props_check.py:337-359 | a file of one line that reads as `key=value` holds exactly that entry, with no comments attached |
| Pipeline.RereadShape | props_check.py:330-336 | the layout the formatter writes for one key under a group header ending in `\` (source comment, blank, that header, the key line, blank, footer comment, blanks) yields no entries when read back: the key line is swallowed |
| Pipeline.RoundTripLost | props_check.py:330-336 | the one-line file `x\.y=v` parses to one entry, is written with the group header `# x\`, and the written text parses to no entries |

## Left out

- Reading the file: opening it, UTF-8 decoding and the bare `except` (lines 321-323, 368-372) are not modelled. The input is the file's lines, already decoded and split, and `None` stands for a file that could not be read.
- The `print` calls in `format_grouped_properties` (lines 449-453). They are console output and do not affect the returned text.
- The command line, `props_clean`, `props_compare`, `props_locate`, `grep_repo`, `parse_file`, `save_output`, `file_exists` and `dir_exists` are not modelled. They are argument handling, console output, git subprocesses, multiprocessing and file system access around the core.
- Grouping: `grouped_comments[key] = comments` followed by `+=` (lines 393-395) extends, in place, the list object that the input table still holds. The model keeps only the resulting concatenation and leaves the input table unchanged.
- Place: the merge branch of lines 401-403 and 407-409 is modelled, but it cannot be reached from a table, whose keys are distinct.
- Text.IsSpace: `str.strip()` strips the characters for which `str.isspace()` holds. The model uses that fixed set of characters and does not consult the Unicode database.
- KeyNormalizer.DecodeUnicode: requires that no `\uHHHH` in its input denotes a UTF-16 surrogate (`\uD800`-`\uDFFF`). Python's `chr` makes a lone surrogate there, which a Dafny `char` cannot hold. The parser carries this as a precondition on every line of the file when `utf8` is set, although only the values of `key=value` lines are decoded.
- Differ.First: gives `""` for a key that is missing or bound to an empty list. The source would raise `IndexError` instead. Differ.CompareValues and Differ.CollectDifferences therefore require every list to be non-empty, which every parsed table satisfies (Parser.ParseWellFormed).
- Differ.Sort: `sorted` of `(key, a-first, b-first)` triples is modelled as insertion by key. The keys are distinct, so ordering the triples is ordering their keys.
- The display form in `props_locate` (lines 154-155) unescapes spaces before decoding, the reverse of the order at line 117. Only the form of line 117 is modelled.
- Reading the written text back is not a property of the program. A key whose first segment ends in `\` gets a group header ending in `\`, which sets `long_line` when read back and swallows the next line, so the key is lost (Pipeline.RoundTripLost). What does hold is the per-line read-back, Pipeline.KeyLineReadBack.
- Pipeline.Reformat: the composition of lines 299-308 carries no contract of its own; its properties are Pipeline.ReformatKeepsValues and Pipeline.RoundTripLost.
