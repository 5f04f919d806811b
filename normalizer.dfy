/**
  The key and value normalisation helpers: `escape_spaces` (props_check.py:482-497),
  `decode_unicode_escapes` (props_check.py:472-479) and the human-readable display form
  of a key, `decode_unicode_escapes(key).replace('\\ ', ' ')` (props_check.py:117, 154-155).
 */
module KeyNormalizer {
  import opened Text

  // ---------------------------------------------------------------------------
  // escape_spaces
  // ---------------------------------------------------------------------------

  /** Position `i` holds a space that is not already preceded by a backslash. */
  predicate NeedsEscape(s: string, i: nat)
    requires i < |s|
  {
    s[i] == ' ' && (i == 0 || s[i - 1] != '\\')
  }

  /** What `escape_spaces` appends to its result for position `i` of its input. */
  function EscapedAt(s: string, i: nat): string
    requires i < |s|
  {
    if NeedsEscape(s, i) then "\\ " else [s[i]]
  }

  /** The value `escape_spaces(s)` builds: the pieces for positions 0, 1, ... in order. */
  function Escaped(s: string): string
    decreases |s|
  {
    if s == [] then [] else Escaped(s[..|s| - 1]) + EscapedAt(s, |s| - 1)
  }

  /** Every space is immediately preceded by a backslash (the invariant of stored keys). */
  predicate SpacesEscaped(t: string)
  {
    forall k :: 0 <= k < |t| && t[k] == ' ' ==> k > 0 && t[k - 1] == '\\'
  }

  /** `escape_spaces`: replaces every space not preceded by a backslash with `\ `. */
  method EscapeSpaces(s: string) returns (r: string)
    ensures r == Escaped(s)
  {
    if ' ' !in s {
      NoSpaceUnchanged(s);
      return s;
    }
    r := "";
    for i := 0 to |s|
      invariant r == Escaped(s[..i])
    {
      assert s[..i + 1][..i] == s[..i];
      if s[i] == ' ' {
        if i == 0 || s[i - 1] != '\\' {
          r := r + "\\ ";
        } else {
          r := r + [s[i]];
        }
      } else {
        r := r + [s[i]];
      }
    }
    assert s[..|s|] == s;
  }

  /** A string without spaces is returned unchanged. */
  lemma {:induction false} NoSpaceUnchanged(s: string)
    requires ' ' !in s
    ensures Escaped(s) == s
    decreases |s|
  {
    if s != [] {
      NoSpaceUnchanged(s[..|s| - 1]);
    }
  }

  /** The escaped form ends with the same character as the input. */
  lemma EscapedLast(s: string)
    requires s != []
    ensures Escaped(s) != [] && Escaped(s)[|Escaped(s)| - 1] == s[|s| - 1]
  {
  }

  /** Every space in the output of `escape_spaces` is immediately preceded by a backslash. */
  lemma {:induction false} EscapedHasSpacesEscaped(s: string)
    ensures SpacesEscaped(Escaped(s))
    decreases |s|
  {
    if s != [] {
      var p := s[..|s| - 1];
      EscapedHasSpacesEscaped(p);
      if !NeedsEscape(s, |s| - 1) && s[|s| - 1] == ' ' {
        assert p[|p| - 1] == '\\';
        EscapedLast(p);
      }
    }
  }

  /** A string whose spaces are all escaped already is left unchanged. */
  lemma {:induction false} EscapedFixpoint(t: string)
    requires SpacesEscaped(t)
    ensures Escaped(t) == t
    decreases |t|
  {
    if t != [] {
      var p := t[..|t| - 1];
      assert SpacesEscaped(p) by {
        forall k | 0 <= k < |p| && p[k] == ' ' ensures k > 0 && p[k - 1] == '\\' {
          assert t[k] == ' ';
        }
      }
      EscapedFixpoint(p);
      assert t == p + [t[|t| - 1]];
    }
  }

  /** `escape_spaces` is idempotent. */
  lemma EscapeIdempotent(s: string)
    ensures Escaped(Escaped(s)) == Escaped(s)
  {
    EscapedHasSpacesEscaped(s);
    EscapedFixpoint(Escaped(s));
  }

  /** Escaping adds only backslashes: any other character occurs in the output iff it
      occurs in the input. */
  lemma {:induction false} EscapedKeepsOtherChars(s: string, c: char)
    requires c != '\\'
    ensures c in Escaped(s) <==> c in s
    decreases |s|
  {
    if s != [] {
      var p := s[..|s| - 1];
      EscapedKeepsOtherChars(p, c);
      assert s == p + [s[|s| - 1]];
    }
  }

  // ---------------------------------------------------------------------------
  // replace('\\ ', ' ')
  // ---------------------------------------------------------------------------

  /** `s.replace('\\ ', ' ')`: every backslash immediately followed by a space is dropped.
      The pattern cannot overlap itself, so scanning from the end finds the same
      occurrences as Python's scan from the start. */
  function Unescape(s: string): string
    decreases |s|
  {
    if |s| >= 2 && s[|s| - 2] == '\\' && s[|s| - 1] == ' ' then Unescape(s[..|s| - 2]) + " "
    else if s == [] then []
    else Unescape(s[..|s| - 1]) + [s[|s| - 1]]
  }

  /** Appending a character that does not complete a `\\ ` pair appends it. */
  lemma UnescapeSnoc(x: string, c: char)
    requires c != ' ' || x == [] || x[|x| - 1] != '\\'
    ensures Unescape(x + [c]) == Unescape(x) + [c]
  {
    assert (x + [c])[..|x|] == x;
  }

  /** Appending a `\\ ` pair appends a space. */
  lemma UnescapePair(x: string)
    ensures Unescape(x + "\\ ") == Unescape(x) + " "
  {
    assert (x + "\\ ")[..|x|] == x;
  }

  /** The step of `UnescapeEscaped` for a last character that is not a space. */
  lemma UnescapeEscapedOther(s: string)
    requires s != [] && s[|s| - 1] != ' '
    requires Unescape(Escaped(s[..|s| - 1])) == Unescape(s[..|s| - 1])
    ensures Unescape(Escaped(s)) == Unescape(s)
  {
    var p := s[..|s| - 1];
    var c := s[|s| - 1];
    var x := Escaped(p);
    assert Escaped(s) == x + [c];
    UnescapeSnoc(x, c);
    UnescapeSnoc(p, c);
    LastSplit(s);
  }

  /** The step of `UnescapeEscaped` for a space that gets escaped. */
  lemma UnescapeEscapedSpace(s: string)
    requires s != [] && NeedsEscape(s, |s| - 1)
    requires Unescape(Escaped(s[..|s| - 1])) == Unescape(s[..|s| - 1])
    ensures Unescape(Escaped(s)) == Unescape(s)
  {
    var p := s[..|s| - 1];
    var x := Escaped(p);
    assert Escaped(s) == x + "\\ ";
    UnescapePair(x);
    UnescapeSnoc(p, ' ');
    LastSplit(s);
  }

  /** A last character that needs no escape is kept as it is. */
  lemma EscapedKeep(s: string)
    requires s != [] && !NeedsEscape(s, |s| - 1)
    ensures Escaped(s) == Escaped(s[..|s| - 1]) + [s[|s| - 1]]
  {
  }

  /** Appending a backslash and then a space appends a space. */
  lemma UnescapePairSnoc(x: string)
    ensures Unescape(x + ['\\'] + [' ']) == Unescape(x) + [' ']
  {
    assert (x + ['\\'] + [' '])[..|x|] == x;
  }

  /** The step of `UnescapeEscaped` for a space that is already escaped. */
  lemma UnescapeEscapedPair(s: string)
    requires |s| >= 2 && s[|s| - 1] == ' ' && s[|s| - 2] == '\\'
    requires Unescape(Escaped(s[..|s| - 2])) == Unescape(s[..|s| - 2])
    ensures Unescape(Escaped(s)) == Unescape(s)
  {
    var p := s[..|s| - 1];
    var q := s[..|s| - 2];
    assert p[..|p| - 1] == q;
    EscapedKeep(p);
    EscapedKeep(s);
    LastSplit(s);
    LastSplit(p);
    UnescapePairSnoc(Escaped(q));
    UnescapePairSnoc(q);
  }

  /** The display form of a key does not depend on whether its spaces were escaped. */
  lemma {:induction false} UnescapeEscaped(s: string)
    ensures Unescape(Escaped(s)) == Unescape(s)
    decreases |s|
  {
    if s != [] {
      var n := |s|;
      if s[n - 1] != ' ' {
        UnescapeEscaped(s[..n - 1]);
        UnescapeEscapedOther(s);
      } else if NeedsEscape(s, n - 1) {
        UnescapeEscaped(s[..n - 1]);
        UnescapeEscapedSpace(s);
      } else {
        UnescapeEscaped(s[..n - 2]);
        UnescapeEscapedPair(s);
      }
    }
  }

  /** Without backslashes there is nothing to unescape. */
  lemma {:induction false} UnescapeNoBackslash(s: string)
    requires '\\' !in s
    ensures Unescape(s) == s
    decreases |s|
  {
    if s != [] {
      var p := s[..|s| - 1];
      var c := s[|s| - 1];
      assert '\\' !in p && c != '\\' by {
        forall i | 0 <= i < |p| ensures p[i] != '\\' { assert p[i] == s[i]; }
      }
      UnescapeNoBackslash(p);
      assert Unescape(p + [c]) == p + [c] by {
        UnescapeSnoc(p, c);
      }
      LastSplit(s);
    }
  }

  /** When the input has no backslash, every backslash in its escaped form is followed
      by a space. */
  lemma {:induction false} EscapedBackslashesPrecedeSpaces(s: string)
    requires '\\' !in s
    ensures forall i :: 0 <= i < |Escaped(s)| && Escaped(s)[i] == '\\' ==>
              i + 1 < |Escaped(s)| && Escaped(s)[i + 1] == ' '
    decreases |s|
  {
    if s != [] {
      var p := s[..|s| - 1];
      EscapedBackslashesPrecedeSpaces(p);
      var x := Escaped(p);
      var piece := EscapedAt(s, |s| - 1);
      assert Escaped(s) == x + piece;
      forall i | 0 <= i < |x + piece| && (x + piece)[i] == '\\'
        ensures i + 1 < |x + piece| && (x + piece)[i + 1] == ' '
      {
        if i < |x| {
          assert x[i] == '\\';
        }
      }
    }
  }

  // ---------------------------------------------------------------------------
  // decode_unicode_escapes
  // ---------------------------------------------------------------------------

  predicate IsHexDigit(c: char)
  {
    '0' <= c <= '9' || 'a' <= c <= 'f' || 'A' <= c <= 'F'
  }

  /** The value of one hexadecimal digit, as `int(c, 16)`. */
  function HexValue(c: char): (n: nat)
    requires IsHexDigit(c)
    ensures n < 16
  {
    if '0' <= c <= '9' then c as int - '0' as int
    else if 'a' <= c <= 'f' then c as int - 'a' as int + 10
    else c as int - 'A' as int + 10
  }

  /** The regular expression `\\u([0-9a-fA-F]{4})` matches at position `i`. */
  predicate EscapeAt(s: string, i: int)
  {
    && 0 <= i && i + 6 <= |s|
    && s[i] == '\\' && s[i + 1] == 'u'
    && IsHexDigit(s[i + 2]) && IsHexDigit(s[i + 3]) && IsHexDigit(s[i + 4]) && IsHexDigit(s[i + 5])
  }

  /** The code point the four hex digits of a match at `i` denote. */
  function EscapeCode(s: string, i: int): (n: nat)
    requires EscapeAt(s, i)
    ensures n < 0x1_0000
  {
    4096 * HexValue(s[i + 2]) + 256 * HexValue(s[i + 3]) + 16 * HexValue(s[i + 4]) + HexValue(s[i + 5])
  }

  predicate IsSurrogate(n: int)
  {
    0xD800 <= n < 0xE000
  }

  /** No `\uHHHH` in `s` denotes a UTF-16 surrogate; such a code point is not a
      character value, so the model excludes it. */
  predicate NoSurrogateEscapes(s: string)
  {
    forall i :: 0 <= i < |s| && EscapeAt(s, i) ==> !IsSurrogate(EscapeCode(s, i))
  }

  /** `'\\u' in s`. */
  predicate HasBackslashU(s: string)
  {
    exists i :: 0 <= i < |s| - 1 && s[i] == '\\' && s[i + 1] == 'u'
  }

  /** Every slice of a string without surrogate escapes is without them too. */
  lemma NoSurrogateSlice(s: string, a: nat, b: nat)
    requires a <= b <= |s|
    requires NoSurrogateEscapes(s)
    ensures NoSurrogateEscapes(s[a..b])
  {
    var t := s[a..b];
    forall i | 0 <= i < |t| && EscapeAt(t, i) ensures !IsSurrogate(EscapeCode(t, i)) {
      assert t[i..i + 6] == s[a + i..a + i + 6];
      assert EscapeAt(s, a + i);
      assert EscapeCode(t, i) == EscapeCode(s, a + i);
    }
  }

  lemma NoSurrogateSuffix(s: string, a: nat)
    requires a <= |s|
    requires NoSurrogateEscapes(s)
    ensures NoSurrogateEscapes(s[a..])
  {
    NoSurrogateSlice(s, a, |s|);
    assert s[a..|s|] == s[a..];
  }

  /** A match at the front that is not a surrogate, followed by a string without
      surrogate escapes, gives a string without surrogate escapes. */
  lemma NoSurrogatePrepend(s: string)
    requires EscapeAt(s, 0) && !IsSurrogate(EscapeCode(s, 0))
    requires NoSurrogateEscapes(s[6..])
    ensures NoSurrogateEscapes(s)
  {
    var rest := s[6..];
    forall i | 0 <= i < |s| && EscapeAt(s, i) ensures !IsSurrogate(EscapeCode(s, i)) {
      if i != 0 {
        assert 6 <= i by {
          assert s[1] == 'u' && IsHexDigit(s[2]) && IsHexDigit(s[3]);
          assert IsHexDigit(s[4]) && IsHexDigit(s[5]);
        }
        assert s[i..i + 6] == rest[i - 6..i];
        assert EscapeAt(rest, i - 6);
        assert EscapeCode(s, i) == EscapeCode(rest, i - 6);
      }
    }
  }

  /** `re.sub(r'\\u([0-9a-fA-F]{4})', ..., s)`: scanning from the left, every match is
      replaced by the character it denotes and scanning resumes after it; everything
      else is copied. Without any `\u` in the input it changes nothing. */
  function Substitute(s: string): (r: string)
    requires NoSurrogateEscapes(s)
    ensures !HasBackslashU(s) ==> r == s
    decreases |s|
  {
    if s == [] then []
    else if EscapeAt(s, 0) then
      NoSurrogateSuffix(s, 6);
      [EscapeCode(s, 0) as char] + Substitute(s[6..])
    else
      NoSurrogateSuffix(s, 1);
      assert !HasBackslashU(s) ==> !HasBackslashU(s[1..]) by {
        if HasBackslashU(s[1..]) {
          var i :| 0 <= i < |s[1..]| - 1 && s[1..][i] == '\\' && s[1..][i + 1] == 'u';
          assert s[i + 1] == '\\' && s[i + 2] == 'u';
        }
      }
      [s[0]] + Substitute(s[1..])
  }

  /** `decode_unicode_escapes`: returns its input when it holds no `\u`, and otherwise
      the substitution; the early return never changes the result. */
  function DecodeUnicode(s: string): (r: string)
    requires NoSurrogateEscapes(s)
    ensures r == Substitute(s)
  {
    if !HasBackslashU(s) then s else Substitute(s)
  }

  /** The display form of a key: unicode escapes decoded, escaped spaces unescaped. */
  function DisplayKey(key: string): string
    requires NoSurrogateEscapes(key)
  {
    Unescape(DecodeUnicode(key))
  }

  /** For a key written without backslashes, the display form of its stored
      (space-escaped) form is the key itself. */
  lemma DisplayOfEscapedKey(key: string)
    requires '\\' !in key
    ensures NoSurrogateEscapes(Escaped(key))
    ensures DisplayKey(Escaped(key)) == key
  {
    var e := Escaped(key);
    EscapedBackslashesPrecedeSpaces(key);
    assert !HasBackslashU(e);
    assert NoSurrogateEscapes(e);
    UnescapeEscaped(key);
    UnescapeNoBackslash(key);
  }

  /** A worked example: `a\\u0041b` decodes to `aAb`. */
  lemma DecodeExample(s: string)
    requires s == "a\\u0041b"
    ensures NoSurrogateEscapes(s) && DecodeUnicode(s) == "aAb"
  {
    assert !EscapeAt(s, 0) && EscapeAt(s, 1) && EscapeCode(s, 1) == 0x41;
    forall i | EscapeAt(s, i) ensures i == 1 { }
    assert NoSurrogateEscapes(s);
    assert s[1..][6..] == "b";
    assert Substitute("b") == "b";
    assert Substitute(s[1..]) == "A" + Substitute("b");
  }

  /** A worked example: a `\\u` followed by fewer than four hex digits is left as it is. */
  lemma ShortEscapeExample(t: string)
    requires t == "\\u00G1"
    ensures NoSurrogateEscapes(t) && DecodeUnicode(t) == t
  {
    assert !IsHexDigit(t[4]);
    forall i | EscapeAt(t, i) ensures false { }
    assert HasBackslashU(t) by { assert t[0] == '\\' && t[1] == 'u'; }
    assert t[1..] == "u00G1";
    assert !HasBackslashU(t[1..]);
  }

  // ---------------------------------------------------------------------------
  // The inverse direction: writing every character as `\uHHHH`
  // ---------------------------------------------------------------------------

  /** The lower-case hexadecimal digit for `d`. */
  function HexDigit(d: nat): (c: char)
    requires d < 16
    ensures IsHexDigit(c) && HexValue(c) == d
  {
    if d < 10 then ('0' as int + d) as char else ('a' as int + d - 10) as char
  }

  /** `\uHHHH` for a character of the Basic Multilingual Plane. */
  function EscapeChar(c: char): string
    requires c as int < 0x1_0000
  {
    var n := c as int;
    "\\u" + [HexDigit(n / 4096), HexDigit(n / 256 % 16), HexDigit(n / 16 % 16), HexDigit(n % 16)]
  }

  /** Every character written as `\uHHHH`. */
  function EscapeAll(t: string): string
    requires forall i :: 0 <= i < |t| ==> t[i] as int < 0x1_0000
  {
    if t == [] then [] else EscapeChar(t[0]) + EscapeAll(t[1..])
  }

  lemma HexDigitsOf(n: nat)
    requires n < 0x1_0000
    ensures 4096 * (n / 4096) + 256 * (n / 256 % 16) + 16 * (n / 16 % 16) + n % 16 == n
  {
    var q := n / 16;
    assert n == 16 * q + n % 16;
    var q2 := q / 16;
    assert q == 16 * q2 + q % 16;
    assert q2 == n / 256;
    assert q2 == 16 * (q2 / 16) + q2 % 16;
    assert q2 / 16 == n / 4096;
  }

  lemma EscapeCharDecodes(c: char, rest: string)
    requires c as int < 0x1_0000
    ensures EscapeAt(EscapeChar(c) + rest, 0)
    ensures EscapeCode(EscapeChar(c) + rest, 0) == c as int
    ensures (EscapeChar(c) + rest)[6..] == rest
  {
    HexDigitsOf(c as int);
  }

  /** Decoding undoes escaping every character: `decode_unicode_escapes` is a left
      inverse of writing a string entirely as `\uHHHH` sequences. */
  lemma {:induction false} DecodeEscapeAll(t: string)
    requires forall i :: 0 <= i < |t| ==> t[i] as int < 0x1_0000
    ensures NoSurrogateEscapes(EscapeAll(t))
    ensures Substitute(EscapeAll(t)) == t
  {
    if t != [] {
      var rest := EscapeAll(t[1..]);
      DecodeEscapeAll(t[1..]);
      var s := EscapeChar(t[0]) + rest;
      assert EscapeAll(t) == s;
      EscapeCharDecodes(t[0], rest);
      NoSurrogatePrepend(s);
      assert (EscapeCode(s, 0) as char) == t[0];
      assert t == [t[0]] + t[1..];
    }
  }
}
