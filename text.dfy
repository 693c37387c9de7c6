/**
  The Python string primitives the core relies on, over `string` (= `seq<char>`):
  `str.isspace`, the regex classes `\s` and `\w`, `in`, `find`, `replace`,
  `split`/`join` on one separator character, and `strip`/`lstrip`.
 */
module Text {
  import opened Wrappers

  /** Python's `str.isspace`, which is also what `\s` and argument-less `strip` use. */
  predicate IsSpace(c: char) {
    ('\t' <= c <= '\r') || ('\U{1C}' <= c <= ' ') || c == '\U{85}' || c == '\U{A0}'
    || c == '\U{1680}' || ('\U{2000}' <= c <= '\U{200A}') || c == '\U{2028}'
    || c == '\U{2029}' || c == '\U{202F}' || c == '\U{205F}' || c == '\U{3000}'
  }

  /** The regex class `\w`, restricted to ASCII: letters, digits and underscore. */
  predicate IsWordChar(c: char) {
    ('a' <= c <= 'z') || ('A' <= c <= 'Z') || ('0' <= c <= '9') || c == '_'
  }

  /** The regex class `[a-zA-Z_]`. */
  predicate IsIdentStart(c: char) {
    ('a' <= c <= 'z') || ('A' <= c <= 'Z') || c == '_'
  }

  /** A non-empty word run starting with a letter or underscore. */
  predicate IsIdentifier(w: string) {
    |w| > 0 && IsIdentStart(w[0]) && forall k :: 0 <= k < |w| ==> IsWordChar(w[k])
  }

  predicate IsAsciiChar(c: char) {
    c <= '\U{7F}'
  }

  predicate IsAscii(s: string) {
    forall k :: 0 <= k < |s| ==> IsAsciiChar(s[k])
  }

  predicate StartsWith(s: string, prefix: string) {
    |prefix| <= |s| && s[..|prefix|] == prefix
  }

  predicate EndsWith(s: string, suffix: string) {
    |suffix| <= |s| && s[|s| - |suffix|..] == suffix
  }

  /** Python's substring test `t in s`. */
  predicate Contains(s: string, t: string)
    decreases |s|
  {
    StartsWith(s, t) || (|s| > 0 && Contains(s[1..], t))
  }

  /** Python's `s.find(t)`, with `None` for -1. */
  function IndexOf(s: string, t: string): (r: Option<nat>)
    ensures r.Some? ==> r.value + |t| <= |s| && s[r.value..r.value + |t|] == t
    ensures r.Some? ==> forall j :: 0 <= j < r.value ==> !StartsWith(s[j..], t)
    ensures r.None? <==> !Contains(s, t)
    decreases |s|
  {
    if StartsWith(s, t) then Some(0)
    else if |s| == 0 then None
    else
      var rest := IndexOf(s[1..], t);
      if rest.None? then None
      else
        assert forall j :: 1 <= j <= |s| ==> s[j..] == s[1..][j - 1..];
        Some(rest.value + 1)
  }

  lemma {:induction false} ContainsAt(s: string, t: string, i: nat)
    requires i + |t| <= |s| && s[i..i + |t|] == t
    ensures Contains(s, t)
    decreases i
  {
    if i > 0 {
      assert s[1..][i - 1..i - 1 + |t|] == t;
      ContainsAt(s[1..], t, i - 1);
    }
  }

  lemma ContainsPrefix(t: string, b: string)
    ensures Contains(t + b, t)
  {
    assert (t + b)[..|t|] == t;
  }

  lemma ContainsConcat(a: string, b: string, t: string)
    ensures Contains(a, t) ==> Contains(a + b, t)
    ensures Contains(b, t) ==> Contains(a + b, t)
  {
    if Contains(a, t) {
      var i := IndexOf(a, t).value;
      ContainsSlice(a + b, a, t, 0, i);
    }
    if Contains(b, t) {
      var i := IndexOf(b, t).value;
      ContainsSlice(a + b, b, t, |a|, i);
    }
  }

  /** An occurrence inside a slice of `s` is an occurrence in `s`. */
  lemma ContainsSlice(s: string, part: string, t: string, offset: nat, i: nat)
    requires offset + |part| <= |s| && s[offset..offset + |part|] == part
    requires i + |t| <= |part| && part[i..i + |t|] == t
    ensures Contains(s, t)
  {
    forall k | 0 <= k < |t|
      ensures s[offset + i + k] == t[k]
    {
      assert s[offset + i + k] == s[offset..offset + |part|][i + k];
      assert part[i + k] == part[i..i + |t|][k];
    }
    assert s[offset + i..offset + i + |t|] == t;
    ContainsAt(s, t, offset + i);
  }

  /** A string made of `n` spaces, Python's `' ' * n`. */
  function Spaces(n: nat): (r: string)
    ensures |r| == n
  {
    if n == 0 then "" else Spaces(n - 1) + " "
  }

  /**
    Python's `s.replace(key, repl)`: every non-overlapping occurrence, left to right;
    an empty key matches before every character and at the end.
   */
  function ReplaceAll(s: string, key: string, repl: string): string
    decreases |s|
  {
    if |key| == 0 then
      if |s| == 0 then repl else repl + [s[0]] + ReplaceAll(s[1..], key, repl)
    else if StartsWith(s, key) then repl + ReplaceAll(s[|key|..], key, repl)
    else if |s| == 0 then ""
    else [s[0]] + ReplaceAll(s[1..], key, repl)
  }

  lemma {:induction false} ReplaceAbsent(s: string, key: string, repl: string)
    requires !Contains(s, key)
    ensures ReplaceAll(s, key, repl) == s
    decreases |s|
  {
    if |s| > 0 {
      ReplaceAbsent(s[1..], key, repl);
    }
  }

  /** Replacing never introduces a character that neither `s` nor `repl` holds. */
  lemma {:induction false} ReplaceChars(s: string, key: string, repl: string, c: char)
    requires c !in s && c !in repl
    ensures c !in ReplaceAll(s, key, repl)
    decreases |s|
  {
    if |key| == 0 {
      if |s| > 0 {
        ReplaceChars(s[1..], key, repl, c);
      }
    } else if StartsWith(s, key) {
      ReplaceChars(s[|key|..], key, repl, c);
    } else if |s| > 0 {
      ReplaceChars(s[1..], key, repl, c);
    }
  }

  /** When the replacement holds the key itself, every line holding the key still holds it. */
  lemma {:induction false} ReplaceKeepsKey(s: string, key: string, repl: string)
    requires Contains(repl, key) && Contains(s, key)
    ensures Contains(ReplaceAll(s, key, repl), key)
    decreases |s|
  {
    if |key| == 0 {
      assert StartsWith(ReplaceAll(s, key, repl), key);
    } else if StartsWith(s, key) {
      ContainsConcat(repl, ReplaceAll(s[|key|..], key, repl), key);
    } else {
      ReplaceKeepsKey(s[1..], key, repl);
      ContainsConcat([s[0]], ReplaceAll(s[1..], key, repl), key);
    }
  }

  /** A replacement that is longer than the key lengthens every line holding the key. */
  lemma {:induction false} ReplaceGrows(s: string, key: string, repl: string)
    requires |key| < |repl|
    ensures |ReplaceAll(s, key, repl)| >= |s|
    ensures Contains(s, key) ==> |ReplaceAll(s, key, repl)| > |s|
    decreases |s|
  {
    if |key| == 0 {
      if |s| > 0 {
        ReplaceGrows(s[1..], key, repl);
      }
    } else if StartsWith(s, key) {
      ReplaceGrows(s[|key|..], key, repl);
    } else if |s| > 0 {
      ReplaceGrows(s[1..], key, repl);
    }
  }

  /** Python's `s.split(sep)` for a one-character separator. */
  function Split(s: string, sep: char): (parts: seq<string>)
    ensures |parts| >= 1
    decreases |s|
  {
    if |s| == 0 then [""]
    else
      var rest := Split(s[1..], sep);
      if s[0] == sep then [""] + rest
      else [[s[0]] + rest[0]] + rest[1..]
  }

  /** No part of a split holds the separator. */
  lemma {:induction false} SplitParts(s: string, sep: char)
    ensures forall k :: 0 <= k < |Split(s, sep)| ==> sep !in Split(s, sep)[k]
    decreases |s|
  {
    if |s| > 0 {
      SplitParts(s[1..], sep);
    }
  }

  /** Python's `sep.join(parts)` for a one-character separator. */
  function Join(parts: seq<string>, sep: char): string
  {
    if |parts| == 0 then ""
    else if |parts| == 1 then parts[0]
    else parts[0] + [sep] + Join(parts[1..], sep)
  }

  /** Splitting and joining again gives back the text. */
  lemma {:induction false} JoinSplit(s: string, sep: char)
    ensures Join(Split(s, sep), sep) == s
    decreases |s|
  {
    if |s| > 0 {
      JoinSplit(s[1..], sep);
      var rest := Split(s[1..], sep);
      if s[0] == sep {
        assert ([""] + rest)[1..] == rest;
      } else {
        var parts := [[s[0]] + rest[0]] + rest[1..];
        if |rest| > 1 {
          assert parts[1..] == rest[1..];
          assert Join(rest, sep) == rest[0] + [sep] + Join(rest[1..], sep);
        }
      }
    }
  }

  lemma {:induction false} SplitNoSep(s: string, sep: char)
    requires sep !in s
    ensures Split(s, sep) == [s]
    decreases |s|
  {
    if |s| > 0 {
      SplitNoSep(s[1..], sep);
      assert s[0] != sep;
      assert [s[0]] + s[1..] == s;
    }
  }

  lemma {:induction false} SplitCons(a: string, sep: char, b: string)
    requires sep !in a
    ensures Split(a + [sep] + b, sep) == [a] + Split(b, sep)
    decreases |a|
  {
    if |a| == 0 {
      assert a + [sep] + b == [sep] + b;
      assert ([sep] + b)[1..] == b;
    } else {
      SplitCons(a[1..], sep, b);
      assert (a + [sep] + b)[1..] == a[1..] + [sep] + b;
      assert [a[0]] + a[1..] == a;
    }
  }

  /** Joining lines free of the separator and splitting again gives back the lines. */
  lemma {:induction false} SplitJoin(parts: seq<string>, sep: char)
    requires |parts| >= 1
    requires forall k :: 0 <= k < |parts| ==> sep !in parts[k]
    ensures Split(Join(parts, sep), sep) == parts
    decreases |parts|
  {
    if |parts| == 1 {
      SplitNoSep(parts[0], sep);
    } else {
      SplitJoin(parts[1..], sep);
      SplitCons(parts[0], sep, Join(parts[1..], sep));
      assert [parts[0]] + parts[1..] == parts;
    }
  }

  /** Python's `s.lstrip()`. */
  function LStrip(s: string): (r: string)
    ensures |r| <= |s| && r == s[|s| - |r|..]
    decreases |s|
  {
    if |s| > 0 && IsSpace(s[0]) then LStrip(s[1..]) else s
  }

  /** Python's `s.rstrip()`. */
  function RStrip(s: string): (r: string)
    ensures |r| <= |s| && r == s[..|r|]
    decreases |s|
  {
    if |s| > 0 && IsSpace(s[|s| - 1]) then RStrip(s[..|s| - 1]) else s
  }

  /** Python's `s.strip()`. */
  function Strip(s: string): string {
    RStrip(LStrip(s))
  }

  /** The end of the run of `\w` characters that starts at `i`. */
  function WordEnd(s: string, i: nat): (e: nat)
    requires i <= |s|
    ensures i <= e <= |s|
    decreases |s| - i
  {
    if i < |s| && IsWordChar(s[i]) then WordEnd(s, i + 1) else i
  }

  /** The end of the run of `\s` characters that starts at `i`. */
  function SpaceEnd(s: string, i: nat): (e: nat)
    requires i <= |s|
    ensures i <= e <= |s|
    decreases |s| - i
  {
    if i < |s| && IsSpace(s[i]) then SpaceEnd(s, i + 1) else i
  }

  /** `lstrip` removes exactly the leading whitespace. */
  lemma {:induction false} LStripSpaces(s: string)
    ensures forall k :: 0 <= k < |s| - |LStrip(s)| ==> IsSpace(s[k])
    ensures LStrip(s) == [] || !IsSpace(LStrip(s)[0])
    decreases |s|
  {
    if |s| > 0 && IsSpace(s[0]) {
      LStripSpaces(s[1..]);
      assert forall k :: 1 <= k < |s| ==> s[k] == s[1..][k - 1];
    }
  }

  /** `rstrip` removes exactly the trailing whitespace. */
  lemma {:induction false} RStripSpaces(s: string)
    ensures forall k :: |RStrip(s)| <= k < |s| ==> IsSpace(s[k])
    ensures RStrip(s) == [] || !IsSpace(RStrip(s)[|RStrip(s)| - 1])
    decreases |s|
  {
    if |s| > 0 && IsSpace(s[|s| - 1]) {
      RStripSpaces(s[..|s| - 1]);
    }
  }

  /** A word run: word characters up to the end, then a non-word character or the end. */
  lemma {:induction false} WordEndRun(s: string, i: nat)
    requires i <= |s|
    ensures forall k :: i <= k < WordEnd(s, i) ==> IsWordChar(s[k])
    ensures WordEnd(s, i) == |s| || !IsWordChar(s[WordEnd(s, i)])
    decreases |s| - i
  {
    if i < |s| && IsWordChar(s[i]) {
      WordEndRun(s, i + 1);
    }
  }

  /** A whitespace run, as `\s*` matches it. */
  lemma {:induction false} SpaceEndRun(s: string, i: nat)
    requires i <= |s|
    ensures forall k :: i <= k < SpaceEnd(s, i) ==> IsSpace(s[k])
    ensures SpaceEnd(s, i) == |s| || !IsSpace(s[SpaceEnd(s, i)])
    decreases |s| - i
  {
    if i < |s| && IsSpace(s[i]) {
      SpaceEndRun(s, i + 1);
    }
  }

  /** Decimal digits of a natural number, Python's `str(n)`. */
  function NatToString(n: nat): (r: string)
    ensures |r| > 0 && IsAscii(r) && '\n' !in r
    decreases n
  {
    var digit := [(48 + n % 10) as char];
    if n < 10 then digit else NatToString(n / 10) + digit
  }
}
