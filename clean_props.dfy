/**
  What `clean_manim_code` guarantees: ASCII output ending in a newline, no
  fence left by the fence pass, the text starting at the first
  `from manim import`, the trim cutting only at a non-code line, and the
  LaTeX calls rewritten with their argument kept.
 */
module CleanProperties {
  import opened Wrappers
  import opened Text
  import opened CleanCode

  // ---------------------------------------------------------------------
  // Substrings
  // ---------------------------------------------------------------------

  /** An occurrence in a slice is an occurrence in the text. */
  lemma SliceContains(s: string, t: string, a: nat, b: nat)
    requires a <= b <= |s|
    ensures Contains(s[a..b], t) ==> Contains(s, t)
  {
    if Contains(s[a..b], t) {
      var i := IndexOf(s[a..b], t).value;
      ContainsSlice(s, s[a..b], t, a, i);
    }
  }

  /** An occurrence of `t` holds its first character. */
  lemma ContainsFirst(s: string, t: string)
    requires |t| > 0
    ensures Contains(s, t) ==> t[0] in s
  {
    if Contains(s, t) {
      var i := IndexOf(s, t).value;
      assert s[i] == s[i..i + |t|][0];
    }
  }

  /** An occurrence inside `s[..p]` starts before `p`. */
  lemma PrefixOccurrence(s: string, t: string, p: nat)
    requires p <= |s| && |t| > 0
    ensures Contains(s[..p], t) ==> exists v :: 0 <= v < p && StartsWith(s[v..], t)
  {
    if Contains(s[..p], t) {
      var v := IndexOf(s[..p], t).value;
      assert s[v..][..|t|] == s[..p][v..v + |t|];
      assert StartsWith(s[v..], t);
    }
  }

  // ---------------------------------------------------------------------
  // Fences
  // ---------------------------------------------------------------------

  /** After the cut no fence remains. */
  lemma CutLeavesNoFence(s: string)
    ensures !Contains(CutAtFence(s), Fence)
  {
    match IndexOf(s, Fence)
    case Some(p) => PrefixOccurrence(s, Fence, p);
    case None =>
  }

  /** Neither fence pass leaves a fence in the text. */
  lemma FencePassNoFence(s: string)
    ensures !Contains(FencePass(s), Fence)
    ensures !Contains(FencePassAsWritten(s), Fence)
  {
    CutLeavesNoFence(DropFirstOpenFence(s));
    CutLeavesNoFence(DropOpenFences(s, 0));
  }

  /** Positions without a backtick are copied one by one by the opening-fence substitution. */
  lemma {:induction false} DropOpenFencesCopies(s: string, i: nat, j: nat)
    requires i <= j <= |s|
    requires '`' !in s[i..j]
    ensures DropOpenFences(s, i) == s[i..j] + DropOpenFences(s, j)
    decreases j - i
  {
    if i < j {
      var part := s[i..j];
      assert s[i] == part[0];
      NoFenceAt(s, i);
      assert DropOpenFences(s, i) == [s[i]] + DropOpenFences(s, i + 1);
      assert s[i + 1..j] == part[1..];
      DropOpenFencesCopies(s, i + 1, j);
      var rest := DropOpenFences(s, j);
      assert part == [s[i]] + s[i + 1..j];
      assert [s[i]] + (s[i + 1..j] + rest) == ([s[i]] + s[i + 1..j]) + rest;
    }
  }

  /** No opening fence starts at a character other than a backtick. */
  lemma NoFenceAt(s: string, i: nat)
    requires i < |s| && s[i] != '`'
    ensures OpenFenceEnd(s, i) == None
  {
    assert s[i..][0] == s[i];
  }

  /** A fence line `"```python\n"` at the start is one opening-fence match, up to its newline. */
  lemma OpeningFenceMatch(s: string)
    requires |s| > 10 && s[..10] == "```python\n" && !IsSpace(s[10])
    ensures OpenFenceEnd(s, 0) == Some(10)
  {
    assert s[0..][..3] == Fence;
    assert s[3..][..6] == "python";
    assert SpaceEnd(s, 10) == 10;
    assert SpaceEnd(s, 9) == 10;
  }

  /** A line `"```\n"` followed by a non-space character is one opening-fence match. */
  lemma BareFenceMatch(s: string, c: nat)
    requires 0 < c && c + 4 < |s| && s[c - 1] == '\n' && s[c..c + 4] == "```\n" && !IsSpace(s[c + 4])
    ensures OpenFenceEnd(s, c) == Some(c + 4)
  {
    var line := s[c..c + 4];
    assert s[c..][..3] == line[..3] == Fence;
    assert s[c + 3] == line[3] == '\n';
    assert s[c + 3..][0] == '\n';
    assert SpaceEnd(s, c + 4) == c + 4;
    assert SpaceEnd(s, c + 3) == c + 4;
  }

  /** The first fence of `a + Fence + w`, when `a` has no backtick, is right after `a`. */
  lemma FirstFenceAfter(a: string, w: string)
    requires '`' !in a
    ensures IndexOf(a + Fence + w, Fence) == Some(|a|)
  {
    var u := a + Fence + w;
    assert u[|a|..|a| + 3] == Fence;
    assert StartsWith(u[|a|..], Fence) by {
      assert u[|a|..][..3] == u[|a|..|a| + 3];
    }
    ContainsAt(u, Fence, |a|);
    var v := IndexOf(u, Fence).value;
    assert u[v] == u[v..v + 3][0] == '`';
    assert forall k :: 0 <= k < |a| ==> u[k] == a[k] && a[k] != '`';
  }

  /**
    A reply `"```python\n" + body + "\n```\n" + tail`: as written, the closing
    fence line also matches the opening-fence pattern and is removed, so the
    cut finds no fence and the tail after the block stays in the code.
   */
  lemma ClosingFenceAsWritten(body: string, tail: string)
    requires '`' !in body && '`' !in tail
    requires |body| > 0 && !IsSpace(body[0]) && |tail| > 0 && !IsSpace(tail[0])
    ensures FencePassAsWritten("```python\n" + body + "\n```\n" + tail) == body + "\n" + tail
  {
    var s := "```python\n" + body + "\n```\n" + tail;
    var c := 11 + |body|;
    assert s[10..c] == body + "\n";
    assert s[c..c + 4] == "```\n";
    assert s[c + 4..] == tail;
    OpeningFenceMatch(s);
    DropOpenFencesCopies(s, 10, c);
    BareFenceMatch(s, c);
    DropOpenFencesCopies(s, c + 4, |s|);
    var kept := body + "\n" + tail;
    assert DropOpenFences(s, 0) == kept;
    ContainsFirst(kept, Fence);
  }

  /** The intended pass on the same reply keeps the block and drops what follows its closing fence. */
  lemma ClosingFenceIntended(body: string, tail: string)
    requires '`' !in body
    requires |body| > 0 && !IsSpace(body[0])
    ensures FencePass("```python\n" + body + "\n```" + tail) == body + "\n"
  {
    var s := "```python\n" + body + "\n```" + tail;
    OpeningFenceMatch(s);
    assert DropFirstOpenFence(s) == (body + "\n") + Fence + tail;
    FirstFenceAfter(body + "\n", tail);
  }

  // ---------------------------------------------------------------------
  // The anchor
  // ---------------------------------------------------------------------

  /** A whitespace run is the same run in a suffix of the text. */
  lemma {:induction false} SpaceEndShift(s: string, p: nat, i: nat)
    requires p + i <= |s|
    ensures SpaceEnd(s[p..], i) + p == SpaceEnd(s, p + i)
    decreases |s| - p - i
  {
    if p + i < |s| && IsSpace(s[p + i]) {
      SpaceEndShift(s, p, i + 1);
    }
  }

  /** `\s+w` matches the same way in a suffix of the text, shifted by its offset. */
  lemma SpacedWordShift(s: string, p: nat, i: nat, w: string)
    requires p + i <= |s|
    ensures SpacedWordEnd(s[p..], i, w).Some? == SpacedWordEnd(s, p + i, w).Some?
    ensures SpacedWordEnd(s[p..], i, w).Some? ==> SpacedWordEnd(s[p..], i, w).value + p == SpacedWordEnd(s, p + i, w).value
  {
    SpaceEndShift(s, p, i);
    var q := SpaceEnd(s, p + i);
    assert s[p..][q - p..] == s[q..];
  }

  /** `a\s+b\s+c` matches at `p` exactly when it matches at the start of `s[p..]`. */
  lemma SpacedWordsShift(s: string, p: nat, a: string, b: string, c: string)
    requires p <= |s|
    ensures SpacedWordsAt(s[p..], 0, a, b, c) == SpacedWordsAt(s, p, a, b, c)
  {
    assert s[p..][0..] == s[p..];
    if StartsWith(s[p..], a) {
      SpacedWordShift(s, p, |a|, b);
      var e := SpacedWordEnd(s, p + |a|, b);
      if e.Some? {
        SpacedWordShift(s, p, e.value - p, c);
      }
    }
  }

  /**
    The anchored text is a suffix holding no anchor before its start; when the
    text has an anchor, the result begins with `from`, white space, `manim`,
    white space, `import`, and otherwise the text is kept whole.
   */
  lemma AnchoredStart(s: string)
    ensures var r := Anchored(s);
      |r| <= |s| && r == s[|s| - |r|..]
      && (forall k :: 0 <= k < |s| - |r| ==> !AnchorAt(s, k))
    ensures (exists p :: 0 <= p <= |s| && AnchorAt(s, p)) ==> AnchorAt(Anchored(s), 0)
    ensures (forall p :: 0 <= p <= |s| ==> !AnchorAt(s, p)) ==> Anchored(s) == s
  {
    match FirstAnchor(s, 0)
    case Some(p) => SpacedWordsShift(s, p, "from", "manim", "import");
    case None =>
  }

  // ---------------------------------------------------------------------
  // The trailing trim
  // ---------------------------------------------------------------------

  /** A match of the call pattern always runs to the end of the text. */
  lemma CallMatchToEnd(s: string, p: nat)
    requires p <= |s| && CallMatchEnd(s, p).Some?
    ensures CallMatchEnd(s, p).value == |s|
  {
  }

  lemma {:induction false} FirstCallMatchToEnd(s: string, i: nat)
    requires i <= |s| && FirstCallMatch(s, i).Some?
    ensures FirstCallMatch(s, i).value == |s|
    decreases |s| - i
  {
    if CallMatchEnd(s, i).Some? {
      CallMatchToEnd(s, i);
    } else {
      FirstCallMatchToEnd(s, i + 1);
    }
  }

  /**
    The trim as written never removes anything: its search for a non-code
    line starts at the end of the text.
   */
  lemma TrimAsWrittenKeepsAll(s: string)
    ensures TrimAsWritten(s) == s
  {
    if FirstCallMatch(s, 0).Some? {
      FirstCallMatchToEnd(s, 0);
    }
  }

  /**
    The intended trim keeps a prefix that runs past the `)` closing the last
    call, and cuts only at the first non-code line after it; without a call,
    or without a `)` after it, the text is kept whole.
   */
  lemma TrimAfterLastCallCuts(s: string)
    ensures var r := TrimAfterLastCall(s);
      |r| <= |s| && r == s[..|r|] && (|r| < |s| ==> NonCodeAt(s, |r|))
    ensures LastCall(s, |s|).None? ==> TrimAfterLastCall(s) == s
    ensures LastCall(s, |s|).Some? && LastCall(s, |s|).value + 9 <= |s| ==>
      var c := CloseParen(s, LastCall(s, |s|).value + 9);
      var r := TrimAfterLastCall(s);
      (c.None? ==> r == s)
      && (c.Some? ==> c.value < |r| && forall k :: c.value < k < |r| ==> !NonCodeAt(s, k))
  {
  }

  // ---------------------------------------------------------------------
  // The line filter and the join
  // ---------------------------------------------------------------------

  lemma {:induction false} AsciiOnlyAscii(line: string)
    ensures IsAscii(AsciiOnly(line))
    ensures IsAscii(line) ==> AsciiOnly(line) == line
    decreases |line|
  {
    if |line| > 0 {
      var m := |line| - 1;
      AsciiOnlyAscii(line[..m]);
      assert line == line[..m] + [line[m]];
    }
  }

  /** Every kept line is ASCII; a script whose lines are all ASCII is kept as it is. */
  lemma {:induction false} FilterLinesAscii(lines: seq<string>)
    ensures forall k :: 0 <= k < |FilterLines(lines)| ==> IsAscii(FilterLines(lines)[k])
    ensures (forall k :: 0 <= k < |lines| ==> IsAscii(lines[k])) ==> FilterLines(lines) == lines
    decreases |lines|
  {
    if |lines| > 0 {
      var m := |lines| - 1;
      FilterLinesAscii(lines[..m]);
      AsciiOnlyAscii(lines[m]);
      if IsAscii(lines[m]) {
        assert !HasCjk(lines[m]) by {
          forall k | 0 <= k < |lines[m]|
            ensures !IsCjk(lines[m][k])
          {
            assert IsAsciiChar(lines[m][k]);
          }
        }
      }
      assert lines == lines[..m] + [lines[m]];
    }
  }

  /** Joining ASCII lines with a newline gives ASCII text. */
  lemma {:induction false} JoinAscii(parts: seq<string>)
    requires forall k :: 0 <= k < |parts| ==> IsAscii(parts[k])
    ensures IsAscii(Join(parts, '\n'))
    decreases |parts|
  {
    if |parts| > 1 {
      JoinAscii(parts[1..]);
      assert IsAscii(parts[0]);
    }
  }

  // ---------------------------------------------------------------------
  // The LaTeX rewrites
  // ---------------------------------------------------------------------

  /** The rewrite only adds ASCII characters. */
  lemma {:induction false} RewriteAscii(s: string, name: string, q: char)
    requires IsAscii(s)
    ensures IsAscii(RewriteCalls(s, name, q))
    decreases |s|
  {
    if |s| > 0 {
      match RawCallEnd(s, name, q)
      case Some(n) =>
        RewriteAscii(s[n..], name, q);
        var arg := s[|name| + 3..n - 2];
        assert IsAscii(arg) by {
          forall k | 0 <= k < |arg|
            ensures IsAsciiChar(arg[k])
          {
            assert arg[k] == s[|name| + 3 + k];
          }
        }
      case None =>
        RewriteAscii(s[1..], name, q);
    }
  }

  /** A final newline survives the rewrite: no match can end on it. */
  lemma {:induction false} RewriteKeepsNewline(s: string, name: string, q: char)
    requires EndsWith(s, "\n")
    ensures EndsWith(RewriteCalls(s, name, q), "\n")
    decreases |s|
  {
    match RawCallEnd(s, name, q)
    case Some(n) =>
      assert s[n - 1] == ')';
      RewriteKeepsNewline(s[n..], name, q);
    case None =>
      if |s| > 1 {
        RewriteKeepsNewline(s[1..], name, q);
      }
  }

  /** Text without `name(r<q>` is left as it is. */
  lemma {:induction false} RewriteUntouched(s: string, name: string, q: char)
    requires !Contains(s, name + "(r" + [q])
    ensures RewriteCalls(s, name, q) == s
    decreases |s|
  {
    if |s| > 0 {
      assert !StartsWith(s, name + "(r" + [q]);
      RewriteUntouched(s[1..], name, q);
    }
  }

  /** The quote run ends at the first `q`. */
  lemma QuoteEndAt(s: string, a: nat, e: nat, q: char)
    requires a <= e < |s| && s[e] == q
    requires forall k :: a <= k < e ==> s[k] != q
    ensures QuoteEnd(s, a, q) == e
  {
  }

  /** A call `name(r<q>…<q>)` with a non-empty argument free of `q` matches at the start. */
  lemma RawCallAt(s: string, name: string, q: char, e: nat)
    requires StartsWith(s, name + "(r" + [q])
    requires |name| + 3 < e && e + 1 < |s| && s[e] == q && s[e + 1] == ')'
    requires forall k :: |name| + 3 <= k < e ==> s[k] != q
    ensures RawCallEnd(s, name, q) == Some(e + 2)
  {
    QuoteEndAt(s, |name| + 3, e, q);
  }

  /** A call with a non-empty raw-string argument becomes `Text(r"…")` with the same argument. */
  lemma RewriteCall(name: string, q: char, arg: string, rest: string)
    requires |arg| > 0 && q !in arg
    ensures RewriteCalls(name + "(r" + [q] + arg + [q, ')'] + rest, name, q)
      == "Text(r\"" + arg + "\")" + RewriteCalls(rest, name, q)
  {
    var open := name + "(r" + [q];
    var s := open + arg + [q, ')'] + rest;
    var e := |open| + |arg|;
    assert s[..|open|] == open;
    assert s[|open|..e] == arg;
    forall k | |open| <= k < e
      ensures s[k] != q
    {
      assert s[k] == arg[k - |open|];
    }
    assert s[e] == q && s[e + 1] == ')';
    RawCallAt(s, name, q, e);
    assert s[e + 2..] == rest;
  }

  /** The call `name(r<q>arg<q>)` as it appears in the scene code. */
  function RawCall(name: string, q: char, arg: string): string {
    name + "(r" + [q] + arg + [q, ')']
  }

  /** A text that starts with `t` agrees with `t` at each of its positions. */
  lemma OpenChar(x: string, t: string, k: nat)
    requires k < |t|
    ensures StartsWith(x, t) ==> k < |x| && x[k] == t[k]
  {
    if StartsWith(x, t) {
      assert x[k] == x[..|t|][k];
    }
  }

  /** A text that starts with `t` starts with each prefix of `t`. */
  lemma OpenPrefix(x: string, t: string, j: nat)
    requires j <= |t|
    ensures StartsWith(x, t) ==> x[..j] == t[..j]
  {
    if StartsWith(x, t) {
      assert x[..j] == x[..|t|][..j];
    }
  }

  /** A pass over `t + r` copies `t` when no call opens inside `t`. */
  lemma {:induction false} RewriteSkips(t: string, r: string, name: string, q: char)
    requires forall k :: 0 <= k < |t| ==> !StartsWith((t + r)[k..], name + "(r" + [q])
    ensures RewriteCalls(t + r, name, q) == t + RewriteCalls(r, name, q)
    decreases |t|
  {
    if |t| == 0 {
      assert t + r == r;
    } else {
      var s := t + r;
      var open := name + "(r" + [q];
      assert s[0..] == s;
      assert RawCallEnd(s, name, q) == None by {
        assert !StartsWith(s, open);
      }
      assert RewriteCalls(s, name, q) == [s[0]] + RewriteCalls(s[1..], name, q);
      var u := t[1..];
      assert s[1..] == u + r;
      forall k | 0 <= k < |u|
        ensures !StartsWith((u + r)[k..], open)
      {
        assert (u + r)[k..] == s[k + 1..];
      }
      RewriteSkips(u, r, name, q);
      assert t == [t[0]] + u;
    }
  }

  /**
   * No `name2(r<q2>` opens inside a call `name(r<q>arg<q>)` unless `name` ends
   * with `name2` and the quotes agree, or `arg` itself holds `name2(r`.
   */
  lemma CallInert(name: string, q: char, arg: string, r: string, name2: string, q2: char, k: nat)
    requires (q == '"' || q == '\'') && (q2 == '"' || q2 == '\'')
    requires '(' !in name && '(' !in name2 && ')' !in name2 && q !in name2
    requires !Contains(arg, name2 + "(r")
    requires !(EndsWith(name, name2) && q == q2)
    requires k < |RawCall(name, q, arg)|
    ensures !StartsWith((RawCall(name, q, arg) + r)[k..], name2 + "(r" + [q2])
  {
    var c := RawCall(name, q, arg);
    var open := name2 + "(r" + [q2];
    var x := (c + r)[k..];
    var j := |name2|;
    assert |c| == |name| + |arg| + 5;
    if k + |open| > |c| {
      var i := |c| - 1 - k;
      assert x[i] == c[|c| - 1] == ')';
      assert open[i] != ')' by {
        if i < j {
          assert open[i] == name2[i];
        }
      }
      OpenChar(x, open, i);
    } else {
      assert x[j] == c[k + j] && x[j + 1] == c[k + j + 1];
      assert open[j] == '(' && open[j + 1] == 'r' && open[j + 2] == q2;
      if k + j < |name| {
        assert c[k + j] == name[k + j];
        OpenChar(x, open, j);
      } else if k + j == |name| {
        assert x[j + 2] == c[|name| + 2] == q;
        OpenChar(x, open, j + 2);
        assert x[..j] == c[k..|name|] == name[k..];
        assert open[..j] == name2;
        OpenPrefix(x, open, j);
      } else if k + j < |name| + 3 {
        OpenChar(x, open, j);
      } else if k < |name| + 3 {
        // the opening quote of the call falls on a character of `name2`
        var i := |name| + 2 - k;
        assert x[i] == c[|name| + 2] == q;
        assert open[i] == name2[i];
        OpenChar(x, open, i);
      } else if k + j + 1 < |name| + 3 + |arg| {
        // the window starts inside `arg` and holds `name2(r` there
        var p := k - |name| - 3;
        assert c[|name| + 3..|name| + 3 + |arg|] == arg;
        assert x[..j + 2] == arg[p..p + j + 2];
        assert open[..j + 2] == name2 + "(r";
        OpenPrefix(x, open, j + 2);
        OccurrenceAt(arg, name2 + "(r", p);
      } else {
        assert c[k + j + 1] == q;
        OpenChar(x, open, j + 1);
      }
    }
  }

  /** Where `u` sits inside `arg`, `arg` contains `u`. */
  lemma OccurrenceAt(arg: string, u: string, p: nat)
    ensures p + |u| <= |arg| && arg[p..p + |u|] == u ==> Contains(arg, u)
  {
    if p + |u| <= |arg| && arg[p..p + |u|] == u {
      ContainsAt(arg, u, p);
    }
  }

  /** A text that contains `a + b` contains `b`. */
  lemma ContainsTail(s: string, a: string, b: string)
    ensures Contains(s, a + b) ==> Contains(s, b)
  {
    if Contains(s, a + b) {
      var i := IndexOf(s, a + b).value;
      assert s[i + |a|..i + |a| + |b|] == s[i..i + |a + b|][|a|..] == b;
      ContainsAt(s, b, i + |a|);
    }
  }

  /** A pass copies a call that does not open one of its own. */
  lemma PassCopies(name: string, q: char, arg: string, r: string, name2: string, q2: char)
    requires (q == '"' || q == '\'') && (q2 == '"' || q2 == '\'')
    requires '(' !in name && '(' !in name2 && ')' !in name2 && q !in name2
    requires !Contains(arg, name2 + "(r")
    requires !(EndsWith(name, name2) && q == q2)
    ensures RewriteCalls(RawCall(name, q, arg) + r, name2, q2) == RawCall(name, q, arg) + RewriteCalls(r, name2, q2)
  {
    var c := RawCall(name, q, arg);
    forall k | 0 <= k < |c|
      ensures !StartsWith((c + r)[k..], name2 + "(r" + [q2])
    {
      CallInert(name, q, arg, r, name2, q2, k);
    }
    RewriteSkips(c, r, name2, q2);
  }

  /** A pass rewrites its own call into `Text(r"…")`. */
  lemma PassRewrites(name: string, q: char, arg: string, r: string)
    requires |arg| > 0 && q !in arg
    ensures RewriteCalls(RawCall(name, q, arg) + r, name, q) == RawCall("Text", '"', arg) + RewriteCalls(r, name, q)
  {
    assert "Text(r\"" + arg + "\")" == RawCall("Text", '"', arg);
    RewriteCall(name, q, arg, r);
  }

  /**
   * A `MathTex` or `Tex` call with a raw-string argument in either quote style
   * leaves the four rewrites as `Text(r"…")` with the same argument, and the
   * rest of the text is rewritten on its own.
   */
  lemma LatexCallBecomesText(name: string, q: char, arg: string, rest: string)
    requires (name == "MathTex" || name == "Tex") && (q == '"' || q == '\'')
    requires |arg| > 0 && q !in arg && !Contains(arg, "Tex(r")
    ensures RewriteLatex(RawCall(name, q, arg) + rest) == RawCall("Text", '"', arg) + RewriteLatex(rest)
  {
    NameEndings();
    ContainsTail(arg, "Math", "Tex(r");
    var r1 := RewriteCalls(rest, "MathTex", '"');
    var r2 := RewriteCalls(r1, "MathTex", '\'');
    var r3 := RewriteCalls(r2, "Tex", '"');
    if name == "MathTex" && q == '"' {
      PassRewrites(name, q, arg, rest);
      PassCopies("Text", '"', arg, r1, "MathTex", '\'');
      PassCopies("Text", '"', arg, r2, "Tex", '"');
      PassCopies("Text", '"', arg, r3, "Tex", '\'');
    } else if name == "MathTex" {
      PassCopies(name, q, arg, rest, "MathTex", '"');
      PassRewrites(name, q, arg, r1);
      PassCopies("Text", '"', arg, r2, "Tex", '"');
      PassCopies("Text", '"', arg, r3, "Tex", '\'');
    } else if q == '"' {
      PassCopies(name, q, arg, rest, "MathTex", '"');
      PassCopies(name, q, arg, r1, "MathTex", '\'');
      PassRewrites(name, q, arg, r2);
      PassCopies("Text", '"', arg, r3, "Tex", '\'');
    } else {
      PassCopies(name, q, arg, rest, "MathTex", '"');
      PassCopies(name, q, arg, r1, "MathTex", '\'');
      PassCopies(name, q, arg, r2, "Tex", '"');
      PassRewrites(name, q, arg, r3);
    }
  }

  /** How the three names end in one another. */
  lemma NameEndings()
    ensures '(' !in "MathTex" && ')' !in "MathTex" && '(' !in "Tex" && ')' !in "Tex" && '(' !in "Text"
    ensures '"' !in "MathTex" && '\'' !in "MathTex" && '"' !in "Tex" && '\'' !in "Tex"
    ensures "Math" + "Tex(r" == "MathTex(r" && "MathTex" + "(r" == "MathTex(r" && "Tex" + "(r" == "Tex(r"
    ensures !EndsWith("Text", "MathTex") && !EndsWith("Text", "Tex")
    ensures !EndsWith("Tex", "MathTex") && EndsWith("MathTex", "Tex")
  {
    assert "Text"[1..] != "Tex";
    assert "MathTex"[4..] == "Tex";
  }

  // ---------------------------------------------------------------------
  // The whole cleaner
  // ---------------------------------------------------------------------

  /** The four rewrites keep ASCII text ASCII and keep its final newline. */
  lemma RewriteLatexAsciiLine(t: string)
    requires IsAscii(t) && EndsWith(t, "\n")
    ensures IsAscii(RewriteLatex(t)) && EndsWith(RewriteLatex(t), "\n")
  {
    var s1 := RewriteCalls(t, "MathTex", '"');
    var s2 := RewriteCalls(s1, "MathTex", '\'');
    var s3 := RewriteCalls(s2, "Tex", '"');
    RewriteAscii(t, "MathTex", '"');
    RewriteAscii(s1, "MathTex", '\'');
    RewriteAscii(s2, "Tex", '"');
    RewriteAscii(s3, "Tex", '\'');
    RewriteKeepsNewline(t, "MathTex", '"');
    RewriteKeepsNewline(s1, "MathTex", '\'');
    RewriteKeepsNewline(s2, "Tex", '"');
    RewriteKeepsNewline(s3, "Tex", '\'');
  }

  /** Appending the missing newline keeps ASCII text ASCII. */
  lemma TerminatedAsciiLine(s: string)
    requires IsAscii(s)
    ensures IsAscii(Terminated(s)) && EndsWith(Terminated(s), "\n")
  {
    if !EndsWith(s, "\n") {
      var t := s + "\n";
      assert t[|t| - 1..] == "\n";
      assert forall k :: 0 <= k < |s| ==> t[k] == s[k];
    }
  }

  /** Whatever text reaches the line filter, the result is ASCII and ends with a newline. */
  lemma FinishedAsciiLine(kept: string)
    ensures IsAscii(Finished(kept)) && EndsWith(Finished(kept), "\n")
  {
    var lines := FilterLines(Split(kept, '\n'));
    FilterLinesAscii(Split(kept, '\n'));
    JoinAscii(lines);
    var joined := Join(lines, '\n');
    TerminatedAsciiLine(joined);
    RewriteLatexAsciiLine(Terminated(joined));
  }

  /** The cleaned text is ASCII and ends with a newline, as written and as intended. */
  lemma CleanedAsciiLine(code: string)
    ensures IsAscii(Cleaned(code)) && EndsWith(Cleaned(code), "\n")
    ensures IsAscii(CleanedIntended(code)) && EndsWith(CleanedIntended(code), "\n")
  {
    FinishedAsciiLine(Extracted(code));
    FinishedAsciiLine(ExtractedIntended(code));
  }

  /** A prefix of a suffix of a text without `t` has no `t`. */
  lemma PieceLacks(s: string, suffix: string, piece: string, t: string)
    requires !Contains(s, t)
    requires |suffix| <= |s| && suffix == s[|s| - |suffix|..]
    requires |piece| <= |suffix| && piece == suffix[..|piece|]
    ensures !Contains(piece, t)
  {
    SliceContains(s, t, |s| - |suffix|, |s|);
    SliceContains(suffix, t, 0, |piece|);
  }

  /** The text that reaches the line filter holds no fence, as written and as intended. */
  lemma NoFenceReachesFilter(code: string)
    ensures !Contains(Extracted(code), Fence)
    ensures !Contains(ExtractedIntended(code), Fence)
  {
    FencePassNoFence(code);
    var written := FencePassAsWritten(code);
    AnchoredStart(written);
    TrimAsWrittenKeepsAll(Anchored(written));
    PieceLacks(written, Anchored(written), Anchored(written), Fence);
    var fenced := FencePass(code);
    AnchoredStart(fenced);
    TrimAfterLastCallCuts(Anchored(fenced));
    PieceLacks(fenced, Anchored(fenced), TrimAfterLastCall(Anchored(fenced)), Fence);
  }
}
