/**
  `clean_manim_code` (api/views.py): turns a generator reply into script text.

  The steps, in order: drop every line-initial opening code-fence match, cut
  at the next fence, start at the first `from manim import`, cut the prose after the last
  `self.play`/`self.wait` call, drop the lines holding CJK characters, delete
  the other non-ASCII characters, end the text with a newline and rewrite the
  raw-string `MathTex`/`Tex` calls to `Text`.

  Each regular expression is modelled as the leftmost, greedy match Python's
  `re` finds. Two steps are modelled twice, as written and as intended (the
  fence pass and the trailing trim); `Cleaned` is the program as written and
  `CleanedIntended` uses the intended steps.
 */
module CleanCode {
  import opened Wrappers
  import opened Text

  const Fence: string := "```"

  // ---------------------------------------------------------------------
  // Fences
  // ---------------------------------------------------------------------

  /** Where `^` matches in multi-line mode. */
  predicate AtLineStart(s: string, p: nat)
    requires p <= |s|
  {
    p == 0 || s[p - 1] == '\n'
  }

  /** One past the last newline of `s[a..b]`, if it holds one. */
  function LastNewline(s: string, a: nat, b: nat): (r: Option<nat>)
    requires a <= b <= |s|
    ensures r.Some? ==> a < r.value <= b && s[r.value - 1] == '\n'
    ensures r.Some? ==> forall k :: r.value <= k < b ==> s[k] != '\n'
    ensures r.None? ==> forall k :: a <= k < b ==> s[k] != '\n'
    decreases b - a
  {
    if a == b then None
    else if s[b - 1] == '\n' then Some(b)
    else LastNewline(s, a, b - 1)
  }

  /** The end of a match of `\s*\n` at `q`: the greedy run of white space, backed up to its last newline. */
  function SpacesToNewline(s: string, q: nat): Option<nat>
    requires q <= |s|
  {
    LastNewline(s, q, SpaceEnd(s, q))
  }

  /** The end of a match of `^```(?:python)?\s*\n` at `p`; the optional `python` is tried first. */
  function OpenFenceEnd(s: string, p: nat): (r: Option<nat>)
    requires p <= |s|
    ensures r.Some? ==> p + 3 < r.value <= |s|
  {
    if AtLineStart(s, p) && StartsWith(s[p..], Fence) then
      var q := p + 3;
      var withPython := if StartsWith(s[q..], "python") then SpacesToNewline(s, q + 6) else None;
      if withPython.Some? then withPython else SpacesToNewline(s, q)
    else None
  }

  /** `s[i..]` with every opening-fence match removed, scanning left to right as `re.sub` does. */
  function DropOpenFences(s: string, i: nat): (r: string)
    requires i <= |s|
    ensures |r| <= |s| - i
    decreases |s| - i
  {
    if i == |s| then ""
    else
      match OpenFenceEnd(s, i)
      case Some(e) => DropOpenFences(s, e)
      case None => [s[i]] + DropOpenFences(s, i + 1)
  }

  /** The first opening-fence match at or after `i`, as its start and end. */
  function FirstOpenFence(s: string, i: nat): (r: Option<(nat, nat)>)
    requires i <= |s|
    ensures r.Some? ==> i <= r.value.0 <= |s| && OpenFenceEnd(s, r.value.0) == Some(r.value.1)
    decreases |s| - i
  {
    if i == |s| then None
    else
      match OpenFenceEnd(s, i)
      case Some(e) => Some((i, e))
      case None => FirstOpenFence(s, i + 1)
  }

  /** The text with its first opening-fence line removed. */
  function DropFirstOpenFence(s: string): string {
    match FirstOpenFence(s, 0)
    case Some((p, e)) => s[..p] + s[e..]
    case None => s
  }

  /** `re.sub(r'```[\s\S]*$', '', code)`: everything from the first fence on is dropped. */
  function CutAtFence(s: string): (r: string)
    ensures |r| <= |s| && r == s[..|r|]
  {
    match IndexOf(s, Fence)
    case Some(p) => s[..p]
    case None => s
  }

  /** The two fence substitutions as written: every opening-fence match goes, then the cut. */
  function FencePassAsWritten(s: string): string {
    CutAtFence(DropOpenFences(s, 0))
  }

  /** The fence pass as intended: the first opening fence goes, then the cut at the closing one. */
  function FencePass(s: string): string {
    CutAtFence(DropFirstOpenFence(s))
  }

  // ---------------------------------------------------------------------
  // The anchor
  // ---------------------------------------------------------------------

  /** The end of a match of `\s+w` at `i`: the greedy run of white space, then `w`. */
  function SpacedWordEnd(s: string, i: nat, w: string): (r: Option<nat>)
    requires i <= |s|
    ensures r.Some? ==> r.value <= |s|
  {
    var q := SpaceEnd(s, i);
    if q > i && StartsWith(s[q..], w) then Some(q + |w|) else None
  }

  /**
    Whether `a\s+b\s+c` matches at `p`. Each `\s+` run is greedy; since `b` and
    `c` start with a letter, no shorter run could match instead.
   */
  predicate SpacedWordsAt(s: string, p: nat, a: string, b: string, c: string)
    requires p <= |s|
  {
    StartsWith(s[p..], a)
    && match SpacedWordEnd(s, p + |a|, b)
       case Some(e) => SpacedWordEnd(s, e, c).Some?
       case None => false
  }

  /** Whether `from\s+manim\s+import` matches at `p`. */
  predicate AnchorAt(s: string, p: nat)
    requires p <= |s|
  {
    SpacedWordsAt(s, p, "from", "manim", "import")
  }

  /** The first anchor at or after `i`. */
  function FirstAnchor(s: string, i: nat): (r: Option<nat>)
    requires i <= |s|
    ensures r.Some? ==> i <= r.value <= |s| && AnchorAt(s, r.value)
    ensures forall k :: i <= k <= |s| && (r.None? || k < r.value) ==> !AnchorAt(s, k)
    decreases |s| - i
  {
    if AnchorAt(s, i) then Some(i)
    else if i == |s| then None
    else FirstAnchor(s, i + 1)
  }

  /** The text from its first anchor on, or all of it. */
  function Anchored(s: string): string {
    match FirstAnchor(s, 0)
    case Some(p) => s[p..]
    case None => s
  }

  // ---------------------------------------------------------------------
  // The trailing trim
  // ---------------------------------------------------------------------

  /** Whether `self.play` or `self.wait` starts at `p`. */
  predicate CallAt(s: string, p: nat)
    requires p <= |s|
  {
    StartsWith(s[p..], "self.play") || StartsWith(s[p..], "self.wait")
  }

  /** The first `)` at or after `i`. */
  function CloseParen(s: string, i: nat): (r: Option<nat>)
    requires i <= |s|
    ensures r.Some? ==> i <= r.value < |s| && s[r.value] == ')'
    ensures forall k :: i <= k < |s| && (r.None? || k < r.value) ==> s[k] != ')'
    decreases |s| - i
  {
    if i == |s| then None
    else if s[i] == ')' then Some(i)
    else CloseParen(s, i + 1)
  }

  /** Whether `\n\s*(?:#|$|注意|Note)` matches at `k`; `$` is the end of the text. */
  predicate NonCodeAt(s: string, k: nat)
    requires k <= |s|
  {
    k < |s| && s[k] == '\n'
    && var j := SpaceEnd(s, k + 1);
    j == |s| || StartsWith(s[j..], "#") || StartsWith(s[j..], "注意") || StartsWith(s[j..], "Note")
  }

  /** The first non-code line start at or after `i`. */
  function FirstNonCode(s: string, i: nat): (r: Option<nat>)
    requires i <= |s|
    ensures r.Some? ==> i <= r.value < |s| && NonCodeAt(s, r.value)
    ensures forall k :: i <= k <= |s| && (r.None? || k < r.value) ==> !NonCodeAt(s, k)
    decreases |s| - i
  {
    if NonCodeAt(s, i) then Some(i)
    else if i == |s| then None
    else FirstNonCode(s, i + 1)
  }

  /**
    The end of a match of `self\.(play|wait)(?:[^)]*\))[^)]*$` at `p`: the
    call, the text up to its first `)`, then a `)`-free run that `$` must end.
    Both runs are greedy and cannot pass a `)`, so backing up never helps.
   */
  function CallMatchEnd(s: string, p: nat): Option<nat>
    requires p <= |s|
  {
    if CallAt(s, p) then
      (match CloseParen(s, p + 9)
       case Some(c) =>
         var e := (match CloseParen(s, c + 1) case Some(k) => k case None => |s|);
         if e == |s| || (e + 1 == |s| && s[e] == '\n') then Some(e) else None
       case None => None)
    else None
  }

  /** `re.search` of the call pattern from `i`: the end of the leftmost match. */
  function FirstCallMatch(s: string, i: nat): Option<nat>
    requires i <= |s|
    decreases |s| - i
  {
    if i == |s| then None
    else
      match CallMatchEnd(s, i)
      case Some(e) => Some(e)
      case None => FirstCallMatch(s, i + 1)
  }

  /** The trailing trim as written: cut at the first non-code line after the match end. */
  function TrimAsWritten(s: string): string {
    match FirstCallMatch(s, 0)
    case Some(m) =>
      if m <= |s| then
        (match FirstNonCode(s, m)
         case Some(k) => s[..k]
         case None => s)
      else s
    case None => s
  }

  /** The last start of a `self.play`/`self.wait` call before `n`. */
  function LastCall(s: string, n: nat): (r: Option<nat>)
    requires n <= |s|
    ensures r.Some? ==> r.value < n && CallAt(s, r.value)
    ensures forall k :: (if r.Some? then r.value + 1 else 0) <= k < n ==> !CallAt(s, k)
    decreases n
  {
    if n == 0 then None
    else if CallAt(s, n - 1) then Some(n - 1)
    else LastCall(s, n - 1)
  }

  /** The trailing trim as intended: cut at the first non-code line after the `)` that closes the last call. */
  function TrimAfterLastCall(s: string): string {
    match LastCall(s, |s|)
    case Some(p) =>
      (match CloseParen(s, p + 9)
       case Some(c) =>
         (match FirstNonCode(s, c + 1)
          case Some(k) => s[..k]
          case None => s)
       case None => s)
    case None => s
  }

  // ---------------------------------------------------------------------
  // The line filter
  // ---------------------------------------------------------------------

  /** The class `[一-鿿]`. */
  predicate IsCjk(c: char) {
    '\U{4E00}' <= c <= '\U{9FFF}'
  }

  predicate HasCjk(line: string) {
    exists k :: 0 <= k < |line| && IsCjk(line[k])
  }

  /** `re.sub(r'[^\x00-\x7F]+', '', line)`: the ASCII characters of `line`, in order. */
  function AsciiOnly(line: string): (r: string)
    ensures |r| <= |line|
    decreases |line|
  {
    if |line| == 0 then ""
    else
      var c := line[|line| - 1];
      AsciiOnly(line[..|line| - 1]) + (if IsAsciiChar(c) then [c] else [])
  }

  /** What the loop keeps of one line: nothing for a line with CJK characters, else its ASCII characters. */
  function FilterLine(line: string): Option<string> {
    if HasCjk(line) then None
    else if !IsAscii(line) then Some(AsciiOnly(line))
    else Some(line)
  }

  /** `cleaned_lines` after the loop over `lines`. */
  function FilterLines(lines: seq<string>): (r: seq<string>)
    ensures |r| <= |lines|
    decreases |lines|
  {
    if |lines| == 0 then []
    else
      var kept := FilterLine(lines[|lines| - 1]);
      FilterLines(lines[..|lines| - 1]) + (if kept.Some? then [kept.value] else [])
  }

  /** The text with a newline appended unless it already ends with one. */
  function Terminated(s: string): string {
    if EndsWith(s, "\n") then s else s + "\n"
  }

  // ---------------------------------------------------------------------
  // The LaTeX rewrites
  // ---------------------------------------------------------------------

  /** The first `q` at or after `a`, or the end of the text. */
  function QuoteEnd(s: string, a: nat, q: char): (e: nat)
    requires a <= |s|
    ensures a <= e <= |s| && (e == |s| || s[e] == q)
    ensures forall k :: a <= k < e ==> s[k] != q
    decreases |s| - a
  {
    if a == |s| || s[a] == q then a else QuoteEnd(s, a + 1, q)
  }

  /** The length of a match of `name\(r<q>([^<q>]+)<q>\)` at the start of `s`. */
  function RawCallEnd(s: string, name: string, q: char): (r: Option<nat>)
    ensures r.Some? ==> |name| + 3 < r.value - 1 <= |s| - 1
  {
    var open := name + "(r" + [q];
    if StartsWith(s, open) then
      var e := QuoteEnd(s, |open|, q);
      if |open| < e && e + 1 < |s| && s[e + 1] == ')' then Some(e + 2) else None
    else None
  }

  /** `re.sub(name\(r<q>([^<q>]+)<q>\), Text(r"\1"), s)`. */
  function RewriteCalls(s: string, name: string, q: char): string
    decreases |s|
  {
    if |s| == 0 then ""
    else
      match RawCallEnd(s, name, q)
      case Some(n) => "Text(r\"" + s[|name| + 3..n - 2] + "\")" + RewriteCalls(s[n..], name, q)
      case None => [s[0]] + RewriteCalls(s[1..], name, q)
  }

  /** The four rewrites, in their order. */
  function RewriteLatex(s: string): string {
    var s1 := RewriteCalls(s, "MathTex", '"');
    var s2 := RewriteCalls(s1, "MathTex", '\'');
    var s3 := RewriteCalls(s2, "Tex", '"');
    RewriteCalls(s3, "Tex", '\'')
  }

  // ---------------------------------------------------------------------
  // The whole cleaner
  // ---------------------------------------------------------------------

  /** The text `clean_manim_code` returns, as written. */
  function Cleaned(code: string): string {
    Finished(Extracted(code))
  }

  /** The fence pass, the anchor and the trim as written: the text that reaches the line filter. */
  function Extracted(code: string): string {
    TrimAsWritten(Anchored(FencePassAsWritten(code)))
  }

  /** The text the cleaner returns once the fence pass and the trim do what they intend. */
  function CleanedIntended(code: string): string {
    Finished(ExtractedIntended(code))
  }

  /** The intended fence pass, the anchor and the intended trim. */
  function ExtractedIntended(code: string): string {
    TrimAfterLastCall(Anchored(FencePass(code)))
  }

  /** The line filter, the join, the final newline and the rewrites. */
  function Finished(kept: string): string {
    RewriteLatex(Terminated(Join(FilterLines(Split(kept, '\n')), '\n')))
  }

  /** `clean_manim_code`: the text is reassigned step by step, then its lines are filtered. */
  method CleanManimCode(raw: string) returns (cleaned: string)
    ensures cleaned == Cleaned(raw)
  {
    var code := DropOpenFences(raw, 0);
    code := CutAtFence(code);
    code := Anchored(code);
    code := TrimAsWritten(code);
    var cleanedLines := KeepLines(Split(code, '\n'));
    cleaned := Join(cleanedLines, '\n');
    if !EndsWith(cleaned, "\n") {
      cleaned := cleaned + "\n";
    }
    cleaned := RewriteLatex(cleaned);
  }

  /** The loop that builds `cleaned_lines`: lines with CJK characters are skipped, the others lose their non-ASCII characters. */
  method KeepLines(lines: seq<string>) returns (cleanedLines: seq<string>)
    ensures cleanedLines == FilterLines(lines)
  {
    cleanedLines := [];
    var i := 0;
    while i < |lines|
      invariant 0 <= i <= |lines|
      invariant cleanedLines == FilterLines(lines[..i])
    {
      var line := lines[i];
      assert lines[..i + 1][..i] == lines[..i];
      if !HasCjk(line) {
        if !IsAscii(line) {
          line := AsciiOnly(line);
        }
        cleanedLines := cleanedLines + [line];
      }
      i := i + 1;
    }
    assert lines[..|lines|] == lines;
  }
}
