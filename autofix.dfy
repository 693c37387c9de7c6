/**
  The line-based repairer `autofix_manim_code` (api/functions/autofix.py).

  It reads the script as lines, builds a set of names it considers defined,
  inserts a default definition before each line that uses an unknown name,
  rewrites five deprecated method names, adds `import numpy as np` when `np.`
  is used without it, and returns the new text with the number of fixes.

  The functions below specify each phase; `AutofixManimCode` is the
  step-by-step procedure, proved equal to the composition `Autofix`.
 */
module Autofix {
  import opened Wrappers
  import opened Text

  /** Names treated as defined before any line is read. */
  const Builtins: set<string> := {
    "self", "Scene", "Create", "FadeIn", "FadeOut", "Transform",
    "Write", "Wait", "PI", "RIGHT", "LEFT", "UP", "DOWN", "ORIGIN",
    "RED", "GREEN", "BLUE", "YELLOW", "WHITE", "BLACK", "GRAY"}

  /** Left-hand sides that the assignment scan does not record. */
  const NotTargets: set<string> := {"self", "if", "elif", "while", "for"}

  /** Words that are never reported as undefined. */
  const Keywords: set<string> := {
    "if", "elif", "else", "for", "in", "while", "def", "class",
    "return", "import", "from", "as", "with", "True", "False", "None"}

  /** Deprecated method names and their replacements, in dictionary order. */
  const DeprecatedApis: seq<(string, string)> := [
    ("add_background_rectangle", "add_background_rectangle()"),
    ("container_align", "arrange"),
    ("get_center_of_mass", "get_center()"),
    ("arrange_submobjects", "arrange"),
    ("add_points_as_corners", "set_points_as_corners")]

  const NumpyImport: string := "import numpy as np"

  /** The comment that follows a scalar placeholder definition. */
  const PlaceholderNote: string := "  # 自动添加的默认值，请修改为正确的值"

  // ---------------------------------------------------------------------
  // The three regular expressions of the scan
  // ---------------------------------------------------------------------

  /** A match of `class\s+(\w+)` starting at `p`, as its captured name. */
  function ClassMatchAt(line: string, p: nat): Option<string>
    requires p <= |line|
  {
    if StartsWith(line[p..], "class") then
      var q := SpaceEnd(line, p + 5);
      if q > p + 5 && q < |line| && IsWordChar(line[q]) then Some(line[q..WordEnd(line, q)])
      else None
    else None
  }

  /** `class_pattern.search(line).group(1)` over `line[p..]`: the leftmost match. */
  function ClassNameFrom(line: string, p: nat): Option<string>
    requires p <= |line|
    decreases |line| - p
  {
    var here := ClassMatchAt(line, p);
    if here.Some? || p == |line| then here else ClassNameFrom(line, p + 1)
  }

  function ClassName(line: string): Option<string> {
    ClassNameFrom(line, 0)
  }

  /**
    `re.findall(r'\b([a-zA-Z_]\w*)\b', line)` over `line[i..]`, where `i` is 0, the
    end of a word run, or a non-word position: every maximal word run that begins
    with a letter or underscore, in order.
   */
  function IdentifiersFrom(line: string, i: nat): seq<string>
    requires i <= |line|
    decreases |line| - i
  {
    if i == |line| then []
    else if IsWordChar(line[i]) then
      var e := WordEnd(line, i);
      (if IsIdentStart(line[i]) then [line[i..e]] else []) + IdentifiersFrom(line, e)
    else IdentifiersFrom(line, i + 1)
  }

  function Identifiers(line: string): seq<string> {
    IdentifiersFrom(line, 0)
  }

  /**
    The captured names of `re.finditer(r'(\w+)\s*=', line)` over `line[i..]`: each
    maximal word run followed by optional whitespace and `=`, including the left
    operand of `==`.
   */
  function AssignTargetsFrom(line: string, i: nat): seq<string>
    requires i <= |line|
    decreases |line| - i
  {
    if i == |line| then []
    else if IsWordChar(line[i]) then
      var e := WordEnd(line, i);
      var q := SpaceEnd(line, e);
      if q < |line| && line[q] == '=' then [line[i..e]] + AssignTargetsFrom(line, q + 1)
      else AssignTargetsFrom(line, e)
    else AssignTargetsFrom(line, i + 1)
  }

  function AssignTargets(line: string): seq<string> {
    AssignTargetsFrom(line, 0)
  }

  /** `line.strip().startswith('#') or not line.strip()`. */
  predicate IsSkipped(line: string) {
    Strip(line) == "" || StartsWith(Strip(line), "#")
  }

  // ---------------------------------------------------------------------
  // Phase 1: the names considered defined
  // ---------------------------------------------------------------------

  function ClassNames(lines: seq<string>): set<string>
    decreases |lines|
  {
    if |lines| == 0 then {}
    else
      var found := ClassName(lines[|lines| - 1]);
      ClassNames(lines[..|lines| - 1]) + (if found.Some? then {found.value} else {})
  }

  /** The captured names that the first pass records. */
  function TargetSet(names: seq<string>): set<string>
    decreases |names|
  {
    if |names| == 0 then {}
    else
      var last := names[|names| - 1];
      TargetSet(names[..|names| - 1]) + (if last in NotTargets then {} else {last})
  }

  function AssignedNames(lines: seq<string>): set<string>
    decreases |lines|
  {
    if |lines| == 0 then {}
    else
      var last := lines[|lines| - 1];
      AssignedNames(lines[..|lines| - 1])
        + (if IsSkipped(last) then {} else TargetSet(AssignTargets(last)))
  }

  /** The set `defined_vars` holds when the repair pass starts. */
  function DefinedNames(lines: seq<string>): set<string> {
    Builtins + ClassNames(lines) + AssignedNames(lines)
  }

  // ---------------------------------------------------------------------
  // Phase 2: inserting default definitions
  // ---------------------------------------------------------------------

  /**
    The words of a line that are neither defined nor keywords, in order and with
    repeats (`undefined_vars`).
   */
  function UndefinedIn(words: seq<string>, defined: set<string>): seq<string>
    decreases |words|
  {
    if |words| == 0 then []
    else
      var w := words[|words| - 1];
      UndefinedIn(words[..|words| - 1], defined) + (if w !in defined && w !in Keywords then [w] else [])
  }

  /** Each unknown word is reported as often as the line holds it; known words never. */
  lemma {:induction false} UndefinedCounts(words: seq<string>, defined: set<string>, v: string)
    ensures multiset(UndefinedIn(words, defined))[v]
      == if v in defined || v in Keywords then 0 else multiset(words)[v]
    decreases |words|
  {
    if |words| > 0 {
      var m := |words| - 1;
      var w := words[m];
      UndefinedCounts(words[..m], defined, v);
      assert words == words[..m] + [w];
      assert multiset(words) == multiset(words[..m]) + multiset{w};
      var tail := if w !in defined && w !in Keywords then [w] else [];
      assert multiset(UndefinedIn(words, defined)) == multiset(UndefinedIn(words[..m], defined)) + multiset(tail);
    }
  }

  /** The six right-hand sides an inserted definition can have. */
  datatype Template = TextTemplate | CircleTemplate | ArrowTemplate | DotTemplate | TitleTemplate | Placeholder

  /** The template for an unknown name: by suffix first, in this order, then the name `title`. */
  function TemplateFor(name: string): Template {
    if EndsWith(name, "_text") || EndsWith(name, "Text") then TextTemplate
    else if EndsWith(name, "_circle") || EndsWith(name, "Circle") then CircleTemplate
    else if EndsWith(name, "_arrow") || EndsWith(name, "Arrow") then ArrowTemplate
    else if EndsWith(name, "_dot") || EndsWith(name, "Dot") then DotTemplate
    else if name == "title" then TitleTemplate
    else Placeholder
  }

  function TemplateText(t: Template): string {
    match t
    case TextTemplate => "Text('Default Text')"
    case CircleTemplate => "Circle()"
    case ArrowTemplate => "Arrow(ORIGIN, RIGHT)"
    case DotTemplate => "Dot()"
    case TitleTemplate => "Title('Default Title')"
    case Placeholder => "1" + PlaceholderNote
  }

  function DefaultValue(name: string): string {
    TemplateText(TemplateFor(name))
  }

  /** The inserted definition `fix_line` for an unknown name. */
  function DefaultDefinition(name: string): string {
    name + " = " + DefaultValue(name)
  }

  /** `len(line) - len(line.lstrip())`. */
  function Indent(line: string): nat {
    |line| - |LStrip(line)|
  }

  /** The names of a sequence, as a set. */
  function NameSet(names: seq<string>): set<string>
    decreases |names|
  {
    if |names| == 0 then {}
    else
      NameSet(names[..|names| - 1]) + {names[|names| - 1]}
  }

  /** `lines` followed by `f(name)` for each name of `names`, in order. */
  function Appended(lines: seq<string>, f: string -> string, names: seq<string>): (r: seq<string>)
    ensures |r| == |lines| + |names|
    decreases |names|
  {
    if |names| == 0 then lines
    else Appended(lines, f, names[..|names| - 1]) + [f(names[|names| - 1])]
  }

  /** `lines` followed by one definition per name of `names`, each after `indent` spaces. */
  function WithDefinitions(lines: seq<string>, indent: nat, names: seq<string>): (r: seq<string>)
    ensures |r| == |lines| + |names|
  {
    Appended(lines, name => Spaces(indent) + DefaultDefinition(name), names)
  }

  /** Whether `line` gets definitions inserted before it, given the names defined so far. */
  predicate Triggers(line: string, defined: set<string>) {
    !IsSkipped(line) && |UndefinedIn(Identifiers(line), defined)| > 0 && '=' !in line
  }

  /** The state of the repair pass: `fixed_lines`, `defined_vars`, `issues_fixed`. */
  datatype Repaired = Repaired(lines: seq<string>, defined: set<string>, fixes: nat)

  /** The names whose definitions the repair pass inserts before `line` (`undefined_vars` when it acts). */
  function InsertedFor(line: string, defined: set<string>): seq<string> {
    if Triggers(line, defined) then UndefinedIn(Identifiers(line), defined) else []
  }

  /** One iteration of the second pass: the definitions `line` needs, then `line` itself. */
  function RepairLine(r: Repaired, line: string): Repaired {
    var u := InsertedFor(line, r.defined);
    Repaired(WithDefinitions(r.lines, Indent(line), u) + [line], r.defined + NameSet(u), r.fixes + |u|)
  }

  /** `step` applied to the first `n` lines in order, starting from `init`. */
  function Fold(step: (Repaired, string) -> Repaired, init: Repaired, lines: seq<string>, n: nat): Repaired
    requires n <= |lines|
    decreases n
  {
    if n == 0 then init else step(Fold(step, init, lines, n - 1), lines[n - 1])
  }

  /** The state of the repair pass after the first `n` lines, starting from the names in `defined`. */
  function Repair(lines: seq<string>, defined: set<string>, n: nat): Repaired
    requires n <= |lines|
  {
    Fold(RepairLine, Repaired([], defined, 0), lines, n)
  }

  // ---------------------------------------------------------------------
  // Phase 3: deprecated method names
  // ---------------------------------------------------------------------

  function SubstituteLine(line: string, key: string, repl: string): string
  {
    if Contains(line, key) then ReplaceAll(line, key, repl) else line
  }

  /** One key of the table applied to every line, in order. */
  function Substitute(lines: seq<string>, key: string, repl: string): (out: seq<string>)
    ensures |out| == |lines|
    decreases |lines|
  {
    if |lines| == 0 then []
    else Substitute(lines[..|lines| - 1], key, repl) + [SubstituteLine(lines[|lines| - 1], key, repl)]
  }

  /** Line `k` of the result is line `k` of the input with the key replaced. */
  lemma {:induction false} SubstituteAt(lines: seq<string>, key: string, repl: string, k: nat)
    requires k < |lines|
    ensures Substitute(lines, key, repl)[k] == SubstituteLine(lines[k], key, repl)
    decreases |lines|
  {
    if k < |lines| - 1 {
      SubstituteAt(lines[..|lines| - 1], key, repl, k);
    }
  }

  /** How many lines hold `key`: one fix per line, however many occurrences it has. */
  function LinesContaining(lines: seq<string>, key: string): nat
    decreases |lines|
  {
    if |lines| == 0 then 0
    else LinesContaining(lines[..|lines| - 1], key) + (if Contains(lines[|lines| - 1], key) then 1 else 0)
  }

  /** The lines that hold `key`, by index. */
  function LinesWith(lines: seq<string>, key: string): set<nat> {
    set k: nat | k < |lines| && Contains(lines[k], key)
  }

  /** The count is the number of distinct lines holding the key, not of occurrences. */
  lemma {:induction false} LinesContainingCounts(lines: seq<string>, key: string)
    ensures LinesContaining(lines, key) == |LinesWith(lines, key)|
    decreases |lines|
  {
    if |lines| > 0 {
      var m := |lines| - 1;
      LinesContainingCounts(lines[..m], key);
      var before := LinesWith(lines[..m], key);
      assert LinesWith(lines, key) == before + (if Contains(lines[m], key) then {m} else {});
      assert m !in before;
    }
  }

  /** The keys of `apis` applied one after the other, with the number of fixes. */
  function SubstituteApis(lines: seq<string>, apis: seq<(string, string)>): (r: (seq<string>, nat))
    ensures |r.0| == |lines|
    decreases |apis|
  {
    if |apis| == 0 then (lines, 0)
    else
      var prev := SubstituteApis(lines, apis[..|apis| - 1]);
      var (key, repl) := apis[|apis| - 1];
      (Substitute(prev.0, key, repl), prev.1 + LinesContaining(prev.0, key))
  }

  // ---------------------------------------------------------------------
  // Phase 4: the numpy import
  // ---------------------------------------------------------------------

  predicate AnyLineContains(lines: seq<string>, t: string) {
    exists k :: 0 <= k < |lines| && Contains(lines[k], t)
  }

  predicate NeedsNumpy(lines: seq<string>) {
    AnyLineContains(lines, "np.") && !AnyLineContains(lines, NumpyImport)
  }

  /** The index of the first line holding `t`. */
  function FirstLineContaining(lines: seq<string>, t: string): (r: Option<nat>)
    ensures r.Some? ==> r.value < |lines| && Contains(lines[r.value], t)
    ensures r.Some? ==> forall k :: 0 <= k < r.value ==> !Contains(lines[k], t)
    ensures r.None? ==> !AnyLineContains(lines, t)
    decreases |lines|
  {
    if |lines| == 0 then None
    else if Contains(lines[0], t) then Some(0)
    else
      var rest := FirstLineContaining(lines[1..], t);
      assert forall k :: 1 <= k < |lines| ==> lines[k] == lines[1..][k - 1];
      if rest.Some? then Some(rest.value + 1) else None
  }

  /** Where the import goes: after the first line holding `import`, else first. */
  function NumpyPosition(lines: seq<string>): nat {
    match FirstLineContaining(lines, "import")
    case Some(k) => k + 1
    case None => 0
  }

  function AddNumpyImport(lines: seq<string>): (r: (seq<string>, nat))
    ensures r.1 <= 1 && (r.1 == 1 <==> NeedsNumpy(lines))
    ensures |r.0| == |lines| + r.1
  {
    if NeedsNumpy(lines) then
      var p := NumpyPosition(lines);
      (lines[..p] + [NumpyImport] + lines[p..], 1)
    else (lines, 0)
  }

  // ---------------------------------------------------------------------
  // The whole repairer
  // ---------------------------------------------------------------------

  /** The result of `autofix_manim_code(code)`: the repaired text and the fix count. */
  function Autofix(code: string): (string, nat) {
    AutofixWith(code, DeprecatedApis)
  }

  /** The repairer with the table of deprecated names `apis`. */
  function AutofixWith(code: string, apis: seq<(string, string)>): (string, nat) {
    var lines := Split(code, '\n');
    var fixed := FixLines(lines, DefinedNames(lines), apis);
    (Join(fixed.0, '\n'), fixed.1)
  }

  /** Phases 2 to 4 on the lines, from the names `defined` before the repair pass: the new lines and the fix count. */
  function FixLines(lines: seq<string>, defined: set<string>, apis: seq<(string, string)>): (seq<string>, nat) {
    var repaired := Repair(lines, defined, |lines|);
    var substituted := SubstituteApis(repaired.lines, apis);
    var withImport := AddNumpyImport(substituted.0);
    (withImport.0, repaired.fixes + substituted.1 + withImport.1)
  }

  /** `autofix_manim_code`: the four phases in order, then `'\n'.join`. */
  method AutofixManimCode(code: string) returns (fixedCode: string, issuesFixed: nat)
    ensures (fixedCode, issuesFixed) == Autofix(code)
  {
    fixedCode, issuesFixed := AutofixManimCodeWith(code, DeprecatedApis);
  }

  method AutofixManimCodeWith(code: string, apis: seq<(string, string)>) returns (fixedCode: string, issuesFixed: nat)
    ensures fixedCode == AutofixWith(code, apis).0
    ensures issuesFixed == AutofixWith(code, apis).1
  {
    var lines := Split(code, '\n');
    var definedVars := CollectDefinedNames(lines);
    var fixedLines;
    fixedLines, issuesFixed := FixAllLines(lines, definedVars, apis);
    fixedCode := Join(fixedLines, '\n');
  }

  /** The repair pass, the deprecated-name pass and the numpy check, in order. */
  method FixAllLines(lines: seq<string>, defined: set<string>, apis: seq<(string, string)>)
    returns (fixedLines: seq<string>, issues: nat)
    ensures fixedLines == FixLines(lines, defined, apis).0
    ensures issues == FixLines(lines, defined, apis).1
  {
    var learned, repairFixes, replaced, added;
    fixedLines, learned, repairFixes := InsertDefinitions(lines, defined);
    fixedLines, replaced := ReplaceDeprecated(fixedLines, apis);
    fixedLines, added := EnsureNumpyImport(fixedLines);
    issues := repairFixes + replaced + added;
  }

  /** The class scan and the first pass: the names defined before the repair pass. */
  method CollectDefinedNames(lines: seq<string>) returns (definedVars: set<string>)
    ensures definedVars == DefinedNames(lines)
  {
    definedVars := Builtins;
    definedVars := AddClassNames(lines, definedVars);
    definedVars := AddAssignedNames(lines, definedVars);
  }

  /** The class scan: the name of the first `class` declaration of every line. */
  method AddClassNames(lines: seq<string>, defined: set<string>) returns (definedVars: set<string>)
    ensures definedVars == defined + ClassNames(lines)
  {
    definedVars := defined;
    var i := 0;
    while i < |lines|
      invariant 0 <= i <= |lines|
      invariant definedVars == defined + ClassNames(lines[..i])
    {
      var found := ClassName(lines[i]);
      if found.Some? {
        definedVars := definedVars + {found.value};
      }
      assert lines[..i + 1][..i] == lines[..i];
      i := i + 1;
    }
    assert lines[..|lines|] == lines;
  }

  /** The first pass: every assignment target of every line that is not skipped. */
  method AddAssignedNames(lines: seq<string>, defined: set<string>) returns (definedVars: set<string>)
    ensures definedVars == defined + AssignedNames(lines)
  {
    definedVars := defined;
    var i := 0;
    while i < |lines|
      invariant 0 <= i <= |lines|
      invariant definedVars == defined + AssignedNames(lines[..i])
    {
      var line := lines[i];
      assert lines[..i + 1][..i] == lines[..i];
      if !IsSkipped(line) {
        definedVars := AddTargets(AssignTargets(line), definedVars);
      }
      i := i + 1;
    }
    assert lines[..|lines|] == lines;
  }

  /** The inner loop of the first pass over the names captured on one line. */
  method AddTargets(targets: seq<string>, defined: set<string>) returns (definedVars: set<string>)
    ensures definedVars == defined + TargetSet(targets)
  {
    definedVars := defined;
    var j := 0;
    while j < |targets|
      invariant 0 <= j <= |targets|
      invariant definedVars == defined + TargetSet(targets[..j])
    {
      var name := targets[j];
      if name !in NotTargets {
        definedVars := definedVars + {name};
      }
      assert targets[..j + 1][..j] == targets[..j];
      j := j + 1;
    }
    assert targets[..|targets|] == targets;
  }

  /** The words of a line collected into `undefined_vars`. */
  method CollectUndefined(words: seq<string>, definedVars: set<string>) returns (undefinedVars: seq<string>)
    ensures undefinedVars == UndefinedIn(words, definedVars)
  {
    undefinedVars := [];
    var j := 0;
    while j < |words|
      invariant 0 <= j <= |words|
      invariant undefinedVars == UndefinedIn(words[..j], definedVars)
    {
      var word := words[j];
      if word !in definedVars && word !in Keywords {
        undefinedVars := undefinedVars + [word];
      }
      assert words[..j + 1][..j] == words[..j];
      j := j + 1;
    }
    assert words[..|words|] == words;
  }

  /** The second pass: definitions inserted before the lines that use unknown names. */
  method InsertDefinitions(lines: seq<string>, defined: set<string>)
    returns (fixedLines: seq<string>, definedVars: set<string>, issues: nat)
    ensures Repaired(fixedLines, definedVars, issues) == Repair(lines, defined, |lines|)
  {
    fixedLines, definedVars, issues := [], defined, 0;
    var i := 0;
    while i < |lines|
      invariant 0 <= i <= |lines|
      invariant Repair(lines, defined, i) == Repaired(fixedLines, definedVars, issues)
    {
      fixedLines, definedVars, issues := RepairStep(lines[i], fixedLines, definedVars, issues);
      i := i + 1;
    }
  }

  /** One iteration of the second pass: the definitions `line` needs, then `line` itself. */
  method RepairStep(line: string, linesIn: seq<string>, definedIn: set<string>, issuesIn: nat)
    returns (fixedLines: seq<string>, definedVars: set<string>, issues: nat)
    ensures Repaired(fixedLines, definedVars, issues) == RepairLine(Repaired(linesIn, definedIn, issuesIn), line)
  {
    fixedLines, definedVars, issues := linesIn, definedIn, issuesIn;
    if !IsSkipped(line) {
      var undefinedVars := CollectUndefined(Identifiers(line), definedVars);
      if |undefinedVars| > 0 && '=' !in line {
        var indent := |line| - |LStrip(line)|;
        fixedLines, definedVars, issues := AddDefinitions(indent, undefinedVars, fixedLines, definedVars, issues);
      }
    }
    fixedLines := fixedLines + [line];
  }

  /** The inner loop of the second pass: one indented default definition per unknown word. */
  method AddDefinitions(indent: nat, names: seq<string>, linesIn: seq<string>, definedIn: set<string>, issuesIn: nat)
    returns (fixedLines: seq<string>, definedVars: set<string>, issues: nat)
    ensures fixedLines == WithDefinitions(linesIn, indent, names)
    ensures definedVars == definedIn + NameSet(names)
    ensures issues == issuesIn + |names|
  {
    fixedLines, definedVars, issues := linesIn, definedIn, issuesIn;
    var k := 0;
    while k < |names|
      invariant 0 <= k <= |names|
      invariant fixedLines == WithDefinitions(linesIn, indent, names[..k])
      invariant definedVars == definedIn + NameSet(names[..k])
      invariant issues == issuesIn + k
    {
      var name := names[k];
      assert names[..k + 1][..k] == names[..k] && names[..k + 1][k] == name;
      assert NameSet(names[..k + 1]) == NameSet(names[..k]) + {name};
      assert WithDefinitions(linesIn, indent, names[..k + 1])
        == WithDefinitions(linesIn, indent, names[..k]) + [Spaces(indent) + DefaultDefinition(name)];
      var fixLine := DefaultDefinition(name);
      fixedLines := fixedLines + [Spaces(indent) + fixLine];
      definedVars := definedVars + {name};
      issues := issues + 1;
      k := k + 1;
    }
    assert names[..|names|] == names;
  }

  /** One key of the table: `fixed_lines[i] = line.replace(key, repl)` on every line holding it. */
  method ReplaceKey(lines: seq<string>, key: string, repl: string) returns (fixedLines: seq<string>, hits: nat)
    ensures fixedLines == Substitute(lines, key, repl)
    ensures hits == LinesContaining(lines, key)
  {
    fixedLines, hits := lines, 0;
    var j := 0;
    while j < |fixedLines|
      invariant 0 <= j <= |fixedLines| == |lines|
      invariant fixedLines[..j] == Substitute(lines[..j], key, repl)
      invariant forall m :: j <= m < |lines| ==> fixedLines[m] == lines[m]
      invariant hits == LinesContaining(lines[..j], key)
    {
      assert lines[..j + 1][..j] == lines[..j];
      ghost var done := fixedLines[..j];
      var line := fixedLines[j];
      if Contains(line, key) {
        fixedLines := fixedLines[j := ReplaceAll(line, key, repl)];
        hits := hits + 1;
      }
      assert fixedLines[..j] == done;
      assert fixedLines[..j + 1] == done + [SubstituteLine(lines[j], key, repl)];
      j := j + 1;
    }
    assert lines[..|lines|] == lines;
    assert fixedLines[..|lines|] == fixedLines;
  }

  /** The deprecated-name loop over the table, key by key. */
  method ReplaceDeprecated(lines: seq<string>, apis: seq<(string, string)>)
    returns (fixedLines: seq<string>, issues: nat)
    ensures (fixedLines, issues) == SubstituteApis(lines, apis)
  {
    fixedLines, issues := lines, 0;
    var a := 0;
    while a < |apis|
      invariant 0 <= a <= |apis|
      invariant SubstituteApis(lines, apis[..a]) == (fixedLines, issues)
    {
      var (key, repl) := apis[a];
      var hits;
      assert apis[..a + 1][..a] == apis[..a] && apis[..a + 1][a] == (key, repl);
      assert SubstituteApis(lines, apis[..a + 1])
        == (Substitute(fixedLines, key, repl), issues + LinesContaining(fixedLines, key));
      fixedLines, hits := ReplaceKey(fixedLines, key, repl);
      issues := issues + hits;
      a := a + 1;
    }
    assert apis[..|apis|] == apis;
  }

  /** The numpy check and the `for ... else` insertion. */
  method EnsureNumpyImport(lines: seq<string>) returns (fixedLines: seq<string>, added: nat)
    ensures (fixedLines, added) == AddNumpyImport(lines)
  {
    fixedLines, added := lines, 0;
    if AnyLineContains(lines, "np.") && !AnyLineContains(lines, NumpyImport) {
      var k := 0;
      while k < |lines|
        invariant 0 <= k <= |lines|
        invariant forall m :: 0 <= m < k ==> !Contains(lines[m], "import")
      {
        if Contains(lines[k], "import") {
          ghost var first := FirstLineContaining(lines, "import");
          assert first.Some? && first.value == k;
          fixedLines := lines[..k + 1] + [NumpyImport] + lines[k + 1..];
          added := 1;
          return;
        }
        k := k + 1;
      }
      assert FirstLineContaining(lines, "import").None?;
      assert lines[..0] + [NumpyImport] + lines[0..] == [NumpyImport] + lines;
      fixedLines := [NumpyImport] + lines;
      added := 1;
    }
  }

  // ---------------------------------------------------------------------
  // Properties
  // ---------------------------------------------------------------------

  /** A line that gets no definitions adds no fix and is copied alone. */
  lemma RepairLineFixes(r: Repaired, line: string)
    ensures RepairLine(r, line).fixes >= r.fixes
    ensures RepairLine(r, line).fixes == r.fixes ==> RepairLine(r, line).lines == r.lines + [line]
  {
    if Triggers(line, r.defined) {
      assert RepairLine(r, line).fixes == r.fixes + |UndefinedIn(Identifiers(line), r.defined)|;
    }
  }

  /** When the steps never lower the count and a step that adds nothing only copies its line, so does the fold. */
  lemma {:induction false} FoldWithoutFixes(step: (Repaired, string) -> Repaired, init: Repaired, lines: seq<string>, n: nat)
    requires forall r: Repaired, line: string :: step(r, line).fixes >= r.fixes
    requires forall r: Repaired, line: string :: step(r, line).fixes == r.fixes ==> step(r, line).lines == r.lines + [line]
    requires n <= |lines|
    ensures Fold(step, init, lines, n).fixes >= init.fixes
    ensures Fold(step, init, lines, n).fixes == init.fixes ==> Fold(step, init, lines, n).lines == init.lines + lines[..n]
    decreases n
  {
    if n > 0 {
      FoldWithoutFixes(step, init, lines, n - 1);
      assert lines[..n - 1] + [lines[n - 1]] == lines[..n];
    }
  }

  lemma RepairWithoutFixes(lines: seq<string>, defined: set<string>)
    ensures Repair(lines, defined, |lines|).fixes == 0 ==> Repair(lines, defined, |lines|).lines == lines
  {
    forall r: Repaired, line: string
      ensures RepairLine(r, line).fixes >= r.fixes
      ensures RepairLine(r, line).fixes == r.fixes ==> RepairLine(r, line).lines == r.lines + [line]
    {
      RepairLineFixes(r, line);
    }
    FoldWithoutFixes(RepairLine, Repaired([], defined, 0), lines, |lines|);
    assert lines[..|lines|] == lines;
  }

  lemma SubstituteWithoutHits(lines: seq<string>, key: string, repl: string)
    ensures LinesContaining(lines, key) == 0 ==> Substitute(lines, key, repl) == lines
  {
    LinesContainingCounts(lines, key);
    if LinesContaining(lines, key) == 0 {
      forall k | 0 <= k < |lines|
        ensures Substitute(lines, key, repl)[k] == lines[k]
      {
        assert k !in LinesWith(lines, key);
        SubstituteAt(lines, key, repl, k);
      }
    }
  }

  lemma {:induction false} SubstituteApisWithoutHits(lines: seq<string>, apis: seq<(string, string)>)
    ensures SubstituteApis(lines, apis).1 == 0 ==> SubstituteApis(lines, apis).0 == lines
    decreases |apis|
  {
    if |apis| > 0 {
      SubstituteApisWithoutHits(lines, apis[..|apis| - 1]);
      var prev := SubstituteApis(lines, apis[..|apis| - 1]);
      SubstituteWithoutHits(prev.0, apis[|apis| - 1].0, apis[|apis| - 1].1);
    }
  }

  /** Phases 2 to 4 change nothing when they report no fix. */
  lemma FixLinesWithoutFixes(lines: seq<string>, defined: set<string>, apis: seq<(string, string)>)
    ensures FixLines(lines, defined, apis).1 == 0 ==> FixLines(lines, defined, apis).0 == lines
  {
    RepairWithoutFixes(lines, defined);
    SubstituteApisWithoutHits(Repair(lines, defined, |lines|).lines, apis);
  }

  /** A run that reports no fix returns its input text unchanged. */
  lemma NoFixesNoChange(code: string, apis: seq<(string, string)>)
    ensures AutofixWith(code, apis).1 == 0 ==> AutofixWith(code, apis).0 == code
  {
    var lines := Split(code, '\n');
    FixLinesWithoutFixes(lines, DefinedNames(lines), apis);
    JoinSplit(code, '\n');
  }
}
