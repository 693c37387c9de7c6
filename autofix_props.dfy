/**
  What `autofix_manim_code` guarantees about where definitions go, how often a
  name is defined, what the deprecated-name and numpy phases do, and how the
  fix count relates to the lines of the result.

  Facts about the whole repair pass are proved once for any `Fold` whose step
  has a property, then instantiated with `RepairLine`.
 */
module AutofixProperties {
  import opened Wrappers
  import opened Text
  import opened Autofix

  // ---------------------------------------------------------------------
  // One line of the repair pass
  // ---------------------------------------------------------------------

  /** `lines` is kept as it is. */
  lemma {:induction false} AppendedKeeps(lines: seq<string>, f: string -> string, names: seq<string>)
    ensures Appended(lines, f, names)[..|lines|] == lines
    decreases |names|
  {
    if |names| > 0 {
      var m := |names| - 1;
      AppendedKeeps(lines, f, names[..m]);
      var prev := Appended(lines, f, names[..m]);
      assert (prev + [f(names[m])])[..|lines|] == prev[..|lines|];
    }
  }

  /** The `k`-th line after `lines` is `f(names[k])`. */
  lemma {:induction false} AppendedAt(lines: seq<string>, f: string -> string, names: seq<string>, k: nat)
    requires k < |names|
    ensures Appended(lines, f, names)[|lines| + k] == f(names[k])
    decreases |names|
  {
    var m := |names| - 1;
    if k < m {
      AppendedAt(lines, f, names[..m], k);
    }
  }

  /** The `k`-th line after `lines` defines `names[k]`, after `indent` spaces. */
  lemma WithDefinitionsAt(lines: seq<string>, indent: nat, names: seq<string>, k: nat)
    requires k < |names|
    ensures WithDefinitions(lines, indent, names)[|lines| + k] == Spaces(indent) + DefaultDefinition(names[k])
  {
    AppendedAt(lines, name => Spaces(indent) + DefaultDefinition(name), names, k);
  }

  /** An element of a prefix is the element of the whole sequence. */
  lemma PrefixAt(whole: seq<string>, prefix: seq<string>, x: nat)
    requires |prefix| <= |whole| && whole[..|prefix|] == prefix && x < |prefix|
    ensures whole[x] == prefix[x]
  {
    assert whole[x] == whole[..|prefix|][x];
  }

  /**
    One step: the lines so far, then one definition per inserted name indented
    like `line`, then `line`.
   */
  lemma RepairLineLayout(r: Repaired, line: string)
    ensures var out := RepairLine(r, line).lines;
      var u := InsertedFor(line, r.defined);
      |out| == |r.lines| + |u| + 1 && out[..|r.lines|] == r.lines && out[|r.lines| + |u|] == line
  {
    var u := InsertedFor(line, r.defined);
    AppendedKeeps(r.lines, name => Spaces(Indent(line)) + DefaultDefinition(name), u);
  }

  /** The `k`-th line a step adds defines the `k`-th inserted name, indented like `line`. */
  lemma RepairLineDefinition(r: Repaired, line: string, k: nat)
    requires k < |InsertedFor(line, r.defined)|
    ensures var out := RepairLine(r, line).lines;
      |r.lines| + k < |out|
      && out[|r.lines| + k] == Spaces(Indent(line)) + DefaultDefinition(InsertedFor(line, r.defined)[k])
  {
    WithDefinitionsAt(r.lines, Indent(line), InsertedFor(line, r.defined), k);
  }

  /** A blank line, a comment line or a line holding `=` (as in `==`) gets no definitions. */
  lemma SkippedLineTriggersNothing(line: string, defined: set<string>)
    requires IsSkipped(line) || '=' in line
    ensures InsertedFor(line, defined) == []
    ensures RepairLine(Repaired([], defined, 0), line).lines == [line]
  {
  }

  /** A reported word occurs among the words, is no keyword and is not yet defined. */
  lemma UndefinedMember(words: seq<string>, known: set<string>, v: string)
    requires v in UndefinedIn(words, known)
    ensures v in words && v !in known && v !in Keywords
  {
    UndefinedCounts(words, known, v);
  }

  /**
    The names inserted before a line are identifiers of that line that were
    not defined yet and are no keywords; a name the line holds `n` times is
    inserted `n` times.
   */
  lemma InsertedNames(line: string, defined: set<string>, v: string)
    requires v in InsertedFor(line, defined)
    ensures v in Identifiers(line) && v !in defined && v !in Keywords
    ensures multiset(InsertedFor(line, defined))[v] == multiset(Identifiers(line))[v]
  {
    UndefinedMember(Identifiers(line), defined, v);
    UndefinedCounts(Identifiers(line), defined, v);
  }

  /** A name of `names` is in their set. */
  lemma {:induction false} NameSetHas(names: seq<string>, k: nat)
    requires k < |names|
    ensures names[k] in NameSet(names)
    decreases |names|
  {
    if k < |names| - 1 {
      NameSetHas(names[..|names| - 1], k);
    }
  }

  // ---------------------------------------------------------------------
  // The whole pass
  // ---------------------------------------------------------------------

  /**
    `step` keeps the lines produced so far, adds one line per name of
    `ins(line, defined)` and then `line`, and learns those names.
   */
  ghost predicate Extends(step: (Repaired, string) -> Repaired, ins: (string, set<string>) -> seq<string>) {
    forall r: Repaired, line: string ::
      var out := step(r, line).lines;
      |out| == |r.lines| + |ins(line, r.defined)| + 1 && out[..|r.lines|] == r.lines && out[|out| - 1] == line
      && step(r, line).defined == r.defined + NameSet(ins(line, r.defined))
  }

  lemma RepairLineSteps()
    ensures Extends(RepairLine, InsertedFor)
  {
    forall r: Repaired, line: string
      ensures var out := RepairLine(r, line).lines;
        |out| == |r.lines| + |InsertedFor(line, r.defined)| + 1 && out[..|r.lines|] == r.lines && out[|out| - 1] == line
    {
      RepairLineLayout(r, line);
    }
  }

  /** The output after `i` lines begins the output after `j >= i`. */
  lemma {:induction false} FoldPrefix(step: (Repaired, string) -> Repaired, ins: (string, set<string>) -> seq<string>,
                                      init: Repaired, lines: seq<string>, i: nat, j: nat)
    requires Extends(step, ins)
    requires i <= j <= |lines|
    ensures var a := Fold(step, init, lines, i).lines;
      var b := Fold(step, init, lines, j).lines;
      |a| <= |b| && b[..|a|] == a
    decreases j
  {
    if i < j {
      FoldPrefix(step, ins, init, lines, i, j - 1);
      var a := Fold(step, init, lines, i).lines;
      var b := Fold(step, init, lines, j - 1).lines;
      var c := Fold(step, init, lines, j).lines;
      assert c[..|a|] == c[..|b|][..|a|];
    }
  }

  /** The names known after `i` lines are still known after `j >= i`. */
  lemma {:induction false} FoldGrows(step: (Repaired, string) -> Repaired, ins: (string, set<string>) -> seq<string>,
                                     init: Repaired, lines: seq<string>, i: nat, j: nat)
    requires Extends(step, ins)
    requires i <= j <= |lines|
    ensures Fold(step, init, lines, i).defined <= Fold(step, init, lines, j).defined
    decreases j
  {
    if i < j {
      FoldGrows(step, ins, init, lines, i, j - 1);
    }
  }

  /** A name inserted before line `i` is known from then on, so it is not inserted again. */
  lemma FoldOnce(step: (Repaired, string) -> Repaired, ins: (string, set<string>) -> seq<string>,
                 init: Repaired, lines: seq<string>, i: nat, j: nat, v: string)
    requires Extends(step, ins)
    requires forall line: string, known: set<string>, w: string :: w in ins(line, known) ==> w !in known
    requires i < j < |lines|
    requires v in ins(lines[i], Fold(step, init, lines, i).defined)
    ensures v !in ins(lines[j], Fold(step, init, lines, j).defined)
  {
    var names := ins(lines[i], Fold(step, init, lines, i).defined);
    var k :| 0 <= k < |names| && names[k] == v;
    NameSetHas(names, k);
    FoldGrows(step, ins, init, lines, i + 1, j);
  }

  // ---------------------------------------------------------------------
  // The whole pass, for `RepairLine`
  // ---------------------------------------------------------------------

  /** The names inserted before line `i` of the script. */
  function InsertedAt(lines: seq<string>, defined: set<string>, i: nat): seq<string>
    requires i < |lines|
  {
    InsertedFor(lines[i], Repair(lines, defined, i).defined)
  }

  /** The output after the first `i` lines begins the output after the first `j`. */
  lemma RepairPrefix(lines: seq<string>, defined: set<string>, i: nat, j: nat)
    requires i <= j <= |lines|
    ensures var a := Repair(lines, defined, i).lines;
      var b := Repair(lines, defined, j).lines;
      |a| <= |b| && b[..|a|] == a
  {
    RepairLineSteps();
    FoldPrefix(RepairLine, InsertedFor, Repaired([], defined, 0), lines, i, j);
  }

  /** Line `i` adds its definitions, then itself, to the output for the lines before it. */
  lemma RepairLinesStep(lines: seq<string>, defined: set<string>, i: nat)
    requires i < |lines|
    ensures Repair(lines, defined, i + 1).lines
      == WithDefinitions(Repair(lines, defined, i).lines, Indent(lines[i]), InsertedAt(lines, defined, i)) + [lines[i]]
  {
  }

  /**
    The repaired script begins with the output for the lines before line `i`,
    then one default definition per name inserted for line `i` (the `k`-th one
    is given by `RepairLineDefinition`: indented like line `i`), then line `i`.
   */
  lemma BlockPlacement(lines: seq<string>, defined: set<string>, i: nat)
    requires i < |lines|
    ensures var out := Repair(lines, defined, |lines|).lines;
      var block := WithDefinitions(Repair(lines, defined, i).lines, Indent(lines[i]), InsertedAt(lines, defined, i)) + [lines[i]];
      |block| <= |out| && out[..|block|] == block
  {
    RepairLinesStep(lines, defined, i);
    RepairPrefix(lines, defined, i + 1, |lines|);
  }

  /** A blank line, a comment line or a line holding `=` is copied alone and changes nothing else. */
  lemma SkippedLineCopied(lines: seq<string>, defined: set<string>, i: nat)
    requires i < |lines|
    requires IsSkipped(lines[i]) || '=' in lines[i]
    ensures Repair(lines, defined, i + 1)
      == Repaired(Repair(lines, defined, i).lines + [lines[i]], Repair(lines, defined, i).defined, Repair(lines, defined, i).fixes)
  {
    SkippedLineTriggersNothing(lines[i], Repair(lines, defined, i).defined);
  }

  /** A name gets definitions before one line at most: it is known from then on. */
  lemma InsertedOnce(lines: seq<string>, defined: set<string>, i: nat, j: nat, v: string)
    requires i < j < |lines|
    requires v in InsertedAt(lines, defined, i)
    ensures v !in InsertedAt(lines, defined, j)
  {
    RepairLineSteps();
    forall line: string, known: set<string>, w: string | w in InsertedFor(line, known)
      ensures w !in known
    {
      InsertedNames(line, known, w);
    }
    FoldOnce(RepairLine, InsertedFor, Repaired([], defined, 0), lines, i, j, v);
  }

  // ---------------------------------------------------------------------
  // Counting
  // ---------------------------------------------------------------------

  /** `step` counts one fix per name it inserts. */
  ghost predicate CountsInserted(step: (Repaired, string) -> Repaired, ins: (string, set<string>) -> seq<string>) {
    forall r: Repaired, line: string :: step(r, line).fixes == r.fixes + |ins(line, r.defined)|
  }

  lemma RepairLineCounts()
    ensures CountsInserted(RepairLine, InsertedFor)
  {
  }

  /** Every fix of the fold is one added line. */
  lemma {:induction false} FoldCount(step: (Repaired, string) -> Repaired, ins: (string, set<string>) -> seq<string>,
                                     init: Repaired, lines: seq<string>, n: nat)
    requires Extends(step, ins) && CountsInserted(step, ins)
    requires n <= |lines|
    ensures |Fold(step, init, lines, n).lines| + init.fixes == |init.lines| + n + Fold(step, init, lines, n).fixes
    decreases n
  {
    if n > 0 {
      FoldCount(step, ins, init, lines, n - 1);
    }
  }

  /** The repair pass adds exactly one line per fix it counts. */
  lemma RepairLineCount(lines: seq<string>, defined: set<string>)
    ensures |Repair(lines, defined, |lines|).lines| == |lines| + Repair(lines, defined, |lines|).fixes
  {
    RepairLineSteps();
    RepairLineCounts();
    FoldCount(RepairLine, InsertedFor, Repaired([], defined, 0), lines, |lines|);
  }

  /**
    The fix count is the inserted definitions, plus one per line and deprecated
    name rewritten, plus one for the numpy import; every fix but the rewrites
    adds a line.
   */
  lemma FixCount(lines: seq<string>, defined: set<string>, apis: seq<(string, string)>)
    ensures |FixLines(lines, defined, apis).0| + SubstituteApis(Repair(lines, defined, |lines|).lines, apis).1
      == |lines| + FixLines(lines, defined, apis).1
  {
    RepairLineCount(lines, defined);
  }

  // ---------------------------------------------------------------------
  // The lines of the returned text
  // ---------------------------------------------------------------------

  /** No line holds a newline. */
  predicate OneLineEach(lines: seq<string>) {
    forall k :: 0 <= k < |lines| ==> '\n' !in lines[k]
  }

  /** An identifier is a piece of its line. */
  lemma {:induction false} IdentifierOneLine(line: string, i: nat, v: string)
    requires i <= |line| && '\n' !in line && v in IdentifiersFrom(line, i)
    ensures '\n' !in v
    decreases |line| - i
  {
    if i < |line| {
      if IsWordChar(line[i]) {
        var e := WordEnd(line, i);
        if IsIdentStart(line[i]) && v == line[i..e] {
          assert forall j :: 0 <= j < e - i ==> line[i..e][j] == line[i + j];
        } else {
          IdentifierOneLine(line, e, v);
        }
      } else {
        IdentifierOneLine(line, i + 1, v);
      }
    }
  }

  lemma {:induction false} SpacesOneLine(n: nat)
    ensures '\n' !in Spaces(n)
  {
    if n > 0 {
      SpacesOneLine(n - 1);
    }
  }

  /** An inserted definition of a one-line name is one line. */
  lemma DefinitionOneLine(indent: nat, name: string)
    requires '\n' !in name
    ensures '\n' !in Spaces(indent) + DefaultDefinition(name)
  {
    assert '\n' !in PlaceholderNote;
    assert '\n' !in TemplateText(TemplateFor(name));
    SpacesOneLine(indent);
  }

  /** The `j`-th definition a step inserts before a one-line line is one line. */
  lemma InsertedOneLine(r: Repaired, line: string, j: nat)
    requires '\n' !in line && j < |InsertedFor(line, r.defined)|
    ensures |r.lines| + j < |RepairLine(r, line).lines| && '\n' !in RepairLine(r, line).lines[|r.lines| + j]
  {
    var v := InsertedFor(line, r.defined)[j];
    RepairLineDefinition(r, line, j);
    InsertedNames(line, r.defined, v);
    IdentifierOneLine(line, 0, v);
    DefinitionOneLine(Indent(line), v);
  }

  /** One step of the repair pass keeps every line one line. */
  lemma RepairLineOneLine(r: Repaired, line: string)
    requires OneLineEach(r.lines) && '\n' !in line
    ensures OneLineEach(RepairLine(r, line).lines)
  {
    var out := RepairLine(r, line).lines;
    var n := |InsertedFor(line, r.defined)|;
    RepairLineLayout(r, line);
    forall k | 0 <= k < |out|
      ensures '\n' !in out[k]
    {
      if k < |r.lines| {
        PrefixAt(out, r.lines, k);
      } else if k < |r.lines| + n {
        InsertedOneLine(r, line, k - |r.lines|);
      }
    }
  }

  /** The repair pass turns one-line lines into one-line lines. */
  lemma {:induction false} RepairOneLine(lines: seq<string>, defined: set<string>, n: nat)
    requires n <= |lines| && OneLineEach(lines)
    ensures OneLineEach(Repair(lines, defined, n).lines)
    decreases n
  {
    if n > 0 {
      var r := Repair(lines, defined, n - 1);
      RepairOneLine(lines, defined, n - 1);
      assert Repair(lines, defined, n) == RepairLine(r, lines[n - 1]);
      RepairLineOneLine(r, lines[n - 1]);
    }
  }

  /** Rewriting deprecated names with one-line replacements keeps every line one line. */
  lemma {:induction false} SubstituteApisOneLine(lines: seq<string>, apis: seq<(string, string)>)
    requires OneLineEach(lines)
    requires forall i :: 0 <= i < |apis| ==> '\n' !in apis[i].1
    ensures OneLineEach(SubstituteApis(lines, apis).0)
    decreases |apis|
  {
    if |apis| > 0 {
      var init := apis[..|apis| - 1];
      assert forall i :: 0 <= i < |init| ==> init[i] == apis[i];
      SubstituteApisOneLine(lines, init);
      var prev := SubstituteApis(lines, init).0;
      var (key, repl) := apis[|apis| - 1];
      forall k | 0 <= k < |prev|
        ensures '\n' !in Substitute(prev, key, repl)[k]
      {
        SubstituteAt(prev, key, repl, k);
        if Contains(prev[k], key) {
          ReplaceChars(prev[k], key, repl, '\n');
        }
      }
    }
  }

  /** The numpy import is one line. */
  lemma NumpyOneLine(lines: seq<string>)
    requires OneLineEach(lines)
    ensures OneLineEach(AddNumpyImport(lines).0)
  {
    assert '\n' !in NumpyImport;
    if NeedsNumpy(lines) {
      var p := NumpyPosition(lines);
      var out := lines[..p] + [NumpyImport] + lines[p..];
      forall k | 0 <= k < |out|
        ensures '\n' !in out[k]
      {
        if k < p {
          assert out[k] == lines[k];
        } else if k > p {
          assert out[k] == lines[k - 1];
        }
      }
    }
  }

  /**
    The returned text splits back into the lines the phases produced, so the
    fix count holds of the text itself: its lines plus the lines a deprecated
    name was rewritten on are the lines of `code` plus the fixes.
   */
  lemma TextFixCount(code: string, apis: seq<(string, string)>)
    requires forall i :: 0 <= i < |apis| ==> '\n' !in apis[i].1
    ensures var lines := Split(code, '\n');
      Split(AutofixWith(code, apis).0, '\n') == FixLines(lines, DefinedNames(lines), apis).0
      && |Split(AutofixWith(code, apis).0, '\n')| + SubstituteApis(Repair(lines, DefinedNames(lines), |lines|).lines, apis).1
        == |lines| + AutofixWith(code, apis).1
  {
    var lines := Split(code, '\n');
    var defined := DefinedNames(lines);
    var repaired := Repair(lines, defined, |lines|).lines;
    SplitParts(code, '\n');
    RepairOneLine(lines, defined, |lines|);
    RepairLineCount(lines, defined);
    SubstituteApisOneLine(repaired, apis);
    NumpyOneLine(SubstituteApis(repaired, apis).0);
    SplitJoin(FixLines(lines, defined, apis).0, '\n');
    FixCount(lines, defined, apis);
  }

  /** The replacements in the table are one line each. */
  lemma DeprecatedApisOneLine()
    ensures forall i :: 0 <= i < |DeprecatedApis| ==> '\n' !in DeprecatedApis[i].1
  {
    forall i | 0 <= i < |DeprecatedApis|
      ensures '\n' !in DeprecatedApis[i].1
    {
      assert i == 0 || i == 1 || i == 2 || i == 3 || i == 4;
    }
  }

  // ---------------------------------------------------------------------
  // Nothing to fix
  // ---------------------------------------------------------------------

  /** When every step on the lines of `lines[..n]` only copies its line while nothing is learned, so does the fold. */
  lemma {:induction false} FoldIdle(step: (Repaired, string) -> Repaired, init: Repaired, lines: seq<string>, n: nat)
    requires n <= |lines|
    requires forall r: Repaired, k {:trigger step(r, lines[k])} ::
      0 <= k < n && r.defined == init.defined && r.fixes == init.fixes ==> step(r, lines[k]) == Repaired(r.lines + [lines[k]], r.defined, r.fixes)
    ensures Fold(step, init, lines, n) == Repaired(init.lines + lines[..n], init.defined, init.fixes)
    decreases n
  {
    if n > 0 {
      FoldIdle(step, init, lines, n - 1);
      assert lines[..n - 1] + [lines[n - 1]] == lines[..n];
    }
  }

  /** When no line triggers with the names defined at the start, the repair pass copies the script and counts nothing. */
  lemma NothingTriggers(lines: seq<string>, defined: set<string>)
    requires forall k :: 0 <= k < |lines| ==> !Triggers(lines[k], defined)
    ensures Repair(lines, defined, |lines|) == Repaired(lines, defined, 0)
  {
    forall r: Repaired, k | 0 <= k < |lines| && r.defined == defined && r.fixes == 0
      ensures RepairLine(r, lines[k]) == Repaired(r.lines + [lines[k]], r.defined, r.fixes)
    {
      assert InsertedFor(lines[k], r.defined) == [];
    }
    FoldIdle(RepairLine, Repaired([], defined, 0), lines, |lines|);
    assert lines[..|lines|] == lines;
  }

  /** When no line holds any deprecated name, the rewrite pass changes and counts nothing. */
  lemma {:induction false} NoDeprecatedNames(lines: seq<string>, apis: seq<(string, string)>)
    requires forall a, k :: 0 <= a < |apis| && 0 <= k < |lines| ==> !Contains(lines[k], apis[a].0)
    ensures SubstituteApis(lines, apis).0 == lines && SubstituteApis(lines, apis).1 == 0
    decreases |apis|
  {
    if |apis| > 0 {
      var m := |apis| - 1;
      NoDeprecatedNames(lines, apis[..m]);
      var key := apis[m].0;
      LinesContainingCounts(lines, key);
      assert LinesWith(lines, key) == {};
      SubstituteWithoutHits(lines, key, apis[m].1);
    }
  }

  /**
    A script in which no line triggers a definition, no line holds a deprecated
    name and numpy is not needed comes back unchanged, with no fix counted.
   */
  lemma NothingToFix(code: string, apis: seq<(string, string)>)
    requires var lines := Split(code, '\n');
      (forall k :: 0 <= k < |lines| ==> !Triggers(lines[k], DefinedNames(lines)))
      && (forall a, k :: 0 <= a < |apis| && 0 <= k < |lines| ==> !Contains(lines[k], apis[a].0))
      && !NeedsNumpy(lines)
    ensures AutofixWith(code, apis).0 == code
    ensures AutofixWith(code, apis).1 == 0
  {
    var lines := Split(code, '\n');
    NothingTriggers(lines, DefinedNames(lines));
    NoDeprecatedNames(lines, apis);
    JoinSplit(code, '\n');
  }

  // ---------------------------------------------------------------------
  // Deprecated names
  // ---------------------------------------------------------------------

  /**
    A key that its own replacement contains is still present after the
    rewrite, and rewriting again lengthens the line again.
   */
  lemma RewriteRefires(line: string, key: string, repl: string)
    requires Contains(line, key) && Contains(repl, key) && |key| < |repl|
    ensures Contains(SubstituteLine(line, key, repl), key)
    ensures |SubstituteLine(SubstituteLine(line, key, repl), key, repl)| > |SubstituteLine(line, key, repl)|
  {
    ReplaceKeepsKey(line, key, repl);
    ReplaceGrows(SubstituteLine(line, key, repl), key, repl);
  }

  /** `add_background_rectangle` becomes `add_background_rectangle()`, which a second run rewrites again. */
  lemma BackgroundRectangleRefires(line: string)
    requires Contains(line, DeprecatedApis[0].0)
    ensures var (key, repl) := DeprecatedApis[0];
      SubstituteLine(SubstituteLine(line, key, repl), key, repl) != SubstituteLine(line, key, repl)
  {
    var (key, repl) := DeprecatedApis[0];
    assert repl == key + "()";
    ContainsPrefix(key, "()");
    RewriteRefires(line, key, repl);
  }

  // ---------------------------------------------------------------------
  // The numpy import
  // ---------------------------------------------------------------------

  /**
    The import goes right after the first line holding `import`, or first when
    none does; every other line keeps its place relative to it.
   */
  lemma NumpyPlacement(lines: seq<string>)
    requires NeedsNumpy(lines)
    ensures var out := AddNumpyImport(lines).0;
      var p := NumpyPosition(lines);
      p <= |lines| && out[..p] == lines[..p] && out[p] == NumpyImport && out[p + 1..] == lines[p..]
    ensures NumpyPosition(lines) == 0 <==> !AnyLineContains(lines, "import")
    ensures NumpyPosition(lines) > 0 ==> Contains(lines[NumpyPosition(lines) - 1], "import")
    ensures forall k :: 0 <= k < NumpyPosition(lines) - 1 ==> !Contains(lines[k], "import")
  {
    var out := AddNumpyImport(lines).0;
    var p := NumpyPosition(lines);
    assert out[p + 1..] == lines[p..];
  }

  /** After the numpy phase numpy is never needed, so a second run adds no import. */
  lemma NumpyOnce(lines: seq<string>)
    ensures !NeedsNumpy(AddNumpyImport(lines).0)
    ensures AddNumpyImport(AddNumpyImport(lines).0).1 == 0
  {
    if NeedsNumpy(lines) {
      NumpyPlacement(lines);
      ContainsAt(NumpyImport, NumpyImport, 0);
    }
  }

  // ---------------------------------------------------------------------
  // Templates
  // ---------------------------------------------------------------------

  /** A character `i` places from the end of a suffix is that far from the end of the string. */
  lemma EndsWithAt(s: string, t: string, i: nat)
    requires EndsWith(s, t) && 0 < i <= |t|
    ensures s[|s| - i] == t[|t| - i]
  {
    assert s[|s| - |t|..][|t| - i] == s[|s| - i];
  }

  /**
    No name has two of the four suffix groups, and `title` has none, so each
    template is chosen by its own test whatever the order of the tests.
   */
  lemma TemplateBySuffix(name: string)
    ensures TemplateFor(name) == TextTemplate <==> EndsWith(name, "_text") || EndsWith(name, "Text")
    ensures TemplateFor(name) == CircleTemplate <==> EndsWith(name, "_circle") || EndsWith(name, "Circle")
    ensures TemplateFor(name) == ArrowTemplate <==> EndsWith(name, "_arrow") || EndsWith(name, "Arrow")
    ensures TemplateFor(name) == DotTemplate <==> EndsWith(name, "_dot") || EndsWith(name, "Dot")
    ensures TemplateFor(name) == TitleTemplate <==> name == "title"
  {
    if EndsWith(name, "_text") || EndsWith(name, "Text") {
      EndsWithAt(name, if EndsWith(name, "_text") then "_text" else "Text", 1);
      EndsWithAt(name, if EndsWith(name, "_text") then "_text" else "Text", 2);
    }
    if EndsWith(name, "_circle") || EndsWith(name, "Circle") {
      EndsWithAt(name, if EndsWith(name, "_circle") then "_circle" else "Circle", 1);
      EndsWithAt(name, if EndsWith(name, "_circle") then "_circle" else "Circle", 3);
    }
    if EndsWith(name, "_arrow") || EndsWith(name, "Arrow") {
      EndsWithAt(name, if EndsWith(name, "_arrow") then "_arrow" else "Arrow", 1);
    }
    if EndsWith(name, "_dot") || EndsWith(name, "Dot") {
      EndsWithAt(name, if EndsWith(name, "_dot") then "_dot" else "Dot", 1);
      EndsWithAt(name, if EndsWith(name, "_dot") then "_dot" else "Dot", 2);
    }
  }
}
