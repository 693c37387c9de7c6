# manim_show core, modelled in Dafny

manim_show turns a natural-language prompt into a Manim animation in four steps:

1. A language model writes Python scene code, and the service guards what comes back.
2. The code is cleaned: markdown fences, prose before the import, trailing prose, CJK comment lines and LaTeX calls are taken out or rewritten.
3. The cleaned code is rendered by the `manim` command-line tool. The resulting video is found on disk, or a fallback frame or video is produced that shows the error.
4. The animation's status becomes `completed` or `failed`.

The project also models the separate repair pass `autofix_manim_code`. That pass adds default definitions for names that are used but never assigned, rewrites deprecated API names, and inserts `import numpy as np`. Finally it models the `SystemPrompt` table: at most one prompt is active, `get_active` returns it, and an active prompt cannot be deleted.

Modules:

- `Wrappers` (wrappers.dfy): `Option`.
- `Text` (text.dfy): the Python string primitives the core relies on. These are `in` on strings, `str.find`, `split` and `join` on a character, `replace`, `strip`/`lstrip`/`rstrip` with Python's whitespace set, ASCII `\w`, and `str(n)`.
- `Autofix` (autofix.dfy) and `AutofixProperties` (autofix_props.dfy): `autofix_manim_code`.
  - Functions specify each phase: the name sets, the per-line repair fold, the deprecated-name substitution and the numpy import.
  - Methods with loops follow the Python loops. Each method is proved equal to its specification function.
  - Lemmas prove what the repair promises.
- `CleanCode` (clean.dfy) and `CleanProperties` (clean_props.dfy): `clean_manim_code`.
  - Each regular expression is written out as a scanner over the string.
  - The method `CleanManimCode` reassigns the code step by step, with the fence pass and the trailing trim as written, and runs the line-filter loop. It is proved equal to `Cleaned`, the cleaner as written.
  - `CleanedIntended` is the same pipeline with the corrected fence pass and trim (see Findings); the lemmas about the output hold of both.
- `Execution` (execute.dfy) and `ExecutionProperties` (execute_props.dfy): the control logic of `execute_manim_code` and the return path and layout of `_create_fallback_video`.
  - The renderer, the file system and the encoder are given as an `Environment` value: how the run ended, the listed video files with their modification times, and whether the frame image was saved and encoded.
- `Generation` (generation.dfy): the guard that `generate_manim_code_from_llm` applies to the model's reply, and the sample code that `generate_sample_manim_code` returns.
- `SystemPrompts` (prompts.dfy) and `SystemPromptProperties` (prompts_props.dfy):
  - the class `PromptTable`, which holds the rows as a map from primary key to record;
  - the decision made by the delete view.

## Model

| member | source | states |
|---|---|---|
| Text.IndexOf | api/views.py:431 | the search `split(marker)` performs: the first index at which the pattern occurs, no earlier occurrence, and None exactly when the pattern is absent |
| Text.JoinSplit | api/functions/autofix.py:14 | joining `code.split('\n')` with `'\n'` gives the code back (used by line 110) |
| Text.SplitJoin | api/functions/autofix.py:110 | splitting a join of newline-free lines gives the lines back |
| Text.SplitParts | api/functions/autofix.py:14 | no part produced by `split('\n')` contains a newline |
| Text.LStripSpaces | api/functions/autofix.py:77 | `lstrip` removes exactly the leading whitespace run, so the indent is the number of leading whitespace characters |
| Text.RStripSpaces | api/views.py:431 | `strip` removes exactly the trailing whitespace run |
| Text.ReplaceAbsent | api/functions/autofix.py:96 | `replace` with a key the line does not contain changes nothing |
| Text.ReplaceGrows | api/functions/autofix.py:96 | replacing a key with a longer text never shortens the line, and lengthens it when the key occurs |
| Text.ReplaceKeepsKey | api/functions/autofix.py:86 | a replacement that contains its own key leaves the key in the line |
| Text.WordEndRun | api/functions/autofix.py:50 | a `\w` run ends at the first non-word character |
| Text.NatToString | api/views.py:319 | `str(animation_id)` is non-empty ASCII without newlines |
| Autofix.UndefinedCounts | api/functions/autofix.py:50-57 | a word appears among the undefined words exactly as often as in the line, unless it is defined or a keyword, when it does not appear at all |
| Autofix.Appended | api/functions/autofix.py:61-80 | the definitions block adds exactly one line per undefined name |
| Autofix.WithDefinitions | api/functions/autofix.py:76-78 | each inserted definition adds one line |
| Autofix.Substitute | api/functions/autofix.py:94-96 | the substitution keeps the number of lines |
| Autofix.SubstituteAt | api/functions/autofix.py:94-96 | line k after the substitution is line k with every occurrence of the deprecated name replaced |
| Autofix.LinesContainingCounts | api/functions/autofix.py:95-97 | one fix is counted for each line that contains the deprecated name |
| Autofix.SubstituteApis | api/functions/autofix.py:85-97 | the five substitutions keep the number of lines |
| Autofix.FirstLineContaining | api/functions/autofix.py:101-105 | the first line that contains "import", with no earlier one, and None exactly when no line does |
| Autofix.AddNumpyImport | api/functions/autofix.py:99-108 | at most one line is added, and exactly one when `np.` is used without `import numpy as np` |
| Autofix.AutofixManimCode | api/functions/autofix.py:3-110 | the method returns the fixed code and fix count of the specification `Autofix` |
| Autofix.AutofixManimCodeWith | api/functions/autofix.py:3-110 | the same for any table of deprecated names |
| Autofix.FixAllLines | api/functions/autofix.py:42-108 | the line phases of the method equal their specification |
| Autofix.CollectDefinedNames | api/functions/autofix.py:18-40 | the loop builds the seed set, the class names and the assignment targets |
| Autofix.AddClassNames | api/functions/autofix.py:25-29 | adds the first `class` name of every line |
| Autofix.AddAssignedNames | api/functions/autofix.py:32-40 | adds every `name =` target of the non-comment, non-blank lines, except `self`, `if`, `elif`, `while` and `for` |
| Autofix.AddTargets | api/functions/autofix.py:37-40 | adds the targets of one line, less the excluded words |
| Autofix.CollectUndefined | api/functions/autofix.py:50-57 | collects the undefined words of a line in order, with repeats |
| Autofix.InsertDefinitions | api/functions/autofix.py:43-82 | the insertion loop equals the repair fold over all lines |
| Autofix.RepairStep | api/functions/autofix.py:44-82 | one iteration equals one step of the repair fold |
| Autofix.AddDefinitions | api/functions/autofix.py:61-80 | appends one indented definition per name, adds the names to the defined set, and counts one fix each |
| Autofix.ReplaceKey | api/functions/autofix.py:94-97 | the inner substitution loop equals `Substitute` and counts the lines that contain the key |
| Autofix.ReplaceDeprecated | api/functions/autofix.py:85-97 | the outer loop over the deprecated table equals `SubstituteApis` |
| Autofix.EnsureNumpyImport | api/functions/autofix.py:99-108 | the numpy step equals `AddNumpyImport` |
| Autofix.RepairLineFixes | api/functions/autofix.py:44-82 | one repair step never lowers the count, and without a fix it only copies the line |
| Autofix.FoldWithoutFixes | api/functions/autofix.py:44-82 | a fold of such steps that fixes nothing copies the lines unchanged |
| Autofix.RepairWithoutFixes | api/functions/autofix.py:44-82 | a repair that fixes nothing leaves the lines as they were |
| Autofix.SubstituteWithoutHits | api/functions/autofix.py:94-97 | with no line that contains the key, the lines are unchanged |
| Autofix.SubstituteApisWithoutHits | api/functions/autofix.py:93-97 | zero substitution fixes means unchanged lines |
| Autofix.FixLinesWithoutFixes | api/functions/autofix.py:42-108 | zero fixes over all line phases means unchanged lines |
| Autofix.NoFixesNoChange | api/functions/autofix.py:3-110 | a reported count of 0 means the returned code equals the input |
| AutofixProperties.AppendedKeeps | api/functions/autofix.py:78 | appending definitions keeps the lines already produced |
| AutofixProperties.AppendedAt | api/functions/autofix.py:78 | the k-th appended line is the k-th name's definition |
| AutofixProperties.WithDefinitionsAt | api/functions/autofix.py:63-78 | the k-th inserted line is the indent followed by the default definition of the k-th undefined name |
| AutofixProperties.RepairLineLayout | api/functions/autofix.py:61-82 | one step keeps the earlier output, then inserts one definition per undefined name, then the original line |
| AutofixProperties.RepairLineDefinition | api/functions/autofix.py:63-78 | each inserted definition carries the line's indent and the template chosen by the name |
| AutofixProperties.SkippedLineTriggersNothing | api/functions/autofix.py:44-59 | comment lines, blank lines and lines containing `=` trigger no insertion and are copied as they are |
| AutofixProperties.UndefinedMember | api/functions/autofix.py:53-57 | an undefined word occurs in the line, is not defined and is not a keyword |
| AutofixProperties.InsertedNames | api/functions/autofix.py:50-61 | every inserted name is an identifier of the line that is neither defined nor a keyword, and it is inserted as often as it occurs |
| AutofixProperties.NameSetHas | api/functions/autofix.py:79 | every inserted name joins the defined set |
| AutofixProperties.RepairLineSteps | api/functions/autofix.py:44-82 | a repair step only extends its output and grows its defined set by the inserted names |
| AutofixProperties.FoldPrefix | api/functions/autofix.py:44-82 | later iterations never rewrite earlier output |
| AutofixProperties.FoldGrows | api/functions/autofix.py:79 | the defined set only grows during the loop |
| AutofixProperties.FoldOnce | api/functions/autofix.py:79 | a name inserted at one line is never inserted again at a later line |
| AutofixProperties.RepairPrefix | api/functions/autofix.py:44-82 | the output after i lines is a prefix of the output after j >= i lines |
| AutofixProperties.RepairLinesStep | api/functions/autofix.py:61-82 | line i contributes its definitions block followed by itself |
| AutofixProperties.BlockPlacement | api/functions/autofix.py:76-82 | each line's definitions appear immediately before that line in the final output |
| AutofixProperties.SkippedLineCopied | api/functions/autofix.py:44-59 | a skipped line adds only itself and changes neither the defined set nor the count |
| AutofixProperties.InsertedOnce | api/functions/autofix.py:79 | no name gets two default definitions |
| AutofixProperties.RepairLineCounts | api/functions/autofix.py:80 | one repair step counts one fix per inserted line |
| AutofixProperties.FoldCount | api/functions/autofix.py:80 | the output length grows by the number of lines plus the number of fixes |
| AutofixProperties.RepairLineCount | api/functions/autofix.py:80-82 | the output has exactly as many lines as the input plus the definitions counted |
| AutofixProperties.FixCount | api/functions/autofix.py:80-108 | the final line count is the input plus the counted insertions, with substitution fixes adding no lines |
| AutofixProperties.RepairOneLine | api/functions/autofix.py:44-82 | every line the repair pass produces from one-line input is one line |
| AutofixProperties.TextFixCount | api/functions/autofix.py:14-110 | with one-line replacements, the returned text splits back into the produced lines, so the count relation holds of its `split('\n')` |
| AutofixProperties.DeprecatedApisOneLine | api/functions/autofix.py:85-91 | every replacement in the deprecated-name table is one line |
| AutofixProperties.FoldIdle | api/functions/autofix.py:44-82 | when no step inserts anything, the fold copies the lines |
| AutofixProperties.NothingTriggers | api/functions/autofix.py:59 | with no line that has undefined words and no `=`, the repair is the identity with zero fixes |
| AutofixProperties.NoDeprecatedNames | api/functions/autofix.py:93-97 | with no deprecated name present, the substitution is the identity with zero fixes |
| AutofixProperties.NothingToFix | api/functions/autofix.py:3-110 | code with nothing to repair, no deprecated names and no needed numpy import is returned unchanged with count 0 |
| AutofixProperties.RewriteRefires | api/functions/autofix.py:85-97 | a replacement that contains its key still contains the key, and replacing again lengthens it again |
| AutofixProperties.BackgroundRectangleRefires | api/functions/autofix.py:86 | `add_background_rectangle` maps to `add_background_rectangle()`, so the rewrite is not idempotent |
| AutofixProperties.NumpyPlacement | api/functions/autofix.py:99-108 | the import goes right after the first line containing "import", or at the top when there is none, and every other line keeps its place |
| AutofixProperties.NumpyOnce | api/functions/autofix.py:99-108 | after the step numpy is no longer needed, and a second step adds nothing |
| AutofixProperties.TemplateBySuffix | api/functions/autofix.py:63-74 | the template is chosen by the suffixes `_text`/`Text`, `_circle`/`Circle`, `_arrow`/`Arrow`, `_dot`/`Dot` and the name `title`, in that order |
| CleanCode.LastNewline | api/views.py:460 | the `^` of the MULTILINE fence regex: the last newline before a position, with none after it |
| CleanCode.OpenFenceEnd | api/views.py:460 | an opening-fence match ends past the three backticks |
| CleanCode.DropOpenFences | api/views.py:460 | removing every opening-fence match never lengthens the text |
| CleanCode.FirstOpenFence | api/views.py:460 | the first opening-fence match from a position |
| CleanCode.CutAtFence | api/views.py:463 | cutting at the first remaining fence keeps a prefix |
| CleanCode.SpacedWordEnd | api/views.py:467 | the `\s+` separator of `from\s+manim\s+import` stays inside the text |
| CleanCode.FirstAnchor | api/views.py:467-471 | the first `from manim import` match, with none before it |
| CleanCode.CloseParen | api/views.py:475 | the first `)` from a position, with none before it |
| CleanCode.FirstNonCode | api/views.py:480 | the first newline that, after optional whitespace, is followed by `#`, the end of the text, `注意` or `Note` |
| CleanCode.LastCall | api/views.py:475 | the last `self.play` or `self.wait` before a position, with none after it |
| CleanCode.AsciiOnly | api/views.py:493-495 | removing the non-ASCII characters never lengthens a line |
| CleanCode.FilterLines | api/views.py:486-496 | the filter never adds lines |
| CleanCode.QuoteEnd | api/views.py:507-510 | `[^"]+` and `[^']+` stop at the first closing quote |
| CleanCode.RawCallEnd | api/views.py:507-510 | a raw `MathTex`/`Tex` call match ends past its non-empty argument |
| CleanCode.CleanManimCode | api/views.py:454-513 | the step-by-step cleaner equals `Cleaned`: every line-initial opening-fence match removed, the cut at the next fence, the import anchor, the trim that never cuts, the line filter, the newline and the four rewrites, as written |
| CleanCode.KeepLines | api/views.py:486-496 | the line loop drops CJK lines and strips the non-ASCII characters of the others |
| CleanProperties.CutLeavesNoFence | api/views.py:463 | no fence survives the cut |
| CleanProperties.FencePassNoFence | api/views.py:460-463 | no fence survives the fence pass, as written or corrected |
| CleanProperties.DropOpenFencesCopies | api/views.py:460 | text without backticks passes the fence removal unchanged |
| CleanProperties.NoFenceAt | api/views.py:460 | no fence match starts at a non-backtick character |
| CleanProperties.OpeningFenceMatch | api/views.py:460 | a leading ```` ```python ```` line is matched and removed |
| CleanProperties.BareFenceMatch | api/views.py:460 | a bare ```` ``` ```` line followed by code is also removed, even when it closes a block |
| CleanProperties.FirstFenceAfter | api/views.py:463 | the cut happens at the first fence |
| CleanProperties.ClosingFenceAsWritten | api/views.py:460-463 | as written, the prose after a closed ```` ```python ```` block survives the cleaning |
| CleanProperties.ClosingFenceIntended | api/views.py:460-463 | corrected, the closing fence and everything after it are removed |
| CleanProperties.AnchoredStart | api/views.py:467-471 | the anchored code is a suffix that starts at the first `from manim import`, and the code is unchanged when there is none |
| CleanProperties.CallMatchToEnd | api/views.py:475 | as written, every match of the trim regex runs to the end of the text |
| CleanProperties.FirstCallMatchToEnd | api/views.py:475-478 | so `last_method_match.end()` is always the text's length |
| CleanProperties.TrimAsWrittenKeepsAll | api/views.py:475-483 | as written, the trailing trim never removes anything |
| CleanProperties.TrimAfterLastCallCuts | api/views.py:475-483 | corrected, the code is cut at the first non-code line after the closing parenthesis of the last call, and kept whole when there is no call |
| CleanProperties.AsciiOnlyAscii | api/views.py:493-495 | a cleaned line is ASCII, and an ASCII line is kept as is |
| CleanProperties.FilterLinesAscii | api/views.py:486-496 | every kept line is ASCII, and all-ASCII input is kept whole |
| CleanProperties.JoinAscii | api/views.py:499 | joining ASCII lines gives ASCII text |
| CleanProperties.RewriteAscii | api/views.py:507-510 | the LaTeX rewrite keeps the text ASCII |
| CleanProperties.RewriteKeepsNewline | api/views.py:502-510 | the LaTeX rewrite keeps the trailing newline |
| CleanProperties.RewriteUntouched | api/views.py:507-510 | code without a raw call is not rewritten |
| CleanProperties.RewriteCall | api/views.py:507-510 | ``MathTex(r"x")`` becomes ``Text(r"x")`` |
| CleanProperties.PassCopies | api/views.py:507-510 | a rewrite pass copies a call that does not open its own pattern, whenever the argument does not hold the pass's `name(r` |
| CleanProperties.LatexCallBecomesText | api/views.py:507-510 | through all four rewrites, a `MathTex` or `Tex` call with a raw argument in either quote style (parentheses such as `V(r)` included) leaves as ``Text(r"…")`` with the same argument, and the rest is rewritten on its own; only an argument holding `Tex(r` is excluded, since another pass can rewrite inside it |
| CleanProperties.RewriteLatexAsciiLine | api/views.py:507-510 | all four rewrites keep ASCII text ending in a newline |
| CleanProperties.TerminatedAsciiLine | api/views.py:502-503 | the text ends with a newline after the newline step |
| CleanProperties.FinishedAsciiLine | api/views.py:486-510 | the line filter, the join, the newline step and the rewrites yield ASCII ending in a newline |
| CleanProperties.CleanedAsciiLine | api/views.py:454-513 | the cleaner's output is entirely ASCII and ends with a newline, for every input, as written and corrected |
| CleanProperties.NoFenceReachesFilter | api/views.py:460-483 | no fence reaches the line filter, as written and corrected |
| Generation.PromptHead | api/views.py:223 | `prompt[:30]` is a prefix of at most 30 characters, and the whole prompt when it is short |
| Generation.GuardedCode | api/views.py:213-237 | the guarded reply contains "from manim import"; a reply that has it is returned unchanged, a non-empty reply without it becomes `from manim import *\n\n` followed by the reply, and an empty or missing reply becomes that prefix followed by the placeholder scene |
| Generation.PrefixedImports | api/views.py:219 | prefixing the import gives text that contains it and ends with the body |
| Generation.SampleImportsManim | api/views.py:251-296 | the sample code contains "from manim import" |
| Generation.GeneratedImportsManim | api/views.py:84-296 | whatever happens (no configuration, a failed request or any reply), the generated code contains "from manim import" |
| Execution.ClassHeadAt | api/views.py:333 | a `class\s+(\w+)\s*\(` head puts the keyword, the name and the parenthesis in that order |
| Execution.FirstClass | api/views.py:333-338 | the leftmost match of a class pattern, with none before it |
| Execution.SecondPart | api/views.py:431-433 | `split(marker)[1]` exists exactly when the marker occurs |
| Execution.FirstLine | api/views.py:431-433 | `split("\n")[0]` is a newline-free prefix |
| Execution.Matching | api/views.py:395-407 | the glob results are exactly the listed files that match, in listing order |
| Execution.MostRecent | api/views.py:411-412 | the newest video by modification time, and the first one among equals, as a stable reverse sort gives |
| Execution.FallbackResult | api/views.py:576-608 | None exactly when the image could not be saved; otherwise `animations/animation_<id>.mp4` when encoding succeeded and the frame `animations/frame_<id>.png` when it failed |
| Execution.Layout | api/views.py:523-573 | three rows at y 190, 240 and 280, each centred on the 640-pixel canvas by floor division |
| Execution.FindVideo | api/views.py:380-422 | the discovery cascade equals `DiscoverAsWritten` |
| Execution.ExecuteManimCode | api/views.py:298-452 | the whole run equals `ExecutedAsWritten`: the cleaner as written, the scene search, the routing of the run's outcome and the discovery as written |
| ExecutionProperties.SceneClassChosen | api/views.py:333-345 | the first class deriving from one of the five scene bases is chosen |
| ExecutionProperties.AnyClassChosen | api/views.py:335-345 | without one, the first class with any base list followed by `:` is chosen |
| ExecutionProperties.NoSceneName | api/views.py:335-343 | no scene name exactly when neither pattern matches anywhere |
| ExecutionProperties.SceneNameIsWord | api/views.py:333-345 | a scene name is a non-empty `\w+` word |
| ExecutionProperties.DetailOfLine | api/views.py:431-433 | whatever precedes the first `marker:` (a traceback with its own colons included), the detail is the stripped rest of that line |
| ExecutionProperties.FailureMessageCases | api/views.py:429-436 | ModuleNotFoundError is checked first, then SyntaxError, otherwise "Manim执行失败"; a marker without a colon gives None, because the IndexError escapes to the outer handler |
| ExecutionProperties.MissingModuleMessage | api/views.py:429-431 | whatever precedes the first `ModuleNotFoundError:`, the message is the prefix plus the stripped rest of that line |
| ExecutionProperties.MatchingEmpty | api/views.py:398 | the glob is empty exactly when no listed file matches |
| ExecutionProperties.AsWrittenCopiesExpected | api/views.py:380-390 | as written, a video is copied exactly when the expected `480p15` file exists, and it is that file |
| ExecutionProperties.WiderMatchFallsBack | api/views.py:387-417 | as written, any wider match reads the unbound local `shutil`, so the run falls back with the UnboundLocalError text |
| ExecutionProperties.NothingToCopy | api/views.py:419-422 | with no candidate video, both versions fall back with "Manim生成的视频文件无法找到" |
| ExecutionProperties.AsWrittenIgnoresTimes | api/views.py:405-417 | as written, modification times never change the outcome |
| ExecutionProperties.MatchingFirst | api/views.py:399 | `matching_files[0]` is the first listed match |
| ExecutionProperties.OtherQualityCopied | api/views.py:395-403 | corrected, the first video of the scene in another quality directory is copied |
| ExecutionProperties.NewestVideoCopied | api/views.py:405-417 | corrected, the newest `.mp4` under `media/videos` is copied, when there is one |
| ExecutionProperties.VersionsAgree | api/views.py:380-422 | both versions agree whenever no wider match exists |
| ExecutionProperties.NoSceneNoRender | api/views.py:340-343 | without a scene class the renderer's outcome is irrelevant and the fallback says "无法从代码中提取场景类" |
| ExecutionProperties.RunRouting | api/views.py:424-447 | a timeout falls back with "Manim执行超时", another error with "执行错误: " and its text, and the run is abandoned exactly when a failing stderr has a marker without a colon |
| ExecutionProperties.Delivered | api/views.py:384-452 | None exactly when the run is abandoned or the fallback image was not saved, and `animations/animation_<id>.mp4` exactly for a copy or an encoded fallback; a saved but unencoded fallback yields the frame path |
| ExecutionProperties.StatusRule | api/views.py:61-64 | the status is completed exactly when an output path is returned |
| SystemPrompts.PromptTable.constructor | api/models.py:5-11 | the table starts empty |
| SystemPrompts.PromptTable.Save | api/models.py:20-25 | saving writes the record and, when it is active, first switches every other row off |
| SystemPrompts.PromptTable.GetActive | api/models.py:27-30 | None exactly when no row is active; otherwise the active row with the smallest key |
| SystemPrompts.PromptTable.Delete | api/views.py:744-765 | staff only, the row must exist, an active row is refused, and only a POST deletes; nothing else changes |
| SystemPromptProperties.SaveActiveIsOnlyActive | api/models.py:20-25 | after an active save, the saved row is the only active one |
| SystemPromptProperties.SaveInactiveKeepsOthers | api/models.py:20-25 | an inactive save leaves every other row as it was |
| SystemPromptProperties.SaveTouchesOnlyFlags | api/models.py:22-25 | a save writes its record, keeps every key, and changes only the active flags of other rows |
| SystemPromptProperties.SaveKeepsAtMostOne | api/models.py:20-25 | saves preserve the invariant that at most one row is active |
| SystemPromptProperties.FirstActiveIsTheActive | api/models.py:27-30 | under that invariant, `get_active` returns the one active row |
| SystemPromptProperties.DeleteKeepsActive | api/views.py:744-765 | a delete happens exactly for staff POSTs on existing inactive rows, and never changes which rows are active |

## Left out

- The HTTP request to the language model and the parsing of its JSON reply (api/views.py:88-210) are network I/O. `Generation.LlmReply` stands for their outcome: not configured, failed, or a reply whose code may be missing.
- Running `manim` and `ffmpeg`, writing the temporary file, `os.makedirs`, `shutil.copy`, and drawing with PIL are external programs and I/O. The `Environment` value gives their outcomes: how the run ended, the files present, whether the image was saved, and whether encoding succeeded.
- The uuid in the temporary file name is random. It is a parameter: the base name.
- Execution.Matching: glob's result order is file-system dependent. The model uses the listing order of `files`.
- Execution.IsRenderedVideo: glob's hidden-file rule is approximated. No path component may start with a dot.
- Execution.Layout: font measurement is left out. The measured widths are a parameter, with the defaults of api/views.py:562-564 available through `MeasuredOr`. The canvas colours are not modelled.
- Execution.DiscoverAsWritten: the UnboundLocalError text is Python 3.11's wording. Other Python versions word it differently.
- Execution.ExecuteManimCode: the outer handler also catches errors from writing the file and creating directories. Those are not modelled; only the abandoned stderr split reaches it.
- Execution.FallbackResult: the error message drawn on the frame is not kept in the result. Only the returned path is modelled.
- `\w` and `\s` in the regular expressions are modelled as ASCII word characters and Python's `str.isspace` set. Unicode word characters outside ASCII are not modelled.
- The `print` diagnostics and timestamps throughout are not modelled. The same goes for the `created_at`/`updated_at` fields of the prompt table, the Django views' authentication, and their JSON responses other than the delete decision.
- The system prompt itself is chosen at api/views.py:89-111 but only sent to the model. It is left out with the request.
- `execute_manim_code` never calls `autofix_manim_code`. The model keeps the two separate and adds no retry.
- The cleaner applies the fence removal, the import anchor and the trailing trim one after the other, and it drops only CJK lines; other non-ASCII characters are removed from their lines. `CleanManimCode` and `Cleaned` follow the code; a description of the cleaner as keeping only the first fenced block, or as dropping every non-ASCII line, does not match it.

## Findings

| source | as written | input that shows it | evidently intended | confidence | as-written member | corrected member |
|---|---|---|---|---|---|---|
| api/views.py:475-483 | the `self.play`/`self.wait` regex ends in `[^)]*$`, so `end()` is always the end of the text and the non-code search runs on an empty string, and the trim never cuts anything | `self.play(x)\n# note\n` keeps the comment line | cut at the first non-code line after the last `self.play`/`self.wait` call | high (not executed) | CleanCode.TrimAsWritten, CleanProperties.TrimAsWrittenKeepsAll | CleanCode.TrimAfterLastCall, CleanProperties.TrimAfterLastCallCuts |
| api/views.py:460-463 | the MULTILINE opening-fence regex also matches a bare closing ```` ``` ```` line followed by more text, so it is removed before the closing-fence cut, and the prose after the block survives | ```` ```python\nx\n```\nExplanation ```` yields `x\nExplanation` | remove the closing fence and everything after it | high (not executed) | CleanCode.FencePassAsWritten, CleanProperties.ClosingFenceAsWritten | CleanCode.FencePass, CleanProperties.ClosingFenceIntended |
| api/views.py:387-417 | `import shutil` inside the first branch makes `shutil` a local of the whole function, so the other-quality and newest-video branches raise UnboundLocalError and fall back to an error video | the expected `480p15` file is missing but `media/videos/<base>/720p30/<Scene>.mp4` exists | copy the first other-quality video, or else the newest video | high (not executed) | Execution.DiscoverAsWritten, ExecutionProperties.WiderMatchFallsBack | Execution.Discover, ExecutionProperties.OtherQualityCopied, ExecutionProperties.NewestVideoCopied |
