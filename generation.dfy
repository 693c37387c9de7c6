/**
  The post-processing guard of `generate_manim_code_from_llm` (api/views.py): whatever the
  language model answers, or when it cannot be asked, the code handed on imports manim.
  The request itself (endpoint formats, headers, JSON parsing) is not part of this model:
  its outcome is the `LlmReply` parameter.
 */
module Generation {
  import opened Wrappers
  import opened Text

  /** The substring the guard tests for. */
  const ImportStatement := "from manim import"

  /** The header put in front of a reply that lacks the import. */
  const ImportPrefix := ImportStatement + " *\n\n"

  /** What the model call produced. */
  datatype LlmReply =
    | NotConfigured              // no API key or no endpoint in the environment
    | RequestFailed              // any exception while asking or decoding
    | Replied(content: Option<string>)  // the extracted code; None for a JSON null

  /** `generate_sample_manim_code`: a fixed demonstration scene, whatever the prompt. */
  const SampleCode: string := "\n" + ImportStatement + SampleScene

  /** The sample after its import statement. */
  const SampleScene: string :=
    " *\n"
    + "\n"
    + "class MathAnimation(Scene):\n"
    + "    def construct(self):\n"
    + "        # 创建标题\n"
    + "        title = Text(\"数学演示\", font_size=48)\n"
    + "        title.to_edge(UP)\n"
    + "        self.play(Write(title))\n"
    + "        \n"
    + "        # 创建基本形状\n"
    + "        circle = Circle(radius=1.0, color=BLUE)\n"
    + "        square = Square(side_length=2.0, color=GREEN)\n"
    + "        square.next_to(circle, RIGHT, buff=0.5)\n"
    + "        \n"
    + "        # 显示形状\n"
    + "        self.play(Create(circle), Create(square))\n"
    + "        self.wait()\n"
    + "        \n"
    + "        # 添加文字说明\n"
    + "        circle_text = Text(\"圆形\", font_size=24).next_to(circle, DOWN)\n"
    + "        square_text = Text(\"正方形\", font_size=24).next_to(square, DOWN)\n"
    + "        \n"
    + "        self.play(Write(circle_text), Write(square_text))\n"
    + "        self.wait()\n"
    + "        \n"
    + "        # 变换动画\n"
    + "        self.play(circle.animate.set_color(RED), square.animate.set_color(YELLOW))\n"
    + "        self.wait()\n"
    + "        \n"
    + "        # 移动动画\n"
    + "        self.play(circle.animate.shift(LEFT*2), square.animate.shift(RIGHT*2))\n"
    + "        self.wait()\n"
    + "        \n"
    + "        # 淡出\n"
    + "        self.play(\n"
    + "            FadeOut(circle), \n"
    + "            FadeOut(square),\n"
    + "            FadeOut(circle_text),\n"
    + "            FadeOut(square_text),\n"
    + "            FadeOut(title)\n"
    + "        )\n"

  /** Python's `prompt[:30]`. */
  function PromptHead(prompt: string): (r: string)
    ensures |r| <= 30 && |r| <= |prompt| && r == prompt[..|r|]
    ensures |prompt| <= 30 ==> r == prompt
  {
    if |prompt| <= 30 then prompt else prompt[..30]
  }

  /** The scene used when the reply is empty; it shows the start of the prompt as its title. */
  function PlaceholderScene(prompt: string): string {
    "\n"
    + "class SimpleScene(Scene):\n"
    + "    def construct(self):\n"
    + "        # 创建标题\n"
    + "        title = Text(\"" + PromptHead(prompt) + "...\", font_size=36)\n"
    + "        title.to_edge(UP)\n"
    + "        self.play(Write(title))\n"
    + "        self.wait(1)\n"
    + "        \n"
    + "        # 显示提示词\n"
    + "        prompt_text = Text(\"提示词太复杂，无法生成代码\", font_size=24, color=RED)\n"
    + "        prompt_text.next_to(title, DOWN, buff=1)\n"
    + "        self.play(FadeIn(prompt_text))\n"
    + "        self.wait(2)\n"
    + "        \n"
    + "        # 淡出\n"
    + "        self.play(FadeOut(title), FadeOut(prompt_text))\n"
    + "        self.wait(1)\n"
  }

  /**
    The guard, given the placeholder scene for the prompt: an empty reply becomes the
    placeholder and a reply without the
    import gets `from manim import *` and a blank line in front; a reply that already
    contains the import passes unchanged.
   */
  function GuardedCode(content: Option<string>, placeholder: string): (r: string)
    ensures Contains(r, ImportStatement)
    ensures content.Some? && Contains(content.value, ImportStatement) ==> r == content.value
    ensures content.Some? && content.value != "" ==> EndsWith(r, content.value)
    ensures content.Some? && content.value != "" && !Contains(content.value, ImportStatement) ==> r == ImportPrefix + content.value
    ensures content.None? || content.value == "" ==> r == ImportPrefix + placeholder
  {
    var code := content.GetOr("");
    if code == "" || !Contains(code, ImportStatement) then
      var body := if code == "" then placeholder else code;
      PrefixedImports(body);
      ImportPrefix + body
    else
      code
  }

  /** The import header supplies the import and keeps what follows it. */
  lemma PrefixedImports(body: string)
    ensures Contains(ImportPrefix + body, ImportStatement)
    ensures EndsWith(ImportPrefix + body, body)
  {
    ContainsPrefix(ImportStatement, " *\n\n" + body);
    assert ImportPrefix + body == ImportStatement + (" *\n\n" + body);
    assert (ImportPrefix + body)[|ImportPrefix + body| - |body|..] == body;
  }

  /** Text with the import statement after some prefix contains it. */
  lemma ImportAfter(pre: string, rest: string)
    ensures Contains(pre + ImportStatement + rest, ImportStatement)
  {
    ContainsPrefix(ImportStatement, rest);
    ContainsConcat(pre, ImportStatement + rest, ImportStatement);
    assert pre + ImportStatement + rest == pre + (ImportStatement + rest);
  }

  /** The code `generate_manim_code_from_llm` returns for a reply. */
  function GeneratedCode(reply: LlmReply, prompt: string): string {
    match reply
    case NotConfigured => SampleCode
    case RequestFailed => SampleCode
    case Replied(content) => GuardedCode(content, PlaceholderScene(prompt))
  }

  /** The sample scene imports manim. */
  lemma SampleImportsManim()
    ensures Contains(SampleCode, ImportStatement)
  {
    ImportAfter("\n", SampleScene);
  }

  /** Every path through the generator yields code that imports manim. */
  lemma GeneratedImportsManim(reply: LlmReply, prompt: string)
    ensures Contains(GeneratedCode(reply, prompt), ImportStatement)
  {
    if !reply.Replied? {
      SampleImportsManim();
    }
  }
}
