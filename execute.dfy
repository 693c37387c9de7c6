/**
  The decisions `execute_manim_code` (api/views.py) takes around the renderer: which scene
  class it renders, how it reads the renderer's failure, where it looks for the rendered
  video, and what `_create_fallback_video` returns. The renderer run, the files on disk and
  the image and video encoders are parameters (`Environment`); the code itself never runs.
 */
module Execution {
  import opened Wrappers
  import opened Text
  import CleanCode

  // ---------------------------------------------------------------------------------
  // Scene-class extraction

  /** The bases the primary pattern accepts, in the order of its alternation. */
  const SceneBases: seq<string> :=
    ["Scene", "ThreeDScene", "MovingCameraScene", "ZoomedScene", "VectorScene"]

  /**
    `class\s+(\w+)\s*\(` at `p`: the start and end of the captured name and the index
    just past the parenthesis. Each run is greedy, and backing off never helps because
    the next item cannot match a character of the run.
   */
  function ClassHeadAt(s: string, p: nat): (r: Option<(nat, nat, nat)>)
    requires p <= |s|
    ensures r.Some? ==> p + 5 < r.value.0 < r.value.1 < r.value.2 <= |s|
  {
    if !StartsWith(s[p..], "class") then None
    else
      var q := SpaceEnd(s, p + 5);
      var w := WordEnd(s, q);
      var o := SpaceEnd(s, w);
      if q > p + 5 && w > q && o < |s| && s[o] == '(' then Some((q, w, o + 1)) else None
  }

  /** `base\s*\)` at `t`. */
  predicate ClosesAfter(s: string, t: nat, base: string)
    requires t <= |s|
  {
    StartsWith(s[t..], base)
    && var u := SpaceEnd(s, t + |base|); u < |s| && s[u] == ')'
  }

  /** The alternation `(?:Scene|ThreeDScene|…)\s*\)` at `t`, trying each base in turn. */
  predicate SoleBaseAt(s: string, t: nat, bases: seq<string>)
    requires t <= |s|
  {
    |bases| > 0 && (ClosesAfter(s, t, bases[0]) || SoleBaseAt(s, t, bases[1..]))
  }

  /** The two patterns of the extraction: a scene base alone, or any `class X(...):`. */
  datatype Pattern = SceneClass | AnyClass

  /** Whether `pattern` matches at `p`. */
  predicate ClassAt(s: string, p: nat, pattern: Pattern)
    requires p <= |s|
  {
    match ClassHeadAt(s, p)
    case None => false
    case Some(head) =>
      match pattern
      case SceneClass => SoleBaseAt(s, SpaceEnd(s, head.2), SceneBases)
      case AnyClass =>
        // `[^)]*\):` — the first `)` after the parenthesis, then a colon
        (match CleanCode.CloseParen(s, head.2)
         case Some(c) => c + 1 < |s| && s[c + 1] == ':'
         case None => false)
  }

  /** The leftmost match of `pattern` at or after `i`, as `re.findall(...)[0]` finds it. */
  function FirstClass(s: string, i: nat, pattern: Pattern): (r: Option<nat>)
    requires i <= |s|
    ensures r.Some? ==> i <= r.value <= |s| && ClassAt(s, r.value, pattern)
    ensures forall k :: i <= k <= |s| && (r.None? || k < r.value) ==> !ClassAt(s, k, pattern)
    decreases |s| - i
  {
    if ClassAt(s, i, pattern) then Some(i)
    else if i == |s| then None
    else FirstClass(s, i + 1, pattern)
  }

  /** The name captured by a class header at `p`. */
  function NameAt(s: string, p: nat): string
    requires p <= |s| && ClassHeadAt(s, p).Some?
  {
    var head := ClassHeadAt(s, p).value;
    s[head.0..head.1]
  }

  /** The scene to render: the first scene-based class, else the first class with bases. */
  function SceneName(s: string): Option<string> {
    match FirstClass(s, 0, SceneClass)
    case Some(p) => Some(NameAt(s, p))
    case None =>
      match FirstClass(s, 0, AnyClass)
      case Some(p) => Some(NameAt(s, p))
      case None => None
  }

  // ---------------------------------------------------------------------------------
  // Reading the renderer's error output

  const MissingModulePrefix := "缺少所需模块: "
  const SyntaxErrorPrefix := "代码语法错误: "
  const RenderFailed := "Manim执行失败"

  /** Python's `s.split(sep)[1]`: the text between the first and second `sep`; None where the index raises. */
  function SecondPart(s: string, sep: string): (r: Option<string>)
    requires |sep| > 0
    ensures r.None? <==> !Contains(s, sep)
  {
    match IndexOf(s, sep)
    case None => None
    case Some(a) =>
      var rest := s[a + |sep|..];
      match IndexOf(rest, sep)
      case Some(b) => Some(rest[..b])
      case None => Some(rest)
  }

  /** Python's `s.split("\n")[0]`. */
  function FirstLine(s: string): (r: string)
    ensures |r| <= |s| && r == s[..|r|] && '\n' !in r
  {
    match IndexOf(s, "\n")
    case Some(b) =>
      assert forall j :: 0 <= j < b ==> !StartsWith(s[j..], "\n");
      assert forall j :: 0 <= j < b ==> s[j] != '\n' by {
        forall j | 0 <= j < b ensures s[j] != '\n' {
          assert s[j..][..1] == [s[j]];
        }
      }
      s[..b]
    case None =>
      assert forall j :: 0 <= j < |s| ==> s[j] != '\n' by {
        forall j | 0 <= j < |s| ensures s[j] != '\n' {
          if s[j] == '\n' {
            assert s[j..j + 1] == "\n";
            ContainsAt(s, "\n", j);
          }
        }
      }
      s
  }

  /** `stderr.split(marker + ":")[1].split("\n")[0].strip()`; None where the split raises. */
  function Detail(stderr: string, marker: string): Option<string> {
    match SecondPart(stderr, marker + ":")
    case Some(part) => Some(Strip(FirstLine(part)))
    case None => None
  }

  /**
    The message for a non-zero exit: a missing module is checked before a syntax error,
    and a marker present without its colon makes the split raise (None).
   */
  function FailureMessage(stderr: string): Option<string> {
    if Contains(stderr, "ModuleNotFoundError") then
      match Detail(stderr, "ModuleNotFoundError")
      case Some(d) => Some(MissingModulePrefix + d)
      case None => None
    else if Contains(stderr, "SyntaxError") then
      match Detail(stderr, "SyntaxError")
      case Some(d) => Some(SyntaxErrorPrefix + d)
      case None => None
    else Some(RenderFailed)
  }

  // ---------------------------------------------------------------------------------
  // Finding the rendered video

  /** A file on disk and its modification time. */
  datatype VideoFile = VideoFile(path: string, mtime: int)

  const VideosDir := "media/videos/"

  /** Where `manim -ql` writes the scene: `media/videos/<base>/480p15/<scene>.mp4`. */
  function ExpectedVideo(base: string, scene: string): string {
    VideosDir + base + "/480p15/" + scene + ".mp4"
  }

  predicate Exists(files: seq<VideoFile>, path: string) {
    exists k :: 0 <= k < |files| && files[k].path == path
  }

  /** A path component a glob wildcard matches: not empty and not hidden. */
  predicate Visible(name: string) {
    |name| > 0 && name[0] != '.'
  }

  /** The glob `media/videos/<base>/<any>/<scene>.mp4`, where `<any>` is one wildcard component. */
  predicate InQualityDir(path: string, base: string, scene: string) {
    var pre := VideosDir + base + "/";
    var post := "/" + scene + ".mp4";
    |pre| + |post| <= |path| && StartsWith(path, pre) && EndsWith(path, post)
    && var dir := path[|pre|..|path| - |post|]; Visible(dir) && '/' !in dir
  }

  /**
    The recursive glob over `media/videos` for files named `<any>.mp4`: visible components
    all the way down to an `.mp4` file.
   */
  predicate IsRenderedVideo(path: string) {
    StartsWith(path, VideosDir)
    && var rest := path[|VideosDir|..];
    Visible(rest) && EndsWith(rest, ".mp4")
    && !Contains(rest, "//") && !Contains(rest, "/.")
  }

  /** The files a glob pattern returns, in listing order. */
  function Matching(files: seq<VideoFile>, keep: VideoFile -> bool): (r: seq<VideoFile>)
    ensures |r| <= |files|
    ensures forall k :: 0 <= k < |r| ==> keep(r[k]) && r[k] in files
    ensures forall k :: 0 <= k < |files| && keep(files[k]) ==> files[k] in r
  {
    if files == [] then []
    else if keep(files[0]) then [files[0]] + Matching(files[1..], keep)
    else Matching(files[1..], keep)
  }

  /**
    The index `sorted(videos, key=getmtime, reverse=True)[0]` picks: a newest file, the
    first of them in listing order because the sort is stable.
   */
  function MostRecent(videos: seq<VideoFile>): (k: nat)
    requires |videos| > 0
    ensures k < |videos|
    ensures forall j :: 0 <= j < |videos| ==> videos[j].mtime <= videos[k].mtime
    ensures forall j :: 0 <= j < k ==> videos[j].mtime < videos[k].mtime
  {
    if |videos| == 1 then 0
    else
      var k := MostRecent(videos[1..]) + 1;
      assert videos[k] == videos[1..][k - 1];
      assert forall j :: 1 <= j < |videos| ==> videos[j] == videos[1..][j - 1];
      if videos[0].mtime >= videos[k].mtime then 0 else k
  }

  /** Where a run ends up: a copied video, the fallback with a message, or no result. */
  datatype Route = Copied(source: string) | Fallback(message: string) | Aborted

  const ErrorPrefix := "执行错误: "
  const VideoMissing := "Manim生成的视频文件无法找到"

  /**
    What Python 3.11 says when `shutil` is read before the function-local
    `import shutil` (only reached when the expected video exists) has bound it.
   */
  const ShutilUnbound := "cannot access local variable 'shutil' where it is not associated with a value"

  /** The wider search for a missing video, as written: any hit reads the unbound `shutil`. */
  function DiscoverAsWritten(base: string, scene: string, files: seq<VideoFile>): Route {
    if Exists(files, ExpectedVideo(base, scene)) then Copied(ExpectedVideo(base, scene))
    else if Matching(files, (f: VideoFile) => InQualityDir(f.path, base, scene)) != [] then
      Fallback(ErrorPrefix + ShutilUnbound)
    else if Matching(files, (f: VideoFile) => IsRenderedVideo(f.path)) != [] then
      Fallback(ErrorPrefix + ShutilUnbound)
    else Fallback(VideoMissing)
  }

  /** The wider search as intended: copy the first other-quality render, else the newest video. */
  function Discover(base: string, scene: string, files: seq<VideoFile>): Route {
    if Exists(files, ExpectedVideo(base, scene)) then Copied(ExpectedVideo(base, scene))
    else
      var others := Matching(files, (f: VideoFile) => InQualityDir(f.path, base, scene));
      if others != [] then Copied(others[0].path)
      else
        var videos := Matching(files, (f: VideoFile) => IsRenderedVideo(f.path));
        if videos != [] then Copied(videos[MostRecent(videos)].path)
        else Fallback(VideoMissing)
  }

  // ---------------------------------------------------------------------------------
  // The fallback video

  const CanvasWidth := 640
  const CanvasHeight := 480

  /** `os.path.join('animations', f"animation_{id}.mp4")`. */
  function OutputPath(id: nat): string {
    "animations/animation_" + NatToString(id) + ".mp4"
  }

  /** `os.path.join('animations', f"frame_{id}.png")`. */
  function FramePath(id: nat): string {
    "animations/frame_" + NatToString(id) + ".png"
  }

  /**
    `_create_fallback_video`'s result: the video when the encoder succeeds, the still
    image when only it was saved, nothing when the image could not be made.
   */
  function FallbackResult(id: nat, imageSaved: bool, encoded: bool): (r: Option<string>)
    ensures r.None? <==> !imageSaved
    ensures r.Some? ==> StartsWith(r.value, "animations/")
    ensures r == Some(OutputPath(id)) <==> imageSaved && encoded
    ensures imageSaved && !encoded ==> r == Some(FramePath(id))
  {
    assert StartsWith(OutputPath(id), "animations/");
    assert StartsWith(FramePath(id), "animations/");
    if !imageSaved then None
    else if encoded then
      Some(OutputPath(id))
    else
      assert FramePath(id)[11] != OutputPath(id)[11];
      Some(FramePath(id))
  }

  /** The measured widths of the title, the message and the note. */
  datatype Widths = Widths(title: int, message: int, note: int)

  /** The widths used when the text cannot be measured. */
  function MeasuredOr(measured: Option<Widths>): Widths {
    measured.GetOr(Widths(300, 300, 200))
  }

  /** Python's `//` by 2, which floors like Dafny's `/` on a positive divisor. */
  function Half(n: int): int {
    n / 2
  }

  /** The top-left corners of the three text rows on the 640×480 frame. */
  function Layout(w: Widths): (rows: seq<(int, int)>)
    ensures |rows| == 3
    ensures rows[0].1 == 190 && rows[1].1 == 240 && rows[2].1 == 280
    ensures rows[0].1 < rows[1].1 < rows[2].1
    ensures rows[0].0 * 2 + w.title <= CanvasWidth < rows[0].0 * 2 + w.title + 2
    ensures rows[1].0 * 2 + w.message <= CanvasWidth < rows[1].0 * 2 + w.message + 2
    ensures rows[2].0 * 2 + w.note <= CanvasWidth < rows[2].0 * 2 + w.note + 2
  {
    [(Half(CanvasWidth - w.title), CanvasHeight / 2 - 50),
     (Half(CanvasWidth - w.message), CanvasHeight / 2),
     (Half(CanvasWidth - w.note), CanvasHeight / 2 + 40)]
  }

  // ---------------------------------------------------------------------------------
  // The whole run

  /** How the renderer process ended. */
  datatype RunOutcome =
    | Exited(status: int, stderr: string)
    | TimedOut                           // past the 120-second limit
    | Raised(error: string)              // any other exception, by its text

  /**
    Everything outside the code: the temporary file's base name, the renderer's outcome,
    the files under `media/` with their modification times in listing order, and whether
    the fallback image was saved and encoded.
   */
  datatype Environment = Environment(
    base: string, run: RunOutcome, files: seq<VideoFile>, imageSaved: bool, encoded: bool)

  const NoSceneClass := "无法从代码中提取场景类"
  const RenderTimedOut := "Manim执行超时"

  /** The route for cleaned code, with `discover` as the search after a clean exit. */
  function RouteFor(cleaned: string, env: Environment,
                    discover: (string, string, seq<VideoFile>) -> Route): Route
  {
    match SceneName(cleaned)
    case None => Fallback(NoSceneClass)
    case Some(scene) =>
      match env.run
      case Exited(status, stderr) =>
        if status == 0 then discover(env.base, scene, env.files)
        else
          (match FailureMessage(stderr)
           case Some(message) => Fallback(message)
           case None => Aborted)
      case TimedOut => Fallback(RenderTimedOut)
      case Raised(error) => Fallback(ErrorPrefix + error)
  }

  /** What `execute_manim_code` returns for a route. */
  function Deliver(route: Route, id: nat, env: Environment): Option<string> {
    match route
    case Copied(_) => Some(OutputPath(id))
    case Fallback(_) => FallbackResult(id, env.imageSaved, env.encoded)
    case Aborted => None
  }

  /** `execute_manim_code` as written. */
  function ExecutedAsWritten(code: string, id: nat, env: Environment): Option<string> {
    Deliver(RouteFor(CleanCode.Cleaned(code), env, DiscoverAsWritten), id, env)
  }

  /** `execute_manim_code` with the intended cleaner and the wider search copying what it finds. */
  function Executed(code: string, id: nat, env: Environment): Option<string> {
    Deliver(RouteFor(CleanCode.CleanedIntended(code), env, Discover), id, env)
  }

  /** The search after a clean exit, step by step as the source takes it. */
  method FindVideo(base: string, scene: string, files: seq<VideoFile>) returns (route: Route)
    ensures route == DiscoverAsWritten(base, scene, files)
  {
    var expected := ExpectedVideo(base, scene);
    if Exists(files, expected) {
      return Copied(expected);
    }
    // the copy in either wider tier reads `shutil` before it is bound and raises
    var matching := Matching(files, (f: VideoFile) => InQualityDir(f.path, base, scene));
    if matching != [] {
      return Fallback(ErrorPrefix + ShutilUnbound);
    }
    var allVideos := Matching(files, (f: VideoFile) => IsRenderedVideo(f.path));
    if allVideos != [] {
      return Fallback(ErrorPrefix + ShutilUnbound);
    }
    return Fallback(VideoMissing);
  }

  /** `execute_manim_code`: clean, pick the scene, read the run, and deliver. */
  method ExecuteManimCode(code: string, id: nat, env: Environment) returns (outputFile: Option<string>)
    ensures outputFile == ExecutedAsWritten(code, id, env)
  {
    var cleaned := CleanCode.CleanManimCode(code);
    var sceneName := SceneName(cleaned);
    var route: Route;
    if sceneName.None? {
      route := Fallback(NoSceneClass);
    } else {
      match env.run {
        case Exited(status, stderr) =>
          if status == 0 {
            route := FindVideo(env.base, sceneName.value, env.files);
          } else {
            var message := FailureMessage(stderr);
            route := if message.Some? then Fallback(message.value) else Aborted;
          }
        case TimedOut =>
          route := Fallback(RenderTimedOut);
        case Raised(error) =>
          route := Fallback(ErrorPrefix + error);
      }
    }
    outputFile := Deliver(route, id, env);
  }

  // ---------------------------------------------------------------------------------
  // The status rule of `generate_animation`

  datatype Status = Processing | Completed | Failed

  /** `completed` when `execute_manim_code` gave a truthy path, `failed` otherwise. */
  function StatusAfter(outputFile: Option<string>): Status {
    if outputFile.Some? && outputFile.value != "" then Completed else Failed
  }
}
