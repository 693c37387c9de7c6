/** What the execution decisions promise: which class is rendered, how failures read, where videos come from. */
module ExecutionProperties {
  import opened Wrappers
  import opened Text
  import opened Execution
  import CleanCode

  // ---------------------------------------------------------------------------------
  // Scene-class extraction

  /** The first scene-based class wins, wherever other classes stand. */
  lemma SceneClassChosen(s: string, p: nat)
    requires p <= |s| && ClassAt(s, p, SceneClass)
    requires forall k :: 0 <= k < p ==> !ClassAt(s, k, SceneClass)
    ensures SceneName(s) == Some(NameAt(s, p))
  {
    var first := FirstClass(s, 0, SceneClass);
    assert first.Some? && first.value == p;
  }

  /** Without a scene-based class, the first class with bases and a colon is chosen. */
  lemma AnyClassChosen(s: string, p: nat)
    requires forall k :: 0 <= k <= |s| ==> !ClassAt(s, k, SceneClass)
    requires p <= |s| && ClassAt(s, p, AnyClass)
    requires forall k :: 0 <= k < p ==> !ClassAt(s, k, AnyClass)
    ensures SceneName(s) == Some(NameAt(s, p))
  {
    var first := FirstClass(s, 0, AnyClass);
    assert first.Some? && first.value == p;
  }

  /** No scene is found exactly when neither pattern matches anywhere. */
  lemma NoSceneName(s: string)
    ensures SceneName(s).None? <==>
      forall k :: 0 <= k <= |s| ==> !ClassAt(s, k, SceneClass) && !ClassAt(s, k, AnyClass)
  {
    if SceneName(s).None? {
      assert FirstClass(s, 0, SceneClass).None?;
      assert FirstClass(s, 0, AnyClass).None?;
    } else if FirstClass(s, 0, SceneClass).Some? {
      var p := FirstClass(s, 0, SceneClass).value;
      assert ClassAt(s, p, SceneClass);
    } else {
      var p := FirstClass(s, 0, AnyClass).value;
      assert ClassAt(s, p, AnyClass);
    }
  }

  /** The scene name is a non-empty run of word characters. */
  lemma SceneNameIsWord(s: string)
    ensures SceneName(s).Some? ==>
      |SceneName(s).value| > 0 && forall k :: 0 <= k < |SceneName(s).value| ==> IsWordChar(SceneName(s).value[k])
  {
    var first := FirstClass(s, 0, SceneClass);
    var p := if first.Some? then first.value else FirstClass(s, 0, AnyClass).GetOr(0);
    if SceneName(s).Some? {
      var head := ClassHeadAt(s, p).value;
      WordEndRun(s, head.0);
      assert SceneName(s).value == s[head.0..head.1];
    }
  }

  // ---------------------------------------------------------------------------------
  // Reading the renderer's error output

  /** `find` returns an occurrence when none starts earlier. */
  lemma IndexOfAt(s: string, t: string, i: nat)
    requires i + |t| <= |s| && s[i..i + |t|] == t
    requires forall j :: 0 <= j < i ==> !StartsWith(s[j..], t)
    ensures IndexOf(s, t) == Some(i)
  {
    ContainsAt(s, t, i);
    var v := IndexOf(s, t).value;
    assert s[i..][..|t|] == s[i..i + |t|];
    assert s[v..][..|t|] == s[v..v + |t|];
  }

  /** The first line of text that has a newline after `line`. */
  lemma FirstLineOf(line: string, rest: string)
    requires '\n' !in line
    ensures FirstLine(line + "\n" + rest) == line
  {
    var s := line + "\n" + rest;
    forall j | 0 <= j < |line| ensures !StartsWith(s[j..], "\n") {
      assert s[j..][..1] == [line[j]];
    }
    assert s[|line|..|line| + 1] == "\n";
    IndexOfAt(s, "\n", |line|);
    assert s[..|line|] == line;
  }

  /** A text starting with `t` agrees with it character by character. */
  lemma StartsWithChar(x: string, t: string, k: nat)
    requires k < |t|
    ensures StartsWith(x, t) ==> k < |x| && x[k] == t[k]
  {
    if StartsWith(x, t) {
      assert x[k] == x[..|t|][k];
    }
  }

  /** An occurrence at `j` means the text contains `u`. */
  lemma OccurrenceContains(t: string, u: string, j: nat)
    ensures j + |u| <= |t| && t[j..j + |u|] == u ==> Contains(t, u)
  {
    if j + |u| <= |t| && t[j..j + |u|] == u {
      ContainsAt(t, u, j);
    }
  }

  /** `marker:` is found right after `pre` when it does not occur earlier, within `pre + marker`. */
  lemma MarkerFirst(pre: string, marker: string, rest: string)
    requires !Contains(pre + marker, marker + ":")
    ensures IndexOf(pre + marker + ":" + rest, marker + ":") == Some(|pre|)
  {
    var sep := marker + ":";
    var head := pre + marker;
    var s := pre + marker + ":" + rest;
    assert s == head + ":" + rest;
    forall j | 0 <= j < |pre| ensures !StartsWith(s[j..], sep) {
      assert s[j..][..|sep|] == head[j..j + |sep|];
      OccurrenceContains(head, sep, j);
    }
    assert s[|pre|..|pre| + |sep|] == sep;
    IndexOfAt(s, sep, |pre|);
  }

  /** Cutting after the line's newline keeps the line and the newline. */
  lemma LinePrefix(line: string, post: string, n: nat)
    requires n <= |post|
    ensures (line + "\n" + post)[..|line| + 1 + n] == line + "\n" + post[..n]
  {
  }

  /** A later separator, if any, stands after the line. */
  lemma SeparatorAfterLine(line: string, post: string, sep: string, b: nat)
    requires |sep| > 0 && '\n' !in sep && !Contains(line, sep)
    requires IndexOf(line + "\n" + post, sep) == Some(b)
    ensures b > |line|
  {
    var rest := line + "\n" + post;
    NoSeparatorInLine(line, post, sep, b);
    assert rest[b..][..|sep|] == rest[b..b + |sep|];
  }

  /** Cutting anywhere after the line's newline leaves the first line whole. */
  lemma CutKeepsLine(line: string, post: string, b: nat)
    requires '\n' !in line && |line| < b <= |line| + 1 + |post|
    ensures FirstLine((line + "\n" + post)[..b]) == line
  {
    LinePrefix(line, post, b - |line| - 1);
    FirstLineOf(line, post[..b - |line| - 1]);
  }

  /** The part `split` returns after the first marker keeps the line that follows it. */
  lemma PartKeepsLine(s: string, sep: string, line: string, post: string)
    requires |sep| > 0 && '\n' !in sep && !Contains(line, sep) && '\n' !in line
    requires IndexOf(s, sep).Some? && s[IndexOf(s, sep).value + |sep|..] == line + "\n" + post
    ensures SecondPart(s, sep).Some? && FirstLine(SecondPart(s, sep).value) == line
  {
    var rest := line + "\n" + post;
    var after := s[IndexOf(s, sep).value + |sep|..];
    assert after == rest;
    match IndexOf(rest, sep) {
      case Some(b) =>
        assert SecondPart(s, sep) == Some(after[..b]);
        SeparatorAfterLine(line, post, sep, b);
        CutKeepsLine(line, post, b);
      case None =>
        assert SecondPart(s, sep) == Some(after);
        FirstLineOf(line, post);
    }
  }

  /**
    The detail is the stripped rest of the line after the first `marker:`, whatever comes
    before it (a traceback with its own colons included) and whatever follows the line,
    as long as the line itself does not repeat `marker:`.
   */
  lemma DetailOfLine(pre: string, marker: string, line: string, post: string)
    requires '\n' !in marker && '\n' !in line
    requires !Contains(pre + marker, marker + ":") && !Contains(line, marker + ":")
    ensures Detail(pre + marker + ":" + line + "\n" + post, marker) == Some(Strip(line))
  {
    var sep := marker + ":";
    assert pre + marker + ":" + line + "\n" + post == pre + sep + line + "\n" + post;
    DetailAfter(pre, marker, sep, line, post);
  }

  /** `DetailOfLine` with the separator `marker:` named. */
  lemma DetailAfter(pre: string, marker: string, sep: string, line: string, post: string)
    requires sep == marker + ":" && '\n' !in marker && '\n' !in line
    requires !Contains(pre + marker, sep) && !Contains(line, sep)
    ensures Detail(pre + sep + line + "\n" + post, marker) == Some(Strip(line))
  {
    var rest := line + "\n" + post;
    var s := pre + sep + line + "\n" + post;
    assert s == pre + marker + ":" + rest;
    MarkerFirst(pre, marker, rest);
    assert s[|pre| + |sep|..] == rest;
    PartKeepsLine(s, sep, line, post);
  }

  /** A separator without a newline cannot start on a line that does not hold it. */
  lemma NoSeparatorInLine(line: string, post: string, sep: string, b: nat)
    requires |sep| > 0 && '\n' !in sep && !Contains(line, sep)
    ensures b <= |line| ==> !StartsWith((line + "\n" + post)[b..], sep)
  {
    var rest := line + "\n" + post;
    if b <= |line| {
      if b + |sep| <= |line| {
        assert rest[b..][..|sep|] == line[b..b + |sep|];
        OccurrenceContains(line, sep, b);
      } else {
        assert rest[b..][|line| - b] == '\n';
        assert sep[|line| - b] != '\n';
        StartsWithChar(rest[b..], sep, |line| - b);
      }
    }
  }

  /** Text holding `t + u` holds `t`. */
  lemma ContainsShorter(s: string, t: string, u: string)
    ensures Contains(s, t + u) ==> Contains(s, t)
  {
    if Contains(s, t + u) {
      var v := IndexOf(s, t + u).value;
      assert s[v..v + |t|] == s[v..v + |t + u|][..|t|];
      ContainsAt(s, t, v);
    }
  }

  /** How a non-zero exit is read: which marker is checked first, and when the split raises. */
  lemma FailureMessageCases(stderr: string)
    ensures Contains(stderr, "ModuleNotFoundError") ==>
      (FailureMessage(stderr).None? <==> !Contains(stderr, "ModuleNotFoundError:"))
      && (FailureMessage(stderr).Some? ==> StartsWith(FailureMessage(stderr).value, MissingModulePrefix))
    ensures !Contains(stderr, "ModuleNotFoundError") && Contains(stderr, "SyntaxError") ==>
      (FailureMessage(stderr).None? <==> !Contains(stderr, "SyntaxError:"))
      && (FailureMessage(stderr).Some? ==> StartsWith(FailureMessage(stderr).value, SyntaxErrorPrefix))
    ensures !Contains(stderr, "ModuleNotFoundError") && !Contains(stderr, "SyntaxError") ==>
      FailureMessage(stderr) == Some(RenderFailed)
  {
    assert "ModuleNotFoundError" + ":" == "ModuleNotFoundError:";
    assert "SyntaxError" + ":" == "SyntaxError:";
    var m := FailureMessage(stderr);
    if m.Some? && Contains(stderr, "ModuleNotFoundError") {
      var d := Detail(stderr, "ModuleNotFoundError").value;
      assert (MissingModulePrefix + d)[..|MissingModulePrefix|] == MissingModulePrefix;
    } else if m.Some? && Contains(stderr, "SyntaxError") {
      var d := Detail(stderr, "SyntaxError").value;
      assert (SyntaxErrorPrefix + d)[..|SyntaxErrorPrefix|] == SyntaxErrorPrefix;
    }
  }

  /** A missing module is reported by the rest of its line, stripped. */
  lemma MissingModuleMessage(pre: string, line: string, post: string)
    requires '\n' !in line
    requires !Contains(pre + "ModuleNotFoundError", "ModuleNotFoundError:")
    requires !Contains(line, "ModuleNotFoundError:")
    ensures FailureMessage(pre + "ModuleNotFoundError:" + line + "\n" + post)
      == Some(MissingModulePrefix + Strip(line))
  {
    assert "ModuleNotFoundError" + ":" == "ModuleNotFoundError:";
    var s := pre + "ModuleNotFoundError:" + line + "\n" + post;
    ContainsMiddle(pre, "ModuleNotFoundError:", line, post);
    ContainsShorter(s, "ModuleNotFoundError", ":");
    MissingModuleDetail(pre, line, post);
    MissingModuleOf(s, Strip(line));
  }

  /** The detail of a missing module is its stripped line. */
  lemma MissingModuleDetail(pre: string, line: string, post: string)
    requires '\n' !in line
    requires !Contains(pre + "ModuleNotFoundError", "ModuleNotFoundError:")
    requires !Contains(line, "ModuleNotFoundError:")
    ensures Detail(pre + "ModuleNotFoundError:" + line + "\n" + post, "ModuleNotFoundError") == Some(Strip(line))
  {
    assert "ModuleNotFoundError" + ":" == "ModuleNotFoundError:";
    DetailAfter(pre, "ModuleNotFoundError", "ModuleNotFoundError:", line, post);
  }

  /** A text holds what stands in its middle. */
  lemma ContainsMiddle(pre: string, t: string, line: string, post: string)
    ensures Contains(pre + t + line + "\n" + post, t)
  {
    var s := pre + t + line + "\n" + post;
    assert s[|pre|..|pre| + |t|] == t;
    ContainsAt(s, t, |pre|);
  }

  /** With the marker present and its detail read, the message is the prefix plus the detail. */
  lemma MissingModuleOf(s: string, d: string)
    requires Contains(s, "ModuleNotFoundError") && Detail(s, "ModuleNotFoundError") == Some(d)
    ensures FailureMessage(s) == Some(MissingModulePrefix + d)
  {
  }

  // ---------------------------------------------------------------------------------
  // Finding the rendered video

  /** A glob's result is empty exactly when no listed file fits the pattern. */
  lemma MatchingEmpty(files: seq<VideoFile>, keep: VideoFile -> bool)
    ensures Matching(files, keep) == [] <==> forall k :: 0 <= k < |files| ==> !keep(files[k])
  {
    if Matching(files, keep) != [] {
      var v := Matching(files, keep)[0];
      var k :| 0 <= k < |files| && files[k] == v;
    }
  }

  /** As written, a video is only ever copied from the expected place. */
  lemma AsWrittenCopiesExpected(base: string, scene: string, files: seq<VideoFile>)
    ensures DiscoverAsWritten(base, scene, files).Copied? <==> Exists(files, ExpectedVideo(base, scene))
    ensures DiscoverAsWritten(base, scene, files).Copied? ==>
      DiscoverAsWritten(base, scene, files).source == ExpectedVideo(base, scene)
  {
  }

  /**
    As written, a render found in another quality directory or anywhere under
    `media/videos` is not copied: the copy raises and the run falls back.
   */
  lemma WiderMatchFallsBack(base: string, scene: string, files: seq<VideoFile>, k: nat)
    requires !Exists(files, ExpectedVideo(base, scene))
    requires k < |files| && (InQualityDir(files[k].path, base, scene) || IsRenderedVideo(files[k].path))
    ensures DiscoverAsWritten(base, scene, files) == Fallback(ErrorPrefix + ShutilUnbound)
  {
    MatchingEmpty(files, (f: VideoFile) => InQualityDir(f.path, base, scene));
    MatchingEmpty(files, (f: VideoFile) => IsRenderedVideo(f.path));
  }

  /** With nothing to find, both versions fall back with the missing-video message. */
  lemma NothingToCopy(base: string, scene: string, files: seq<VideoFile>)
    requires !Exists(files, ExpectedVideo(base, scene))
    requires forall k :: 0 <= k < |files| ==>
      !InQualityDir(files[k].path, base, scene) && !IsRenderedVideo(files[k].path)
    ensures DiscoverAsWritten(base, scene, files) == Fallback(VideoMissing)
    ensures Discover(base, scene, files) == Fallback(VideoMissing)
  {
    MatchingEmpty(files, (f: VideoFile) => InQualityDir(f.path, base, scene));
    MatchingEmpty(files, (f: VideoFile) => IsRenderedVideo(f.path));
  }

  /** As written, modification times never matter: only paths decide. */
  lemma AsWrittenIgnoresTimes(base: string, scene: string, files: seq<VideoFile>, other: seq<VideoFile>)
    requires |files| == |other| && forall k :: 0 <= k < |files| ==> files[k].path == other[k].path
    ensures DiscoverAsWritten(base, scene, files) == DiscoverAsWritten(base, scene, other)
  {
    var expected := ExpectedVideo(base, scene);
    assert Exists(files, expected) ==> Exists(other, expected);
    assert Exists(other, expected) ==> Exists(files, expected);
    MatchingEmpty(files, (f: VideoFile) => InQualityDir(f.path, base, scene));
    MatchingEmpty(other, (f: VideoFile) => InQualityDir(f.path, base, scene));
    MatchingEmpty(files, (f: VideoFile) => IsRenderedVideo(f.path));
    MatchingEmpty(other, (f: VideoFile) => IsRenderedVideo(f.path));
  }

  /** The first file in listing order that fits. */
  lemma MatchingFirst(files: seq<VideoFile>, keep: VideoFile -> bool, k: nat)
    requires k < |files| && keep(files[k]) && forall j :: 0 <= j < k ==> !keep(files[j])
    ensures Matching(files, keep) != [] && Matching(files, keep)[0] == files[k]
    decreases k
  {
    if k > 0 {
      assert !keep(files[0]);
      assert forall j :: 0 <= j < k - 1 ==> files[1..][j] == files[j + 1];
      MatchingFirst(files[1..], keep, k - 1);
    }
  }

  /** As intended, a render in another quality directory is copied: the first one listed. */
  lemma OtherQualityCopied(base: string, scene: string, files: seq<VideoFile>, k: nat)
    requires !Exists(files, ExpectedVideo(base, scene))
    requires k < |files| && InQualityDir(files[k].path, base, scene)
    requires forall j :: 0 <= j < k ==> !InQualityDir(files[j].path, base, scene)
    ensures Discover(base, scene, files) == Copied(files[k].path)
  {
    MatchingFirst(files, (f: VideoFile) => InQualityDir(f.path, base, scene), k);
  }

  /**
    As intended, with no render of the scene anywhere else, the newest video under
    `media/videos` is copied.
   */
  lemma NewestVideoCopied(base: string, scene: string, files: seq<VideoFile>)
    requires !Exists(files, ExpectedVideo(base, scene))
    requires forall j :: 0 <= j < |files| ==> !InQualityDir(files[j].path, base, scene)
    ensures Discover(base, scene, files).Copied? <==>
      exists j :: 0 <= j < |files| && IsRenderedVideo(files[j].path)
    ensures Discover(base, scene, files).Copied? ==>
      exists v :: v in files && IsRenderedVideo(v.path) && v.path == Discover(base, scene, files).source
        && forall j :: 0 <= j < |files| && IsRenderedVideo(files[j].path) ==> files[j].mtime <= v.mtime
  {
    MatchingEmpty(files, (f: VideoFile) => InQualityDir(f.path, base, scene));
    MatchingEmpty(files, (f: VideoFile) => IsRenderedVideo(f.path));
    var videos := Matching(files, (f: VideoFile) => IsRenderedVideo(f.path));
    if videos != [] {
      var v := videos[MostRecent(videos)];
      assert v in files && IsRenderedVideo(v.path);
      forall j | 0 <= j < |files| && IsRenderedVideo(files[j].path)
        ensures files[j].mtime <= v.mtime
      {
        var i :| 0 <= i < |videos| && videos[i] == files[j];
      }
    }
  }

  /** The two versions agree unless the expected video is missing and some other video exists. */
  lemma VersionsAgree(base: string, scene: string, files: seq<VideoFile>)
    requires Exists(files, ExpectedVideo(base, scene)) || forall k :: 0 <= k < |files| ==>
      !InQualityDir(files[k].path, base, scene) && !IsRenderedVideo(files[k].path)
    ensures Discover(base, scene, files) == DiscoverAsWritten(base, scene, files)
  {
    if !Exists(files, ExpectedVideo(base, scene)) {
      NothingToCopy(base, scene, files);
    }
  }

  // ---------------------------------------------------------------------------------
  // The whole run

  /** Without a scene class the renderer's outcome and the files never matter. */
  lemma NoSceneNoRender(cleaned: string, env: Environment, other: Environment,
                        discover: (string, string, seq<VideoFile>) -> Route)
    requires SceneName(cleaned).None?
    ensures RouteFor(cleaned, env, discover) == Fallback(NoSceneClass)
    ensures RouteFor(cleaned, other, discover) == RouteFor(cleaned, env, DiscoverAsWritten)
  {
  }

  /** How each renderer outcome is routed once a scene is found. */
  lemma RunRouting(cleaned: string, env: Environment, discover: (string, string, seq<VideoFile>) -> Route)
    requires SceneName(cleaned).Some?
    requires forall base, scene, files :: !discover(base, scene, files).Aborted?
    ensures env.run.TimedOut? ==> RouteFor(cleaned, env, discover) == Fallback(RenderTimedOut)
    ensures env.run.Raised? ==> RouteFor(cleaned, env, discover) == Fallback(ErrorPrefix + env.run.error)
    ensures RouteFor(cleaned, env, discover) == Aborted <==>
      env.run.Exited? && env.run.status != 0 && FailureMessage(env.run.stderr).None?
  {
  }

  /** What the caller receives for each route. */
  lemma Delivered(route: Route, id: nat, env: Environment)
    ensures Deliver(route, id, env).None? <==> route.Aborted? || (route.Fallback? && !env.imageSaved)
    ensures Deliver(route, id, env) == Some(OutputPath(id)) <==>
      route.Copied? || (route.Fallback? && env.imageSaved && env.encoded)
    ensures route.Fallback? && env.imageSaved && !env.encoded ==> Deliver(route, id, env) == Some(FramePath(id))
    ensures Deliver(route, id, env).Some? ==> StartsWith(Deliver(route, id, env).value, "animations/")
  {
    assert StartsWith(OutputPath(id), "animations/");
  }

  /** The animation is `completed` exactly when the run returned a path, in both versions. */
  lemma StatusRule(code: string, id: nat, env: Environment)
    ensures StatusAfter(Executed(code, id, env)) == Completed <==> Executed(code, id, env).Some?
    ensures StatusAfter(ExecutedAsWritten(code, id, env)) == Completed <==> ExecutedAsWritten(code, id, env).Some?
  {
    Delivered(RouteFor(CleanCode.CleanedIntended(code), env, Discover), id, env);
    Delivered(RouteFor(CleanCode.Cleaned(code), env, DiscoverAsWritten), id, env);
  }
}
