/**
 * The render loop of `MatrixThreader.run`, one tick at a time, and the text
 * width helper `string_width`.
 *
 * A tick clears the surface, loads the scene at the relative frame, renders
 * every loaded object, flushes, then advances the absolute frame count and
 * either advances or resets the relative one. A plain object raises when it is
 * rendered, which ends the loop. Sleeping and the hardware calls
 * are not part of the model: the surface is recorded as the sequence of
 * calls made on it.
 */
module Matrix {
  import opened Wrappers
  import opened Scenes
  import opened Modular

  /** The error a missing key in the widths table raises. */
  datatype KeyError = KeyError(key: char)

  /**
   * `string_width`: the sum of the widths of the characters of `s`, or a
   * `KeyError` for the first character that the table does not cover.
   */
  function StringWidth(s: string, widths: map<char, int>): (r: Result<int, KeyError>)
    ensures r.Success? <==> forall i :: 0 <= i < |s| ==> s[i] in widths
    ensures r.Failure? ==> r.error.key in s && r.error.key !in widths
    ensures r.Failure? ==>
      exists i :: 0 <= i < |s| && s[i] == r.error.key && forall j :: 0 <= j < i ==> s[j] in widths
    ensures s == [] ==> r == Success(0)
  {
    if s == [] then Success(0)
    else if s[0] !in widths then Failure(KeyError(s[0]))
    else
      match StringWidth(s[1..], widths)
      case Failure(e) => Failure(e)
      case Success(w) => Success(widths[s[0]] + w)
  }

  /** The widths of the characters of `s`, added from the last character back. */
  function WidthSum(s: string, widths: map<char, int>): int
    requires forall i :: 0 <= i < |s| ==> s[i] in widths
  {
    if s == [] then 0 else WidthSum(s[..|s| - 1], widths) + widths[s[|s| - 1]]
  }

  /** The width of a concatenation is the sum of the widths of its parts. */
  lemma {:induction false} StringWidthAppend(s: string, t: string, widths: map<char, int>)
    ensures StringWidth(s + t, widths).Success?
        <==> StringWidth(s, widths).Success? && StringWidth(t, widths).Success?
    ensures StringWidth(s + t, widths).Success? ==>
      StringWidth(s + t, widths).value == StringWidth(s, widths).value + StringWidth(t, widths).value
    decreases |s|
  {
    if s == [] {
      assert s + t == t;
    } else {
      assert (s + t)[0] == s[0];
      assert (s + t)[1..] == s[1..] + t;
      StringWidthAppend(s[1..], t, widths);
    }
  }

  /** Whenever the table covers `s`, its width is the character-by-character sum. */
  lemma {:induction false} StringWidthIsSum(s: string, widths: map<char, int>)
    requires forall i :: 0 <= i < |s| ==> s[i] in widths
    ensures StringWidth(s, widths) == Success(WidthSum(s, widths))
    decreases |s|
  {
    if s != [] {
      var init := s[..|s| - 1];
      var last := [s[|s| - 1]];
      assert s == init + last;
      StringWidthIsSum(init, widths);
      StringWidthAppend(init, last, widths);
      assert last[1..] == [];
    }
  }

  /** One call the loop makes on the display surface. */
  datatype SurfaceCall = Clear | Render(obj: MatrixObject) | Flush

  /** The two counters `MatrixThreader.run` keeps between ticks. */
  datatype LoopState = LoopState(framesSinceStart: nat, relativeFrames: nat)

  /** What one tick does: the surface calls it makes and the counters it leaves. */
  datatype TickResult = TickResult(calls: seq<SurfaceCall>, next: LoopState)

  /** One render call per object, in the order of the draw list. */
  function RenderCalls(objs: seq<MatrixObject>): (calls: seq<SurfaceCall>)
    ensures |calls| == |objs|
    ensures forall k :: 0 <= k < |objs| ==> calls[k] == Render(objs[k])
  {
    if objs == [] then []
    else RenderCalls(objs[..|objs| - 1]) + [Render(objs[|objs| - 1])]
  }

  /** Both counters start at 0. */
  function InitialLoopState(): (st: LoopState)
    ensures st.framesSinceStart == 0 && st.relativeFrames == 0
  {
    LoopState(0, 0)
  }

  /** Every object in `objs` is a `Text`, whose `_render` draws and returns. */
  predicate AllText(objs: seq<MatrixObject>) {
    objs == [] || (objs[0].kind == TextObject && AllText(objs[1..]))
  }

  /** `AllText` holds exactly when every position of the list holds a text. */
  lemma {:induction false} AllTextAt(objs: seq<MatrixObject>)
    ensures AllText(objs) <==> forall k :: 0 <= k < |objs| ==> objs[k].kind == TextObject
  {
    if objs != [] {
      AllTextAt(objs[1..]);
      assert forall k :: 1 <= k < |objs| ==> objs[k] == objs[1..][k - 1];
    }
  }

  /**
   * How many objects of the draw list render before one raises: the position
   * of the first plain `MatrixObject`, or the whole list when there is none.
   */
  function RenderedBeforeError(objs: seq<MatrixObject>): (i: nat)
    ensures i <= |objs| && AllText(objs[..i])
    ensures i < |objs| ==> objs[i].kind == PlainObject
    ensures i == |objs| <==> AllText(objs)
  {
    if objs == [] then 0
    else if objs[0].kind == PlainObject then 0
    else
      var rest := RenderedBeforeError(objs[1..]);
      assert objs[..rest + 1][1..] == objs[1..][..rest];
      1 + rest
  }

  /**
   * How a tick stops: the surface calls made before the error, and the
   * `MatrixObjectError` a plain object's `_render` raises. Nothing catches it,
   * so the loop ends there.
   */
  datatype Halt = Halt(calls: seq<SurfaceCall>, error: MatrixObjectError)

  /**
   * One iteration of the `while True` loop: a fresh draw list is filled by
   * `Scene.load` and its objects are rendered in order after the clear. A
   * plain object raises and ends the loop before the flush. Otherwise the
   * surface is flushed, the absolute count grows by one and the relative count
   * grows by one while some panel is active and drops back to 0 otherwise.
   */
  function Tick(s: Scene, st: LoopState): (r: Result<TickResult, Halt>)
    ensures r.Success? <==> AllText(Load(s, [], st.framesSinceStart, st.relativeFrames).objects)
    ensures r.Success? ==> r.value.next.framesSinceStart == st.framesSinceStart + 1
    ensures r.Success? ==>
      r.value.next.relativeFrames == 0 || r.value.next.relativeFrames == st.relativeFrames + 1
    ensures r.Failure? ==>
      |r.error.calls| >= 1 && r.error.calls[0] == Clear && r.error.calls[|r.error.calls| - 1] != Flush
  {
    var loaded := Load(s, [], st.framesSinceStart, st.relativeFrames);
    var i := RenderedBeforeError(loaded.objects);
    if i < |loaded.objects| then
      Failure(Halt([Clear] + RenderCalls(loaded.objects[..i]), MatrixObjectError))
    else
      var relative := if loaded.continueRunning then st.relativeFrames + 1 else 0;
      Success(TickResult([Clear] + RenderCalls(loaded.objects) + [Flush],
                         LoopState(st.framesSinceStart + 1, relative)))
  }

  /**
   * Each tick starts from an empty draw list and clears the surface. When
   * every visible object is a text, exactly the objects of the panels visible
   * at the relative frame are rendered, in panel order and object order, and
   * the surface is flushed. Otherwise the objects before the first plain one
   * are rendered and the tick stops without a flush.
   */
  lemma TickRendersVisibleObjects(s: Scene, st: LoopState)
    ensures var drawn := Concat(Contributions(s.panels, st.relativeFrames));
      && (Tick(s, st).Success? <==> AllText(drawn))
      && (Tick(s, st).Success? ==> FramedCalls(Tick(s, st).value.calls, drawn))
      && (Tick(s, st).Failure? ==>
            var i := RenderedBeforeError(drawn);
            && i < |drawn| && drawn[i].kind == PlainObject
            && ClearedCalls(Tick(s, st).error.calls, drawn[..i]))
  {
    var drawn := Concat(Contributions(s.panels, st.relativeFrames));
    LoadSpec(s, [], st.framesSinceStart, st.relativeFrames);
    assert Load(s, [], st.framesSinceStart, st.relativeFrames).objects == drawn;
    var i := RenderedBeforeError(drawn);
    if i < |drawn| {
      assert Tick(s, st).error.calls == [Clear] + RenderCalls(drawn[..i]);
      ClearedRenderCalls(drawn[..i]);
    } else {
      assert Tick(s, st).value.calls == [Clear] + RenderCalls(drawn) + [Flush];
      FramedRenderCalls(drawn);
    }
  }

  /** `calls` is a clear, one render per object of `objs` in order, then a flush. */
  predicate FramedCalls(calls: seq<SurfaceCall>, objs: seq<MatrixObject>) {
    && |calls| == |objs| + 2
    && calls[0] == Clear
    && (forall k :: 0 <= k < |objs| ==> calls[k + 1] == Render(objs[k]))
    && calls[|calls| - 1] == Flush
  }

  /** `calls` is a clear followed by one render per object of `objs` in order. */
  predicate ClearedCalls(calls: seq<SurfaceCall>, objs: seq<MatrixObject>) {
    && |calls| == |objs| + 1
    && calls[0] == Clear
    && (forall k :: 0 <= k < |objs| ==> calls[k + 1] == Render(objs[k]))
  }

  /** Render calls framed by a clear and a flush. */
  lemma FramedRenderCalls(objs: seq<MatrixObject>)
    ensures FramedCalls([Clear] + RenderCalls(objs) + [Flush], objs)
  {
  }

  /** Render calls after a clear. */
  lemma ClearedRenderCalls(objs: seq<MatrixObject>)
    ensures ClearedCalls([Clear] + RenderCalls(objs), objs)
  {
  }

  /**
   * The relative frame count grows by one while some panel has not ended and
   * drops back to 0 once every panel has ended.
   */
  lemma TickCounters(s: Scene, st: LoopState)
    ensures Tick(s, st).Success? && SomePanelActive(s.panels, st.relativeFrames) ==>
      Tick(s, st).value.next.relativeFrames == st.relativeFrames + 1
    ensures Tick(s, st).Success? && !SomePanelActive(s.panels, st.relativeFrames) ==>
      Tick(s, st).value.next.relativeFrames == 0
  {
    LoadSpec(s, [], st.framesSinceStart, st.relativeFrames);
  }

  /**
   * The counters a tick leaves depend only on where the relative frame stands
   * against the last end frame of the scene.
   */
  lemma TickAdvance(s: Scene, st: LoopState)
    ensures Tick(s, st).Success? ==> Tick(s, st).value.next == LoopState(
      st.framesSinceStart + 1,
      if st.relativeFrames < MaxEnd(s.panels) then st.relativeFrames + 1 else 0)
  {
    LoadContinuesBeforeMaxEnd(s, [], st.framesSinceStart, st.relativeFrames);
  }

  /**
   * The counters after `n` ticks of the loop on scene `s`, or the halt of the
   * tick that raised. Once a tick raises, the loop is over.
   */
  function Run(s: Scene, n: nat): (r: Result<LoopState, Halt>)
    ensures r.Success? ==> r.value.framesSinceStart == n && r.value.relativeFrames <= n
  {
    if n == 0 then Success(InitialLoopState())
    else
      match Run(s, n - 1)
      case Failure(h) => Failure(h)
      case Success(st) =>
        match Tick(s, st)
        case Failure(h) => Failure(h)
        case Success(t) => Success(t.next)
  }

  /**
   * A tick only follows a tick that returned, and it advances the counters by
   * the rule of `TickAdvance`.
   */
  lemma RunStep(s: Scene, n: nat)
    requires n > 0
    ensures Run(s, n).Success? ==> Run(s, n - 1).Success?
    ensures Run(s, n).Success? ==>
      Run(s, n).value == LoopState(
        Run(s, n - 1).value.framesSinceStart + 1,
        if Run(s, n - 1).value.relativeFrames < MaxEnd(s.panels)
        then Run(s, n - 1).value.relativeFrames + 1 else 0)
  {
    if Run(s, n - 1).Success? {
      TickAdvance(s, Run(s, n - 1).value);
    }
  }

  /**
   * The relative frame count never passes the last end frame of the scene; a
   * scene without panels keeps it at 0.
   */
  lemma {:induction false} RunRelativeAtMostMaxEnd(s: Scene, n: nat)
    ensures Run(s, n).Success? ==> Run(s, n).value.relativeFrames <= MaxEnd(s.panels)
    ensures Run(s, n).Success? && |s.panels| == 0 ==> Run(s, n).value.relativeFrames == 0
  {
    if n > 0 {
      RunRelativeAtMostMaxEnd(s, n - 1);
      RunStep(s, n);
    }
  }

  /** Advancing a counter below `m` or resetting it at `m` is counting modulo `m + 1`. */
  lemma CycleStep(r: nat, m: nat, n: nat)
    requires n > 0 && r <= m && r == (n - 1) % (m + 1)
    ensures (if r < m then r + 1 else 0) == n % (m + 1)
  {
    ModSuccessor(n - 1, m + 1);
  }

  /**
   * While the loop runs, after `n` ticks the relative frame count is `n`
   * modulo one more than the last end frame: it runs 0, 1, ..., MaxEnd and
   * restarts.
   */
  lemma {:induction false} RunRelativeCycles(s: Scene, n: nat)
    ensures Run(s, n).Success? ==> Run(s, n).value.relativeFrames == n % (MaxEnd(s.panels) + 1)
  {
    if n == 0 {
      ZeroMod(MaxEnd(s.panels) + 1);
    } else if Run(s, n).Success? {
      RunRelativeCycles(s, n - 1);
      RunRelativeAtMostMaxEnd(s, n - 1);
      RunStep(s, n);
      CycleStep(Run(s, n - 1).value.relativeFrames, MaxEnd(s.panels), n);
    }
  }

  /** Every object of every panel of `s` is a `Text`. */
  predicate SceneAllText(s: Scene) {
    forall i, k :: 0 <= i < |s.panels| && 0 <= k < |s.panels[i].objects| ==>
      s.panels[i].objects[k].kind == TextObject
  }

  /** A scene of text objects only loads text objects. */
  lemma LoadAllText(s: Scene, absoluteFrames: nat, currentFrames: nat)
    requires SceneAllText(s)
    ensures AllText(Load(s, [], absoluteFrames, currentFrames).objects)
  {
    var objs := Load(s, [], absoluteFrames, currentFrames).objects;
    forall k | 0 <= k < |objs|
      ensures objs[k].kind == TextObject
    {
      LoadMembership(s, [], absoluteFrames, currentFrames, objs[k]);
    }
    AllTextAt(objs);
  }

  /** A scene of text objects never stops the loop. */
  lemma {:induction false} RunSucceedsOnTextScenes(s: Scene, n: nat)
    requires SceneAllText(s)
    ensures Run(s, n).Success?
  {
    if n > 0 {
      RunSucceedsOnTextScenes(s, n - 1);
      var st := Run(s, n - 1).value;
      LoadAllText(s, st.framesSinceStart, st.relativeFrames);
    }
  }

  /**
   * A plain object in panel `i` stops the loop no later than the tick at the
   * panel's start frame, the first time the panel is drawn.
   */
  lemma PlainObjectStopsRun(s: Scene, i: nat, k: nat)
    requires i < |s.panels| && k < |s.panels[i].objects|
    requires s.panels[i].objects[k].kind == PlainObject
    ensures Run(s, s.panels[i].delay + 1).Failure?
  {
    var d := s.panels[i].delay;
    if Run(s, d).Success? {
      var m := MaxEnd(s.panels);
      var st := Run(s, d).value;
      RunRelativeCycles(s, d);
      ModUnique(d, m + 1, 0, d);
      assert st.relativeFrames == d;
      var o := s.panels[i].objects[k];
      assert DisplayAt(s.panels[i], d).shouldRender;
      LoadMembership(s, [], st.framesSinceStart, d, o);
      var objs := Load(s, [], st.framesSinceStart, d).objects;
      var j :| 0 <= j < |objs| && objs[j] == o;
      AllTextAt(objs);
      assert !AllText(objs);
    }
  }

  /**
   * The loop runs forever exactly when every object of the scene is a text;
   * a single plain object anywhere ends it.
   */
  lemma RunsForeverIffAllText(s: Scene)
    ensures (forall n: nat :: Run(s, n).Success?) <==> SceneAllText(s)
  {
    if SceneAllText(s) {
      forall n: nat
        ensures Run(s, n).Success?
      {
        RunSucceedsOnTextScenes(s, n);
      }
    } else {
      var i, k :| 0 <= i < |s.panels| && 0 <= k < |s.panels[i].objects|
        && s.panels[i].objects[k].kind != TextObject;
      PlainObjectStopsRun(s, i, k);
    }
  }
}
