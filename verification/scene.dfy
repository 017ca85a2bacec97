/**
 * Panels and scenes: which drawable objects are shown at which frame.
 *
 * A panel is a window of frames that starts at its delay and ends at
 * delay + frames, inclusive at both ends. A scene is an ordered list of panels;
 * loading a frame collects the objects of every visible panel and reports
 * whether some panel has not yet ended.
 */
module Scenes {
  import opened Wrappers

  /**
   * An RGB colour as given to the `Text` constructor. The program defines it
   * with the matrix base; it lives here because text objects hold one and the
   * matrix module builds on this one.
   */
  datatype Color = Color(r: int, g: int, b: int)

  /** The two kinds of drawable object: a plain `MatrixObject` and its `Text` subclass. */
  datatype ObjectKind = PlainObject | TextObject

  /**
   * A drawable object. Attributes that Python objects acquire dynamically
   * (`text` on a plain object, `last_length`) are optional.
   */
  datatype MatrixObject = MatrixObject(
    kind: ObjectKind,
    x: int,
    y: int,
    text: Option<string>,
    color: Option<Color>,
    lastLength: Option<int>)

  /** Any value handed to `Panel.add`: a drawable object or something else. */
  datatype Value = Object(obj: MatrixObject) | NonObject(description: string)

  /** Raised when something that is not a `MatrixObject` is added to a panel. */
  datatype MatrixObjectError = MatrixObjectError

  /** A window of frames and the objects shown during it. */
  datatype Panel = Panel(frames: nat, delay: nat, objects: seq<MatrixObject>) {
    /** The last frame of the window; the panel has ended from this frame on. */
    function End(): nat {
      delay + frames
    }
  }

  /** The two flags `Panel._display` returns for one frame. */
  datatype Display = Display(shouldRender: bool, ended: bool)

  /** An ordered list of panels. */
  datatype Scene = Scene(panels: seq<Panel>)

  /** What `Scene.load` leaves behind: the extended draw list and the continue flag. */
  datatype LoadResult = LoadResult(objects: seq<MatrixObject>, continueRunning: bool)

  /** `MatrixObject(x, y)`: a plain object with a position and nothing else. */
  function NewMatrixObject(x: int, y: int): (o: MatrixObject)
    ensures o.kind == PlainObject && o.x == x && o.y == y
    ensures o.text.None? && o.color.None? && o.lastLength.None?
  {
    MatrixObject(PlainObject, x, y, None, None, None)
  }

  /** `Text(text, color, x, y)`: a text object; it has no `last_length` yet. */
  function NewText(text: string, color: Color, x: int, y: int): (o: MatrixObject)
    ensures o.kind == TextObject && o.x == x && o.y == y
    ensures o.text == Some(text) && o.color == Some(color) && o.lastLength.None?
  {
    MatrixObject(TextObject, x, y, Some(text), Some(color), None)
  }

  /** A panel as `Panel.__init__` leaves it: no objects, no frames, no delay. */
  function NewPanel(): (p: Panel)
    ensures p.frames == 0 && p.delay == 0 && p.objects == []
  {
    Panel(0, 0, [])
  }

  /** `Panel.duration`: the window lasts `seconds * refreshRate` frames. */
  function SetDuration(p: Panel, refreshRate: nat, seconds: nat): (r: Panel)
    ensures r.frames == refreshRate * seconds
    ensures r.delay == p.delay && r.objects == p.objects
  {
    p.(frames := refreshRate * seconds)
  }

  /** `Panel.frames`: the window lasts exactly `n` frames. */
  function SetFrames(p: Panel, n: nat): (r: Panel)
    ensures r.frames == n
    ensures r.delay == p.delay && r.objects == p.objects
  {
    p.(frames := n)
  }

  /** `Panel.delay`: the window starts `seconds * refreshRate` frames in. */
  function SetDelay(p: Panel, refreshRate: nat, seconds: nat): (r: Panel)
    ensures r.delay == refreshRate * seconds
    ensures r.frames == p.frames && r.objects == p.objects
  {
    p.(delay := refreshRate * seconds)
  }

  /**
   * `Panel.add`: a drawable object is appended after the earlier ones; any
   * other value raises `MatrixObjectError` and leaves the panel as it was.
   */
  function Add(p: Panel, v: Value): (r: Result<Panel, MatrixObjectError>)
    ensures v.Object? <==> r.Success?
    ensures r.Success? ==>
      && |r.value.objects| == |p.objects| + 1
      && r.value.objects[..|p.objects|] == p.objects
      && r.value.objects[|p.objects|] == v.obj
      && r.value.frames == p.frames && r.value.delay == p.delay
  {
    match v
    case Object(o) => Success(p.(objects := p.objects + [o]))
    case NonObject(_) => Failure(MatrixObjectError)
  }

  /**
   * `Panel._display`: the panel renders from its delay up to and including its
   * end frame, and has ended from its end frame on.
   */
  function DisplayAt(p: Panel, currentFrame: nat): (d: Display)
    ensures d.shouldRender <==> p.delay <= currentFrame <= p.delay + p.frames
    ensures d.ended <==> currentFrame >= p.delay + p.frames
  {
    var delay := p.delay;
    var endAt := p.frames + delay;
    Display(currentFrame >= delay && currentFrame <= endAt, currentFrame >= endAt)
  }

  /** The objects panel `p` contributes to the draw list at frame `f`. */
  function Contribution(p: Panel, f: nat): seq<MatrixObject> {
    if DisplayAt(p, f).shouldRender then p.objects else []
  }

  /** Concatenation of a list of lists, left to right. */
  function Concat<T>(ss: seq<seq<T>>): seq<T> {
    if |ss| == 0 then [] else Concat(ss[..|ss| - 1]) + ss[|ss| - 1]
  }

  /** Per-panel contributions at frame `f`, in panel order. */
  function Contributions(panels: seq<Panel>, f: nat): (cs: seq<seq<MatrixObject>>)
    ensures |cs| == |panels|
    ensures forall i :: 0 <= i < |panels| ==> cs[i] == Contribution(panels[i], f)
  {
    seq(|panels|, i requires 0 <= i < |panels| => Contribution(panels[i], f))
  }

  /** True iff some panel has not ended at frame `f`. */
  ghost predicate SomePanelActive(panels: seq<Panel>, f: nat) {
    exists i :: 0 <= i < |panels| && f < panels[i].End()
  }

  /** `Scene.__init__`: a scene without panels. */
  function NewScene(): (s: Scene)
    ensures |s.panels| == 0
  {
    Scene([])
  }

  /**
   * `Scene.create_panel`: appends a default panel and returns the scene together
   * with the position of the new panel, which stands for the returned handle.
   */
  function CreatePanel(s: Scene): (r: (Scene, nat))
    ensures r.1 == |s.panels| && |r.0.panels| == |s.panels| + 1
    ensures r.0.panels[..|s.panels|] == s.panels
    ensures r.0.panels[r.1] == NewPanel()
  {
    (Scene(s.panels + [NewPanel()]), |s.panels|)
  }

  /**
   * Reconfiguring a panel through its handle: panel `i` becomes `p`, every other
   * panel stays as it was.
   */
  function SetPanel(s: Scene, i: nat, p: Panel): (r: Scene)
    requires i < |s.panels|
    ensures |r.panels| == |s.panels| && r.panels[i] == p
    ensures forall j :: 0 <= j < |s.panels| && j != i ==> r.panels[j] == s.panels[j]
  {
    Scene(s.panels[i := p])
  }

  /**
   * The body of the loop in `Scene.load` from panel `i` on, with the draw list
   * and the continue flag built so far: a panel that renders appends its
   * objects, a panel that has not ended sets the flag.
   */
  function LoadFrom(panels: seq<Panel>, f: nat, i: nat, acc: seq<MatrixObject>, cont: bool): LoadResult
    requires i <= |panels|
    decreases |panels| - i
  {
    if i == |panels| then
      LoadResult(acc, cont)
    else
      var d := DisplayAt(panels[i], f);
      var acc' := acc + Contribution(panels[i], f);
      var cont' := if !d.ended then true else cont;
      LoadFrom(panels, f, i + 1, acc', cont')
  }

  /**
   * `Scene.load`: appends to `objectsToDraw` the objects of the panels that
   * render at `currentFrames` and reports whether some panel has not ended.
   */
  function Load(s: Scene, objectsToDraw: seq<MatrixObject>, absoluteFrames: nat, currentFrames: nat): (r: LoadResult)
    ensures |objectsToDraw| <= |r.objects| && r.objects[..|objectsToDraw|] == objectsToDraw
  {
    LoadFromObjects(s.panels, currentFrames, 0, objectsToDraw, false);
    LoadFrom(s.panels, currentFrames, 0, objectsToDraw, false)
  }

  /** The loop visits panel `i` and moves on to panel `i + 1`. */
  lemma LoadFromStep(panels: seq<Panel>, f: nat, i: nat, acc: seq<MatrixObject>, cont: bool)
    requires i < |panels|
    ensures LoadFrom(panels, f, i, acc, cont)
        == LoadFrom(panels, f, i + 1, acc + Contribution(panels[i], f), cont || f < panels[i].End())
  {
  }

  /** The draw list after panels `i..` have been visited. */
  lemma {:induction false} LoadFromObjects(panels: seq<Panel>, f: nat, i: nat, acc: seq<MatrixObject>, cont: bool)
    requires i <= |panels|
    ensures LoadFrom(panels, f, i, acc, cont).objects == acc + Concat(Contributions(panels, f)[i..])
    decreases |panels| - i
  {
    var cs := Contributions(panels, f);
    if i == |panels| {
      assert cs[i..] == [];
    } else {
      var acc' := acc + Contribution(panels[i], f);
      LoadFromStep(panels, f, i, acc, cont);
      LoadFromObjects(panels, f, i + 1, acc', cont || f < panels[i].End());
      AppendNext(acc, cs, i);
    }
  }

  /** The continue flag after panels `i..` have been visited. */
  lemma {:induction false} LoadFromContinues(panels: seq<Panel>, f: nat, i: nat, acc: seq<MatrixObject>, cont: bool)
    requires i <= |panels|
    ensures LoadFrom(panels, f, i, acc, cont).continueRunning
        <==> cont || exists j :: i <= j < |panels| && f < panels[j].End()
    decreases |panels| - i
  {
    if i < |panels| {
      LoadFromStep(panels, f, i, acc, cont);
      LoadFromContinues(panels, f, i + 1, acc + Contribution(panels[i], f), cont || f < panels[i].End());
    }
  }

  /**
   * The draw list `Scene.load` leaves is the incoming list followed by the
   * objects of every panel that renders at `currentFrames`, panel by panel and
   * in each panel's own order; the flag holds iff some panel has not ended.
   * The absolute frame count plays no part.
   */
  lemma LoadSpec(s: Scene, objectsToDraw: seq<MatrixObject>, absoluteFrames: nat, currentFrames: nat)
    ensures Load(s, objectsToDraw, absoluteFrames, currentFrames).objects
        == objectsToDraw + Concat(Contributions(s.panels, currentFrames))
    ensures Load(s, objectsToDraw, absoluteFrames, currentFrames).continueRunning
        <==> SomePanelActive(s.panels, currentFrames)
  {
    LoadFromObjects(s.panels, currentFrames, 0, objectsToDraw, false);
    LoadFromContinues(s.panels, currentFrames, 0, objectsToDraw, false);
    assert Contributions(s.panels, currentFrames)[0..] == Contributions(s.panels, currentFrames);
  }

  /** Appending list `i` to an accumulator, then the lists after it, appends lists `i..`. */
  lemma AppendNext<T>(acc: seq<T>, ss: seq<seq<T>>, i: nat)
    requires i < |ss|
    ensures (acc + ss[i]) + Concat(ss[i + 1..]) == acc + Concat(ss[i..])
  {
    ConcatFrom(ss, i);
  }

  /** Splitting the first list off a suffix of a list of lists. */
  lemma ConcatFrom<T>(ss: seq<seq<T>>, i: nat)
    requires i < |ss|
    ensures Concat(ss[i..]) == ss[i] + Concat(ss[i + 1..])
  {
    ConcatCons(ss[i..]);
    assert ss[i..][1..] == ss[i + 1..];
  }

  lemma {:induction false} ConcatCons<T>(ss: seq<seq<T>>)
    requires |ss| > 0
    ensures Concat(ss) == ss[0] + Concat(ss[1..])
    decreases |ss|
  {
    if |ss| == 1 {
      assert ss[1..] == [];
      assert ss[..0] == [];
    } else {
      var init := ss[..|ss| - 1];
      ConcatCons(init);
      assert init[0] == ss[0];
      assert init[1..] == ss[1..][..|ss[1..]| - 1];
    }
  }

  /** An object is in a concatenation iff it is in one of the concatenated lists. */
  lemma {:induction false} ConcatMembership<T>(ss: seq<seq<T>>, o: T)
    ensures o in Concat(ss) <==> exists i :: 0 <= i < |ss| && o in ss[i]
    decreases |ss|
  {
    if |ss| > 0 {
      var init := ss[..|ss| - 1];
      ConcatMembership(init, o);
      if o in Concat(ss) && o !in ss[|ss| - 1] {
        var i :| 0 <= i < |init| && o in init[i];
        assert ss[i] == init[i];
      }
      if exists i :: 0 <= i < |ss| && o in ss[i] {
        var i :| 0 <= i < |ss| && o in ss[i];
        if i < |ss| - 1 {
          assert init[i] == ss[i];
        }
      }
    }
  }

  /** Occurrences in a prefix of a concatenation are occurrences in the whole. */
  lemma {:induction false} ConcatPrefixMultiplicity<T>(ss: seq<seq<T>>, k: nat, o: T)
    requires k <= |ss|
    ensures multiset(Concat(ss[..k]))[o] <= multiset(Concat(ss))[o]
    decreases |ss|
  {
    if k < |ss| {
      var init := ss[..|ss| - 1];
      assert init[..k] == ss[..k];
      ConcatPrefixMultiplicity(init, k, o);
    } else {
      assert ss[..k] == ss;
    }
  }

  /**
   * The draw list never merges duplicates: an object that two visible panels
   * both hold appears at least twice.
   */
  lemma LoadKeepsDuplicates(s: Scene, objectsToDraw: seq<MatrixObject>, absoluteFrames: nat, currentFrames: nat, i: nat, j: nat, o: MatrixObject)
    requires i < j < |s.panels|
    requires DisplayAt(s.panels[i], currentFrames).shouldRender && o in s.panels[i].objects
    requires DisplayAt(s.panels[j], currentFrames).shouldRender && o in s.panels[j].objects
    ensures multiset(Load(s, objectsToDraw, absoluteFrames, currentFrames).objects)[o] >= 2
  {
    LoadSpec(s, objectsToDraw, absoluteFrames, currentFrames);
    var cs := Contributions(s.panels, currentFrames);
    assert o in cs[i] && o in cs[j];
    ConcatKeepsTwo(cs, i, j, o);
    assert multiset(objectsToDraw + Concat(cs)) == multiset(objectsToDraw) + multiset(Concat(cs));
  }

  /** An element of two different lists occurs at least twice in their concatenation. */
  lemma ConcatKeepsTwo<T>(ss: seq<seq<T>>, i: nat, j: nat, o: T)
    requires i < j < |ss| && o in ss[i] && o in ss[j]
    ensures multiset(Concat(ss))[o] >= 2
  {
    var upto := ss[..j + 1];
    assert upto[..j] == ss[..j];
    ConcatMembership(ss[..j], o);
    assert ss[..j][i] == ss[i];
    assert Concat(upto) == Concat(ss[..j]) + ss[j];
    ConcatPrefixMultiplicity(ss, j + 1, o);
  }

  /**
   * An object is drawn at a frame iff it was already in the draw list or it
   * belongs to a panel that renders at that frame.
   */
  lemma LoadMembership(s: Scene, objectsToDraw: seq<MatrixObject>, absoluteFrames: nat, currentFrames: nat, o: MatrixObject)
    ensures o in Load(s, objectsToDraw, absoluteFrames, currentFrames).objects
        <==> o in objectsToDraw
             || exists i :: 0 <= i < |s.panels| && DisplayAt(s.panels[i], currentFrames).shouldRender && o in s.panels[i].objects
  {
    LoadSpec(s, objectsToDraw, absoluteFrames, currentFrames);
    var cs := Contributions(s.panels, currentFrames);
    ConcatMembership(cs, o);
    if exists i :: 0 <= i < |cs| && o in cs[i] {
      var i :| 0 <= i < |cs| && o in cs[i];
      assert DisplayAt(s.panels[i], currentFrames).shouldRender;
    }
    if exists i :: 0 <= i < |s.panels| && DisplayAt(s.panels[i], currentFrames).shouldRender && o in s.panels[i].objects {
      var i :| 0 <= i < |s.panels| && DisplayAt(s.panels[i], currentFrames).shouldRender && o in s.panels[i].objects;
      assert o in cs[i];
    }
  }

  /** The largest end frame among the panels, 0 when there are none. */
  function MaxEnd(panels: seq<Panel>): (m: nat)
    ensures forall i :: 0 <= i < |panels| ==> panels[i].End() <= m
    ensures |panels| == 0 ==> m == 0
  {
    if |panels| == 0 then 0
    else
      var rest := MaxEnd(panels[1..]);
      assert forall i :: 1 <= i < |panels| ==> panels[i] == panels[1..][i - 1];
      if panels[0].End() >= rest then panels[0].End() else rest
  }

  /** Some panel ends exactly at the largest end frame. */
  lemma {:induction false} MaxEndAttained(panels: seq<Panel>) returns (k: nat)
    requires |panels| > 0
    ensures k < |panels| && panels[k].End() == MaxEnd(panels)
  {
    if |panels| == 1 || panels[0].End() >= MaxEnd(panels[1..]) {
      k := 0;
    } else {
      var k' := MaxEndAttained(panels[1..]);
      k := k' + 1;
    }
  }

  /**
   * `Scene.load` asks the loop to keep counting exactly while the frame is
   * before the last end frame of the scene.
   */
  lemma LoadContinuesBeforeMaxEnd(s: Scene, objectsToDraw: seq<MatrixObject>, absoluteFrames: nat, currentFrames: nat)
    ensures Load(s, objectsToDraw, absoluteFrames, currentFrames).continueRunning
        <==> currentFrames < MaxEnd(s.panels)
  {
    LoadSpec(s, objectsToDraw, absoluteFrames, currentFrames);
    if currentFrames < MaxEnd(s.panels) {
      var k := MaxEndAttained(s.panels);
      assert currentFrames < s.panels[k].End();
    }
  }

  /** The number of frames below `n` at which panel `p` renders. */
  function RenderedFrames(p: Panel, n: nat): nat {
    if n == 0 then 0
    else RenderedFrames(p, n - 1) + (if DisplayAt(p, n - 1).shouldRender then 1 else 0)
  }

  /**
   * A panel renders on exactly `frames + 1` frames: its window is inclusive
   * at both ends.
   */
  lemma {:induction false} PanelRendersFramesPlusOne(p: Panel, n: nat)
    requires n > p.End()
    ensures RenderedFrames(p, n) == p.frames + 1
  {
    RenderedBelow(p, n);
  }

  lemma {:induction false} RenderedBelow(p: Panel, n: nat)
    ensures n <= p.delay ==> RenderedFrames(p, n) == 0
    ensures p.delay <= n <= p.End() + 1 ==> RenderedFrames(p, n) == n - p.delay
    ensures n > p.End() ==> RenderedFrames(p, n) == p.frames + 1
  {
    if n > 0 {
      RenderedBelow(p, n - 1);
    }
  }

  /** A fresh panel is visible at frame 0 only and has ended at every frame. */
  lemma NewPanelVisibleOnlyAtZero(f: nat)
    ensures DisplayAt(NewPanel(), f).shouldRender <==> f == 0
    ensures DisplayAt(NewPanel(), f).ended
  {
  }

  /** Both flags hold together exactly on the end frame. */
  lemma RenderAndEndedOnlyAtEnd(p: Panel, f: nat)
    ensures DisplayAt(p, f).shouldRender && DisplayAt(p, f).ended <==> f == p.End()
  {
  }

  /**
   * A panel given one second at 20 frames per second renders on frames 0 to
   * 20 and has ended from frame 20 on.
   */
  lemma OneSecondPanel(f: nat)
    ensures var p := SetDuration(NewPanel(), 20, 1);
      && (DisplayAt(p, f).shouldRender <==> f <= 20)
      && (DisplayAt(p, f).ended <==> f >= 20)
  {
  }

  /**
   * A panel delayed by two seconds and lasting three, at 20 frames per
   * second, renders on frames 40 to 100 and has ended from frame 100 on: the
   * duration counts from the delay, so the window ends at 40 + 60.
   */
  lemma DelayedPanel(f: nat)
    ensures var p := SetDelay(SetDuration(NewPanel(), 20, 3), 20, 2);
      && (DisplayAt(p, f).shouldRender <==> 40 <= f <= 100)
      && (DisplayAt(p, f).ended <==> f >= 100)
  {
  }
}
