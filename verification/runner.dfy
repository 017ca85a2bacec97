/**
 * The deterministic per-object behaviours: `Counter`, which writes a running
 * count into its owner's text, and `Sliding`, which moves its owner one
 * column to the left per update and brings it back to the right edge once
 * it has scrolled off.
 *
 * A behaviour first gets one `before` call, then repeated `update` calls.
 * Each update takes the behaviour's state and its owner and returns both, the
 * owner changed in one attribute only. The matrix width `cols` that `Sliding`
 * reads from its matrix is passed in.
 */
module Runner {
  import opened Wrappers
  import opened Scenes
  import opened Modular

  /** The character of a decimal digit. */
  function DigitChar(d: nat): (c: char)
    requires d < 10
    ensures '0' <= c <= '9' && c as int - '0' as int == d
  {
    ['0', '1', '2', '3', '4', '5', '6', '7', '8', '9'][d]
  }

  /** True iff every character of `s` is a decimal digit. */
  predicate AllDigits(s: string) {
    forall i :: 0 <= i < |s| ==> '0' <= s[i] <= '9'
  }

  /**
   * Python's `str` on a non-negative integer: its decimal digits, most
   * significant first, with no leading zero except in "0" itself.
   */
  function DecimalString(n: nat): (s: string)
    ensures |s| >= 1 && AllDigits(s)
    ensures |s| > 1 ==> s[0] != '0'
  {
    if n < 10 then [DigitChar(n)] else DecimalString(n / 10) + [DigitChar(n % 10)]
  }

  /** The number a string of decimal digits denotes. */
  function DecimalValue(s: string): nat
    requires AllDigits(s)
  {
    if s == [] then 0
    else DecimalValue(s[..|s| - 1]) * 10 + (s[|s| - 1] as int - '0' as int)
  }

  /** Reading back the digits `DecimalString` writes gives the number again. */
  lemma {:induction false} DecimalRoundTrip(n: nat)
    ensures DecimalValue(DecimalString(n)) == n
  {
    var s := DecimalString(n);
    if n >= 10 {
      DecimalRoundTrip(n / 10);
      assert s[..|s| - 1] == DecimalString(n / 10);
    }
  }

  /** Different counts are written as different texts. */
  lemma DecimalStringInjective(m: nat, n: nat)
    requires DecimalString(m) == DecimalString(n)
    ensures m == n
  {
    DecimalRoundTrip(m);
    DecimalRoundTrip(n);
  }

  /** The state of a `Counter` behaviour. */
  datatype CounterState = CounterState(counter: nat)

  /** `Counter.before`: the count starts at 0. */
  function CounterBefore(st: CounterState): (r: CounterState)
    ensures r.counter == 0
  {
    st.(counter := 0)
  }

  /**
   * `Counter.update`: the owner's text becomes the current count in decimal,
   * then the count goes up by one. No other attribute of the owner changes.
   */
  function CounterUpdate(st: CounterState, owner: MatrixObject): (r: (CounterState, MatrixObject))
    ensures r.0.counter == st.counter + 1
    ensures r.1.text == Some(DecimalString(st.counter))
    ensures r.1.kind == owner.kind && r.1.x == owner.x && r.1.y == owner.y
    ensures r.1.color == owner.color && r.1.lastLength == owner.lastLength
  {
    var owner' := owner.(text := Some(DecimalString(st.counter)));
    (st.(counter := st.counter + 1), owner')
  }

  /** A counter and its owner after `k` updates. */
  function CounterUpdates(st: CounterState, owner: MatrixObject, k: nat): (CounterState, MatrixObject) {
    if k == 0 then (st, owner)
    else
      var prev := CounterUpdates(st, owner, k - 1);
      CounterUpdate(prev.0, prev.1)
  }

  /**
   * After `before` and `k` updates the count is `k`, the owner shows the
   * last count written, `k - 1`, and nothing else about the owner changed.
   */
  lemma {:induction false} CounterAfterUpdates(st: CounterState, owner: MatrixObject, k: nat)
    ensures CounterUpdates(CounterBefore(st), owner, k).0.counter == k
    ensures k >= 1 ==> CounterUpdates(CounterBefore(st), owner, k).1.text == Some(DecimalString(k - 1))
    ensures k == 0 ==> CounterUpdates(CounterBefore(st), owner, k).1 == owner
    ensures var o := CounterUpdates(CounterBefore(st), owner, k).1;
      o.kind == owner.kind && o.x == owner.x && o.y == owner.y
      && o.color == owner.color && o.lastLength == owner.lastLength
  {
    if k > 0 {
      CounterAfterUpdates(st, owner, k - 1);
      var prev := CounterUpdates(CounterBefore(st), owner, k - 1);
      assert CounterUpdates(CounterBefore(st), owner, k) == CounterUpdate(prev.0, prev.1);
    }
  }

  /** The state of a `Sliding` behaviour. */
  datatype SlidingState = SlidingState(position: int)

  /** `Sliding.before`: the text starts just past the right edge, at `cols`. */
  function SlidingBefore(st: SlidingState, cols: int): (r: SlidingState)
    ensures r.position == cols
  {
    st.(position := cols)
  }

  /** True iff the owner has a positive `last_length`, which enables sliding. */
  predicate HasWidth(owner: MatrixObject) {
    owner.lastLength.Some? && owner.lastLength.value > 0
  }

  /**
   * `Sliding.update`: without a positive `last_length` nothing happens.
   * Otherwise the position moves one column left, except that at exactly
   * `-last_length` (the text has just scrolled off) it jumps back to `cols`;
   * the owner's x follows the position and nothing else about it changes.
   */
  function SlidingUpdate(st: SlidingState, cols: int, owner: MatrixObject): (r: (SlidingState, MatrixObject))
    ensures !HasWidth(owner) ==> r == (st, owner)
    ensures HasWidth(owner) ==>
      && r.1.x == r.0.position
      && (r.0.position == cols || r.0.position == st.position - 1)
      && (r.0.position == cols <==> st.position == -owner.lastLength.value || st.position - 1 == cols)
    ensures r.1.kind == owner.kind && r.1.y == owner.y && r.1.text == owner.text
    ensures r.1.color == owner.color && r.1.lastLength == owner.lastLength
  {
    var lastLength := owner.lastLength;
    if lastLength.Some? && lastLength.value > 0 then
      var position := if st.position == -lastLength.value then cols else st.position - 1;
      (st.(position := position), owner.(x := position))
    else
      (st, owner)
  }

  /** A sliding behaviour and its owner after `k` updates. */
  function SlidingUpdates(st: SlidingState, cols: int, owner: MatrixObject, k: nat): (SlidingState, MatrixObject) {
    if k == 0 then (st, owner)
    else
      var prev := SlidingUpdates(st, cols, owner, k - 1);
      SlidingUpdate(prev.0, cols, prev.1)
  }

  /** Updates never change the owner's `last_length`. */
  lemma {:induction false} SlidingKeepsLength(st: SlidingState, cols: int, owner: MatrixObject, k: nat)
    ensures SlidingUpdates(st, cols, owner, k).1.lastLength == owner.lastLength
  {
    if k > 0 {
      SlidingKeepsLength(st, cols, owner, k - 1);
    }
  }

  /** Without a positive `last_length`, any number of updates changes nothing. */
  lemma {:induction false} SlidingIdleWithoutWidth(st: SlidingState, cols: int, owner: MatrixObject, k: nat)
    requires !HasWidth(owner)
    ensures SlidingUpdates(st, cols, owner, k) == (st, owner)
  {
    if k > 0 {
      SlidingIdleWithoutWidth(st, cols, owner, k - 1);
    }
  }

  /**
   * Started by `before`, the position runs cols, cols - 1, ..., -L and then
   * jumps back to cols: after `k` updates it is `cols - k mod (cols + L + 1)`,
   * so it stays within [-L, cols] and is back at cols every cols + L + 1
   * updates.
   */
  lemma {:induction false} SlidingCycles(st: SlidingState, cols: int, owner: MatrixObject, k: nat)
    requires HasWidth(owner) && cols + owner.lastLength.value >= 0
    ensures var p := SlidingUpdates(SlidingBefore(st, cols), cols, owner, k).0.position;
      p == cols - k % (cols + owner.lastLength.value + 1)
      && -owner.lastLength.value <= p <= cols
  {
    var L := owner.lastLength.value;
    var period := cols + L + 1;
    if k == 0 {
      ZeroMod(period);
    } else {
      SlidingCycles(st, cols, owner, k - 1);
      SlidingKeepsLength(SlidingBefore(st, cols), cols, owner, k - 1);
      var prev := SlidingUpdates(SlidingBefore(st, cols), cols, owner, k - 1);
      SlideStep(prev.0.position, cols, L, k);
    }
  }

  /** One sliding step on the cycle, stated with plain integers. */
  lemma SlideStep(p: int, cols: int, L: int, k: nat)
    requires L > 0 && cols + L >= 0 && k > 0
    requires p == cols - (k - 1) % (cols + L + 1)
    ensures (if p == -L then cols else p - 1) == cols - k % (cols + L + 1)
  {
    ModSuccessor(k - 1, cols + L + 1);
  }

  /**
   * Below `-L` the wrap-around test never fires again: every update moves
   * one column further left.
   */
  lemma {:induction false} SlidingBelowNeverWraps(st: SlidingState, cols: int, owner: MatrixObject, k: nat)
    requires HasWidth(owner) && st.position < -owner.lastLength.value
    ensures SlidingUpdates(st, cols, owner, k).0.position == st.position - k
  {
    if k > 0 {
      SlidingBelowNeverWraps(st, cols, owner, k - 1);
      SlidingKeepsLength(st, cols, owner, k - 1);
    }
  }

  /**
   * A behaviour attached to an object: the base `State`, whose `before` does
   * nothing and which has no `update`, or one of the two concrete behaviours.
   */
  datatype Behaviour =
    | BaseState
    | CounterBehaviour(counter: CounterState)
    | SlidingBehaviour(sliding: SlidingState)

  /** Calling `update` on the base `State`, which defines none. */
  datatype UpdateError = NoUpdateMethod

  /** The `before` hook: a no-op for the base state, else the behaviour's own. */
  function Before(b: Behaviour, cols: int): (r: Behaviour)
    ensures b.BaseState? ==> r == b
    ensures b.CounterBehaviour? ==> r.CounterBehaviour? && r.counter.counter == 0
    ensures b.SlidingBehaviour? ==> r.SlidingBehaviour? && r.sliding.position == cols
  {
    match b
    case BaseState => b
    case CounterBehaviour(c) => CounterBehaviour(CounterBefore(c))
    case SlidingBehaviour(sl) => SlidingBehaviour(SlidingBefore(sl, cols))
  }

  /**
   * The `update` hook: the base state has none and fails; a counter writes
   * its count into the owner's text and counts on; a sliding behaviour moves
   * the owner's x by the sliding rule and stays sliding.
   */
  function Update(b: Behaviour, cols: int, owner: MatrixObject): (r: Result<(Behaviour, MatrixObject), UpdateError>)
    ensures r.Failure? <==> b.BaseState?
    ensures r.Success? ==> r.value.0.CounterBehaviour? == b.CounterBehaviour?
    ensures r.Success? ==>
      var o := r.value.1;
      && o.kind == owner.kind && o.y == owner.y && o.color == owner.color
      && o.lastLength == owner.lastLength
      && (b.CounterBehaviour? ==> o.x == owner.x)
      && (b.SlidingBehaviour? ==> o.text == owner.text)
    ensures b.CounterBehaviour? ==>
      r == Success((CounterBehaviour(CounterState(b.counter.counter + 1)),
                    owner.(text := Some(DecimalString(b.counter.counter)))))
    ensures b.SlidingBehaviour? ==>
      var next := SlidingUpdate(b.sliding, cols, owner);
      r == Success((SlidingBehaviour(next.0), next.1))
  {
    match b
    case BaseState => Failure(NoUpdateMethod)
    case CounterBehaviour(c) =>
      var r := CounterUpdate(c, owner);
      Success((CounterBehaviour(r.0), r.1))
    case SlidingBehaviour(sl) =>
      var r := SlidingUpdate(sl, cols, owner);
      Success((SlidingBehaviour(r.0), r.1))
  }
}
