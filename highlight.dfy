/**
 * `useHighlight`: a three-state machine that makes a value flash when its
 * dependencies change, but not when it first mounts. The layout effect
 * steps the state on mount and on every dependency change; the end of the
 * CSS animation puts it back to READY.
 */
module Highlight {

  datatype HighlightState = NotReady | Ready | Running

  /** The switch run by the layout effect. */
  function Step(s: HighlightState): (r: HighlightState)
    ensures r != NotReady
    ensures Animating(r) <==> s != NotReady
  {
    match s
    case NotReady => Ready
    case Ready => Running
    case Running => Running
  }

  /** What the hook returns as its first element. */
  predicate Animating(s: HighlightState) {
    s == Running
  }

  /** The hook's state, as React keeps it for one mounted component. */
  class Highlighter {
    var state: HighlightState

    constructor ()
      ensures state == NotReady && !IsAnimating()
    {
      state := NotReady;
    }

    function IsAnimating(): bool
      reads this
    {
      Animating(state)
    }

    /** The layout effect, run on mount and whenever a dependency changes. */
    method LayoutEffect()
      modifies this
      ensures state == Step(old(state))
    {
      match state {
        case NotReady => state := Ready;
        case Ready => state := Running;
        case Running =>
      }
    }

    /** `onAnimationEnd`. */
    method OnAnimationEnd()
      modifies this
      ensures state == Ready && !IsAnimating()
    {
      state := Ready;
    }
  }

  /** What can happen to a mounted hook: its layout effect runs, or its animation ends. */
  datatype Signal = Effect | AnimationEnd

  function Apply(s: HighlightState, sig: Signal): HighlightState {
    match sig
    case Effect => Step(s)
    case AnimationEnd => Ready
  }

  /** The state after a trace of signals, applied in order. */
  function Run(s: HighlightState, trace: seq<Signal>): HighlightState
    decreases |trace|
  {
    if |trace| == 0 then s else Run(Apply(s, trace[0]), trace[1..])
  }

  /** The first effect after mounting only arms the machine: it never animates. */
  lemma MountDoesNotAnimate()
    ensures Run(NotReady, [Effect]) == Ready && !Animating(Run(NotReady, [Effect]))
  {
  }

  lemma {:induction false} RunAppend(s: HighlightState, t: seq<Signal>, sig: Signal)
    ensures Run(s, t + [sig]) == Apply(Run(s, t), sig)
    decreases |t|
  {
    if |t| > 0 {
      assert (t + [sig])[1..] == t[1..] + [sig];
      RunAppend(Apply(s, t[0]), t[1..], sig);
    }
  }

  /**
   * Once armed, the value is animating exactly when the last thing that
   * happened was a dependency change: an animation end always stops it,
   * and a change always starts it or keeps it going.
   */
  lemma {:induction false} AnimatingIffLastWasChange(t: seq<Signal>)
    ensures Animating(Run(Ready, t)) <==> |t| > 0 && t[|t| - 1] == Effect
  {
    if |t| > 0 {
      var init := t[..|t| - 1];
      assert init + [t[|t| - 1]] == t;
      RunAppend(Ready, init, t[|t| - 1]);
      NeverNotReadyAgain(Ready, init);
    }
  }

  /** A mounted hook: its first layout effect, then any trace. */
  lemma MountedHook(t: seq<Signal>)
    ensures Run(NotReady, [Effect] + t) == Run(Ready, t)
    ensures Animating(Run(NotReady, [Effect] + t)) <==> |t| > 0 && t[|t| - 1] == Effect
  {
    assert ([Effect] + t)[1..] == t;
    AnimatingIffLastWasChange(t);
  }

  /** A machine that has left NOT_READY never returns to it. */
  lemma {:induction false} NeverNotReadyAgain(s: HighlightState, t: seq<Signal>)
    requires s != NotReady
    ensures Run(s, t) != NotReady
    decreases |t|
  {
    if |t| > 0 {
      NeverNotReadyAgain(Apply(s, t[0]), t[1..]);
    }
  }

  /** From READY one change always animates, and later changes keep it animating until an animation ends. */
  lemma {:induction false} ChangesKeepAnimating(n: nat)
    requires n >= 1
    ensures Animating(Run(Ready, seq(n, _ => Effect)))
    decreases n
  {
    var t := seq(n, _ => Effect);
    if n > 1 {
      assert t[1..] == seq(n - 1, _ => Effect);
      ChangesKeepAnimatingFromRunning(n - 1);
    }
  }

  lemma {:induction false} ChangesKeepAnimatingFromRunning(n: nat)
    ensures Run(Running, seq(n, _ => Effect)) == Running
    decreases n
  {
    var t := seq(n, _ => Effect);
    if n > 0 {
      assert t[1..] == seq(n - 1, _ => Effect);
      ChangesKeepAnimatingFromRunning(n - 1);
    }
  }
}
