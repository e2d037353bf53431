/**
 * Any sequence of host events and setter calls applied to the widget, and
 * what holds after all of them: the visibility invariant, an append-only
 * callback log, and the order in which callbacks see the widget.
 */
module Events {
  import opened Wrappers
  import opened HitTest
  import opened FieldState

  datatype Event =
    | FocusChange(hasFocus: bool)
    | TextEdit(text: string, start: int, lengthBefore: int, lengthAfter: int)
    | Touch(action: Action, x: int, y: int, layout: Layout)
    | SetTextWatcher(watcher: Option<Id>)
    | SetClearCallback(callback: Option<Id>)
    | SetFocusListener(listener: Option<Id>)
    | SetClearImage(resId: int, loadedHeight: int)

  function Apply(s: State, e: Event): (r: State)
    ensures s.Valid() ==> r.Valid()
    ensures s.log <= r.log
  {
    match e
    case FocusChange(hasFocus) => FocusChanged(s, hasFocus)
    case TextEdit(text, start, before, after) => Edited(s, text, start, before, after)
    case Touch(action, x, y, layout) => Touched(s, action, x, y, layout)
    case SetTextWatcher(watcher) => WatcherSet(s, watcher)
    case SetClearCallback(callback) => ClearCallbackSet(s, callback)
    case SetFocusListener(listener) => FocusListenerSet(s, listener)
    case SetClearImage(resId, height) => ClearImageSet(s, resId, height)
  }

  function Run(s: State, events: seq<Event>): State
    decreases |events|
  {
    if events == [] then s else Run(Apply(s, events[0]), events[1..])
  }

  /** From any valid state -- in particular the constructed one -- the icon
      is visible exactly when focused with non-empty text, after any events. */
  lemma {:induction false} RunKeepsValid(s: State, events: seq<Event>)
    requires s.Valid()
    ensures Run(s, events).Valid()
    decreases |events|
  {
    if events != [] {
      RunKeepsValid(Apply(s, events[0]), events[1..]);
    }
  }

  lemma {:induction false} ConstructedStaysValid(attrIcon: Option<int>, attrSize: Option<int>, text: string, events: seq<Event>)
    ensures Run(Init(attrIcon, attrSize, text), events).Valid()
  {
    RunKeepsValid(Init(attrIcon, attrSize, text), events);
  }

  /** Callbacks are only ever appended: nothing already logged is lost. */
  lemma {:induction false} RunExtendsLog(s: State, events: seq<Event>)
    ensures s.log <= Run(s, events).log
    decreases |events|
  {
    if events != [] {
      RunExtendsLog(Apply(s, events[0]), events[1..]);
    }
  }

  /** What each callback sees when it runs: a watcher sees the new text and
      the visibility already recomputed from it, and the clear callback sees
      the text already emptied and the icon hidden. */
  predicate WellOrdered(c: Call) {
    match c
    case FocusForwarded(_, _, seen) => seen.iconVisible == (seen.focused && |seen.text| > 0)
    case TextWatched(_, text, _, _, _, seen) =>
      seen.text == text && seen.iconVisible == (seen.focused && |text| > 0)
    case Cleared(_, seen) => seen.text == [] && !seen.iconVisible
  }

  predicate WellOrderedLog(log: seq<Call>) {
    forall i :: 0 <= i < |log| ==> WellOrdered(log[i])
  }

  lemma ApplyKeepsWellOrdered(s: State, e: Event)
    requires s.Valid() && WellOrderedLog(s.log)
    ensures WellOrderedLog(Apply(s, e).log)
  {
    var r := Apply(s, e);
    match e
    case Touch(action, x, y, layout) =>
      if ClearTapped(s, action, x, y, layout) {
        var emptied := SetText(s, []);
        assert WellOrderedLog(emptied.log);
      }
    case _ =>
  }

  lemma {:induction false} RunKeepsWellOrdered(s: State, events: seq<Event>)
    requires s.Valid() && WellOrderedLog(s.log)
    ensures WellOrderedLog(Run(s, events).log)
    decreases |events|
  {
    if events != [] {
      ApplyKeepsWellOrdered(s, events[0]);
      RunKeepsWellOrdered(Apply(s, events[0]), events[1..]);
    }
  }

  /** Number of clear-callback invocations in a log. */
  function ClearCount(log: seq<Call>): nat {
    if log == [] then 0 else ClearCount(log[..|log| - 1]) + if log[|log| - 1].Cleared? then 1 else 0
  }

  lemma {:induction false} ClearCountAppend(a: seq<Call>, b: seq<Call>)
    ensures ClearCount(a + b) == ClearCount(a) + ClearCount(b)
    decreases |b|
  {
    if b == [] {
      assert a + b == a;
    } else {
      var b' := b[..|b| - 1];
      assert (a + b)[..|a + b| - 1] == a + b';
      ClearCountAppend(a, b');
    }
  }

  lemma ClearCountSingle(c: Call)
    ensures ClearCount([c]) == if c.Cleared? then 1 else 0
  {
    assert [c][..0] == [];
  }

  /** A clear tap invokes the clear callback exactly once when one is
      registered and never otherwise, as the last call of the tap. */
  lemma {:induction false} TouchClearsOnce(s: State, action: Action, x: int, y: int, layout: Layout)
    requires ClearTapped(s, action, x, y, layout)
    ensures ClearCount(Touched(s, action, x, y, layout).log) ==
              ClearCount(s.log) + if s.clearCallback.Some? then 1 else 0
  {
    var r := Touched(s, action, x, y, layout);
    var emptied := SetText(s, []);
    var watched := emptied.log[|s.log|..];
    assert emptied.log == s.log + watched;
    assert ClearCount(watched) == 0 by {
      if watched != [] {
        ClearCountSingle(watched[0]);
        assert watched == [watched[0]];
      }
    }
    ClearCountAppend(s.log, watched);
    var cleared := r.log[|emptied.log|..];
    assert r.log == emptied.log + cleared;
    ClearCountAppend(emptied.log, cleared);
    if s.clearCallback.Some? {
      assert cleared == [cleared[0]] && cleared[0].Cleared?;
      ClearCountSingle(cleared[0]);
    } else {
      assert cleared == [];
    }
  }

  /** Any pointer event other than a clear tap invokes nothing and leaves
      the text alone. */
  lemma TouchMissChangesNothing(s: State, action: Action, x: int, y: int, layout: Layout)
    requires !ClearTapped(s, action, x, y, layout)
    ensures Touched(s, action, x, y, layout).text == s.text
    ensures ClearCount(Touched(s, action, x, y, layout).log) == ClearCount(s.log)
  {
  }

  /** A plain text edit never invokes the clear callback. */
  lemma {:induction false} EditNeverClears(s: State, text: string, start: int, before: int, after: int)
    ensures ClearCount(Edited(s, text, start, before, after).log) == ClearCount(s.log)
  {
    var r := Edited(s, text, start, before, after);
    var added := r.log[|s.log|..];
    assert r.log == s.log + added;
    ClearCountAppend(s.log, added);
    if added != [] {
      ClearCountSingle(added[0]);
      assert added == [added[0]];
    }
  }
}
