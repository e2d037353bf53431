/**
 * The state of a ClearableEditText and its transitions, as values. Each
 * transition function is the specification that the matching method of
 * Widget.ClearableEditText is proved to implement.
 *
 * Callbacks are foreign code; each invocation is recorded as a `Call` in
 * the log together with the widget's observable state at the moment of the
 * call, which makes the order of forwarding and state update observable.
 */
module FieldState {
  import opened Wrappers
  import opened HitTest

  /** An opaque reference to a registered collaborator (a listener or callback). */
  type Id = nat

  /** Default edge length of the clear icon, in pixels (the field msize). */
  const DefaultIconSize: int := 30

  /** The action of a pointer event; only Up is acted upon. */
  datatype Action = Down | Up | Move | Cancel

  /** Where the clear drawable came from: the bundled delete icon or a resource id. */
  datatype IconSource = BuiltInDelete | Resource(id: int)

  /** The clear drawable and the height of its bounds rectangle. */
  datatype Icon = Icon(source: IconSource, boundsHeight: int)

  /** The widget as a callback sees it: focus, text and icon visibility. */
  datatype Seen = Seen(focused: bool, text: string, iconVisible: bool)

  /** One invocation of a collaborator. */
  datatype Call =
    | FocusForwarded(listener: Id, hasFocus: bool, seen: Seen)
    | TextWatched(watcher: Id, text: string, start: int, lengthBefore: int, lengthAfter: int, seen: Seen)
    | Cleared(callback: Id, seen: Seen)

  datatype State = State(
    clearIcon: Icon,               // mClearDrawable
    iconSize: int,                 // msize
    focused: bool,                 // mIsFocused
    text: string,                  // getText()
    rightDrawable: Option<Icon>,   // getCompoundDrawables()[2]
    textWatcher: Option<Id>,       // mTextWatcherCallback
    clearCallback: Option<Id>,     // mOnClearCallback
    focusListener: Option<Id>,     // mOnFocusChangeListener
    log: seq<Call>)
  {
    /** The clear icon occupies the right compound-drawable slot. */
    predicate IconVisible() { rightDrawable.Some? }

    function Observed(): Seen { Seen(focused, text, IconVisible()) }

    /** The widget's invariant: the icon shows exactly when focused and non-empty. */
    predicate Valid() { IconVisible() == (focused && |text| > 0) }
  }

  /** Everything but the icon slot and the log is as before. */
  predicate SameSettings(s: State, r: State) {
    r.clearIcon == s.clearIcon && r.iconSize == s.iconSize &&
    r.textWatcher == s.textWatcher && r.clearCallback == s.clearCallback &&
    r.focusListener == s.focusListener
  }

  /** The constructed widget: attributes drawable_clear and drawable_size
      (when present) choose the icon and its size, the icon is sized
      size x size, hidden, and no collaborator is registered. */
  function Init(attrIcon: Option<int>, attrSize: Option<int>, text: string): (s: State)
    ensures s.Valid() && !s.IconVisible() && !s.focused && s.text == text
    ensures s.iconSize == (if attrSize.Some? then attrSize.value else DefaultIconSize)
    ensures s.clearIcon.boundsHeight == s.iconSize
    ensures s.clearIcon.source == (if attrIcon.Some? then Resource(attrIcon.value) else BuiltInDelete)
    ensures s.textWatcher == s.clearCallback == s.focusListener == None && s.log == []
  {
    var size := if attrSize.Some? then attrSize.value else DefaultIconSize;
    var source := if attrIcon.Some? then Resource(attrIcon.value) else BuiltInDelete;
    State(Icon(source, size), size, false, text, None, None, None, None, [])
  }

  /** setClearDrawableVisible: put the current clear drawable in the right
      slot, or empty the slot. */
  function ShowClearDrawable(s: State, visible: bool): (r: State)
    ensures r.IconVisible() == visible
    ensures visible ==> r.rightDrawable == Some(s.clearIcon)
    ensures r.(rightDrawable := s.rightDrawable) == s
  {
    s.(rightDrawable := if visible then Some(s.clearIcon) else None)
  }

  /** onFocusChange: the forwarded listener is called first and sees the old
      state; then focus is recorded and visibility recomputed from it. */
  function FocusChanged(s: State, hasFocus: bool): (r: State)
    ensures r.Valid()
    ensures r.focused == hasFocus && r.text == s.text && SameSettings(s, r)
    ensures r.IconVisible() == (hasFocus && |s.text| > 0)
    ensures r.IconVisible() ==> r.rightDrawable == Some(s.clearIcon)
    ensures r.log == s.log + if s.focusListener.Some?
                             then [FocusForwarded(s.focusListener.value, hasFocus, s.Observed())]
                             else []
  {
    var forwarded :=
      if s.focusListener.Some?
      then s.(log := s.log + [FocusForwarded(s.focusListener.value, hasFocus, s.Observed())])
      else s;
    var recorded := forwarded.(focused := hasFocus);
    if hasFocus then ShowClearDrawable(recorded, |recorded.text| > 0)
    else ShowClearDrawable(recorded, false)
  }

  /** onTextChanged: visibility follows `text` only while focused; the
      watcher is notified in every case, with the same four arguments, and
      sees the recomputed visibility. */
  function TextChanged(s: State, text: string, start: int, lengthBefore: int, lengthAfter: int): (r: State)
    ensures r.focused == s.focused && r.text == s.text && SameSettings(s, r)
    ensures !s.focused ==> r.rightDrawable == s.rightDrawable
    ensures s.focused ==> r.IconVisible() == (|text| > 0)
    ensures s.focused && r.IconVisible() ==> r.rightDrawable == Some(s.clearIcon)
    ensures r.log == s.log + if s.textWatcher.Some?
                             then [TextWatched(s.textWatcher.value, text, start, lengthBefore, lengthAfter, r.Observed())]
                             else []
  {
    var recomputed := if s.focused then ShowClearDrawable(s, |text| > 0) else s;
    if recomputed.textWatcher.Some?
    then recomputed.(log := recomputed.log +
           [TextWatched(recomputed.textWatcher.value, text, start, lengthBefore, lengthAfter, recomputed.Observed())])
    else recomputed
  }

  /** The host replaces the text and then delivers onTextChanged with the new text. */
  function Edited(s: State, text: string, start: int, lengthBefore: int, lengthAfter: int): (r: State)
    ensures r.text == text && r.focused == s.focused && SameSettings(s, r)
    ensures s.Valid() ==> r.Valid()
    ensures s.focused ==> r.IconVisible() == (|text| > 0)
    ensures s.focused && r.IconVisible() ==> r.rightDrawable == Some(s.clearIcon)
    ensures !s.focused ==> r.rightDrawable == s.rightDrawable
    ensures r.log == s.log + if s.textWatcher.Some?
                             then [TextWatched(s.textWatcher.value, text, start, lengthBefore, lengthAfter, r.Observed())]
                             else []
  {
    TextChanged(s.(text := text), text, start, lengthBefore, lengthAfter)
  }

  /** Java's `length()` of a string: the number of UTF-16 code units, so a
      character beyond U+FFFF (a surrogate pair) counts as two. */
  function Utf16Length(text: string): (n: nat)
    ensures |text| <= n <= 2 * |text|
    ensures n == |text| <==> forall i :: 0 <= i < |text| ==> text[i] as int <= 0xFFFF
    ensures |text| == 1 ==> n == if text[0] as int > 0xFFFF then 2 else 1
  {
    if text == [] then 0
    else Utf16Length(text[..|text| - 1]) + if text[|text| - 1] as int > 0xFFFF then 2 else 1
  }

  /** The count is additive, so with the one-character case it fixes the
      value for every text: one unit per character, two beyond U+FFFF. */
  lemma {:induction false} Utf16LengthAppend(a: string, b: string)
    ensures Utf16Length(a + b) == Utf16Length(a) + Utf16Length(b)
    decreases |b|
  {
    if b == [] {
      assert a + b == a;
    } else {
      assert (a + b)[..|a + b| - 1] == a + b[..|b| - 1];
      Utf16LengthAppend(a, b[..|b| - 1]);
    }
  }

  /** setText: the host reports a change of the whole text, from offset 0,
      old length replaced by new length. */
  function SetText(s: State, text: string): (r: State)
    ensures r.text == text && r.focused == s.focused && SameSettings(s, r)
    ensures s.Valid() ==> r.Valid()
    ensures s.focused ==> r.IconVisible() == (|text| > 0)
    ensures s.focused && r.IconVisible() ==> r.rightDrawable == Some(s.clearIcon)
    ensures !s.focused ==> r.rightDrawable == s.rightDrawable
    ensures r.log == s.log + if s.textWatcher.Some?
                             then [TextWatched(s.textWatcher.value, text, 0, Utf16Length(s.text), Utf16Length(text), r.Observed())]
                             else []
  {
    Edited(s, text, 0, Utf16Length(s.text), Utf16Length(text))
  }

  /** The guard of the clear action: a pointer-up while the icon is in the
      right slot, strictly inside the rectangle of that icon. */
  predicate ClearTapped(s: State, action: Action, x: int, y: int, layout: Layout)
    ensures ClearTapped(s, action, x, y, layout) ==>
              action == Up && s.IconVisible() && s.rightDrawable.value.boundsHeight >= 2
    ensures s.Valid() && ClearTapped(s, action, x, y, layout) ==> s.focused && |s.text| > 0
  {
    action == Up && s.rightDrawable.Some? &&
    InIconRect(x, y, layout, s.rightDrawable.value.boundsHeight)
  }

  /** A drawable in the slot whose bounds are less than 2 high can never be
      tapped away. This is the case after setClearImageResource, whose
      loaded drawable keeps the loader's bounds, once visibility is refreshed. */
  lemma FlatIconNeverTapped(s: State, action: Action, x: int, y: int, layout: Layout)
    requires s.rightDrawable.Some? && s.rightDrawable.value.boundsHeight < 2
    ensures !ClearTapped(s, action, x, y, layout)
  {
  }

  /** onTouchEvent: a clear tap empties the text (which re-enters
      onTextChanged) and then notifies the clear callback, which sees the
      emptied text; any other event changes nothing. */
  function Touched(s: State, action: Action, x: int, y: int, layout: Layout): (r: State)
    ensures !ClearTapped(s, action, x, y, layout) ==> r == s
    ensures ClearTapped(s, action, x, y, layout) ==>
              r.text == [] && r.focused == s.focused && SameSettings(s, r) &&
              r.log == SetText(s, []).log +
                       if s.clearCallback.Some?
                       then [Cleared(s.clearCallback.value, Seen(s.focused, [], r.IconVisible()))]
                       else []
    ensures s.Valid() ==> r.Valid()
    ensures s.Valid() && ClearTapped(s, action, x, y, layout) ==> !r.IconVisible()
  {
    if ClearTapped(s, action, x, y, layout) then
      var emptied := SetText(s, []);
      if emptied.clearCallback.Some?
      then emptied.(log := emptied.log + [Cleared(emptied.clearCallback.value, emptied.Observed())])
      else emptied
    else s
  }

  /** setTextWatcherCallback: a null callback is ignored; the previous one stays. */
  function WatcherSet(s: State, callback: Option<Id>): (r: State)
    ensures r.textWatcher == (if callback.Some? then callback else s.textWatcher)
    ensures r.(textWatcher := s.textWatcher) == s
  {
    if callback.Some? then s.(textWatcher := callback) else s
  }

  /** setOnClearCallback: stored unconditionally, so null unregisters. */
  function ClearCallbackSet(s: State, callback: Option<Id>): (r: State)
    ensures r.clearCallback == callback
    ensures r.(clearCallback := s.clearCallback) == s
  {
    s.(clearCallback := callback)
  }

  /** setOnFocusChangeListener: only the forwarding target changes; the
      widget stays the host's focus listener. */
  function FocusListenerSet(s: State, listener: Option<Id>): (r: State)
    ensures r.focusListener == listener
    ensures r.(focusListener := s.focusListener) == s
  {
    s.(focusListener := listener)
  }

  /** setClearImageResource: id 0 is ignored; otherwise the loaded drawable
      replaces the clear drawable as it comes from the loader, with bounds of
      height `loadedHeight` (no setBounds call). The slot is not refreshed. */
  function ClearImageSet(s: State, resId: int, loadedHeight: int): (r: State)
    ensures resId == 0 ==> r == s
    ensures resId != 0 ==> r.clearIcon == Icon(Resource(resId), loadedHeight)
    ensures r.(clearIcon := s.clearIcon) == s
  {
    if resId != 0 then s.(clearIcon := Icon(Resource(resId), loadedHeight)) else s
  }
}
