# ClearableEditText, modelled in Dafny

`ClearableEditText` is an Android text field that shows a clear icon (an "x")
in its right compound-drawable slot while it is focused and holds text, and
empties itself when a pointer-up lands on that icon. This project models its
logic with the Android framework abstracted away:

- `HitTest` — the integer rectangle test of `onTouchEvent`, with Java's
  truncating `/` written out (`TruncHalf`).
- `FieldState` — the widget's state as a value (`State`: icon, icon size,
  focus flag, text, right slot, the three optional collaborators and a log of
  callback invocations) and one transition function per handler and setter.
  These functions are the specification of the class below.
- `Events` — any sequence of host events and setter calls (`Run`), with the
  properties that hold after all of them: the visibility invariant, an
  append-only log, the order in which callbacks see the widget, and that a
  clear tap calls the clear callback exactly once.
- `Widget.ClearableEditText` — a class with the source's fields, updated in
  place by methods that follow the source statement by statement. Each
  method is proved to move `Abstract()` exactly as its `FieldState` function
  says.

Modelling choices:

- The right compound-drawable slot is an `Option<Icon>`; "icon visible" is
  `rightDrawable.Some?`. A slot holding a drawable is kept, not just a flag,
  because the hit test reads the height of the drawable in the slot, and
  after `setClearImageResource` that can differ from `mClearDrawable` until
  visibility is recomputed.
- Collaborators are `Option<Id>`. Each invocation appends a `Call` to a log
  (a ghost field of the class). The `Call` records the arguments and what
  the widget looked like at that moment (`Seen`: focus, text, visibility).
  This makes the order observable: the forwarded focus listener sees the
  state before the update, and the clear callback sees the emptied text.
- The clear callback's argument is always the widget itself, so `Cleared`
  does not record it.
- The host's text buffer is the field `text`. A host edit (`Edit`) sets it,
  then delivers `onTextChanged`. `setText` is such an edit with the
  arguments `(0, old length, new length)`; that is the Android text-view
  convention. The lengths are Java `length()` values, counted in UTF-16
  code units (`Utf16Length`): a character outside the Basic Multilingual
  Plane counts twice.
- `setClearImageResource` installs the loaded drawable without calling
  `setBounds`. The model therefore takes the height of the loaded drawable's
  bounds as a parameter (`loadedHeight`). It does not give that drawable the
  `msize` x `msize` bounds of the constructor (line 81). Android gives a freshly
  loaded drawable empty bounds, so in the program `loadedHeight` is 0. Once
  the slot shows that drawable, no tap can clear the field
  (`FlatIconNeverTapped`).
- Focus forwarding follows the code: the external focus listener is called
  before `mIsFocused` is recorded (lines 99-102).

## Model

| member | source | states |
|---|---|---|
| `HitTest.TruncHalf` | clearableedittext/src/main/java/com/xkeshi/cashierdesk/clearableedittext/ClearableEditText.java:127 | Java's `n / 2`: the remainder `n - 2h` is 0 or has the sign of `n` and magnitude 1 (rounding toward zero) |
| `HitTest.InIconRect` | clearableedittext/src/main/java/com/xkeshi/cashierdesk/clearableedittext/ClearableEditText.java:120-128 | a hit lies strictly inside both bounds, never on an edge, and needs an icon at least 2 high and a column at least 2 wide |
| `HitTest.BandCentered` | clearableedittext/src/main/java/com/xkeshi/cashierdesk/clearableedittext/ClearableEditText.java:121-128 | the hit band of height `iconHeight` is vertically centred: gaps above and below differ by at most one pixel |
| `HitTest.RoomAdmitsHit` | clearableedittext/src/main/java/com/xkeshi/cashierdesk/clearableedittext/ClearableEditText.java:123-129 | with room for one pixel in each direction (icon at least 2 high, column at least 2 wide) the pixel inside the top-left corner is a hit; with `InIconRect`'s contract, a hit exists exactly when there is that room |
| `HitTest.TruncationMatters` | clearableedittext/src/main/java/com/xkeshi/cashierdesk/clearableedittext/ClearableEditText.java:127-128 | with a view 3 pixels shorter than the icon, truncation gives top edge -1 where rounding down gives -2, so row -1 is a miss and row 0 a hit |
| `FieldState.Init` | clearableedittext/src/main/java/com/xkeshi/cashierdesk/clearableedittext/ClearableEditText.java:33-85 | the constructed widget is valid, unfocused, icon hidden, no collaborators, empty log; the icon is the attribute's or the built-in one, sized by the attribute or 30 |
| `FieldState.ShowClearDrawable` | clearableedittext/src/main/java/com/xkeshi/cashierdesk/clearableedittext/ClearableEditText.java:87-90 | the slot holds the current clear drawable exactly when asked to be visible; nothing else changes |
| `FieldState.FocusChanged` | clearableedittext/src/main/java/com/xkeshi/cashierdesk/clearableedittext/ClearableEditText.java:97-108 | afterwards the invariant holds; visible iff focus gained and text non-empty (losing focus always hides); the listener, if any, is called once with `hasFocus` and sees the old state |
| `FieldState.TextChanged` | clearableedittext/src/main/java/com/xkeshi/cashierdesk/clearableedittext/ClearableEditText.java:140-148 | unfocused: slot unchanged; focused: visible iff the text is non-empty; the watcher, if any, gets exactly the four arguments, in every case |
| `FieldState.Edited` | clearableedittext/src/main/java/com/xkeshi/cashierdesk/clearableedittext/ClearableEditText.java:141-147 | a host edit keeps the invariant and notifies the watcher with the new text |
| `FieldState.Utf16Length` | clearableedittext/src/main/java/com/xkeshi/cashierdesk/clearableedittext/ClearableEditText.java:130 | Java `length()`: between the number of characters and twice it, equal to it exactly when no character lies beyond U+FFFF, and 1 or 2 for a single character |
| `FieldState.Utf16LengthAppend` | clearableedittext/src/main/java/com/xkeshi/cashierdesk/clearableedittext/ClearableEditText.java:130 | the count adds over concatenation, so it is one unit per character and two per character beyond U+FFFF |
| `FieldState.SetText` | clearableedittext/src/main/java/com/xkeshi/cashierdesk/clearableedittext/ClearableEditText.java:130 | `setText` replaces the text, keeps the invariant and notifies the watcher with `(text, 0, old length, new length)`, lengths in UTF-16 code units |
| `FieldState.ClearTapped` | clearableedittext/src/main/java/com/xkeshi/cashierdesk/clearableedittext/ClearableEditText.java:115-129 | a clear tap needs a pointer-up with the icon in the slot and inside its rectangle; on a valid widget that means focused with non-empty text |
| `FieldState.FlatIconNeverTapped` | clearableedittext/src/main/java/com/xkeshi/cashierdesk/clearableedittext/ClearableEditText.java:45-49 | a slot drawable less than 2 high (as a drawable loaded by `setClearImageResource` without `setBounds` is) can never be tapped |
| `FieldState.Touched` | clearableedittext/src/main/java/com/xkeshi/cashierdesk/clearableedittext/ClearableEditText.java:113-138 | a clear tap empties the text, logs the watcher call, then the clear callback (seeing the empty text), and hides the icon; anything else changes nothing |
| `FieldState.WatcherSet` | clearableedittext/src/main/java/com/xkeshi/cashierdesk/clearableedittext/ClearableEditText.java:56-60 | a null watcher keeps the previous one; a non-null one replaces it; nothing else changes |
| `FieldState.ClearCallbackSet` | clearableedittext/src/main/java/com/xkeshi/cashierdesk/clearableedittext/ClearableEditText.java:183-185 | the clear callback becomes the argument, so null unregisters; nothing else changes |
| `FieldState.FocusListenerSet` | clearableedittext/src/main/java/com/xkeshi/cashierdesk/clearableedittext/ClearableEditText.java:92-95 | only the forwarding target changes |
| `FieldState.ClearImageSet` | clearableedittext/src/main/java/com/xkeshi/cashierdesk/clearableedittext/ClearableEditText.java:45-49 | resource id 0 leaves the state unchanged; otherwise only the clear drawable changes (the slot is not refreshed) |
| `Events.Apply` | clearableedittext/src/main/java/com/xkeshi/cashierdesk/clearableedittext/ClearableEditText.java:45-148 | every event or setter keeps the invariant and only appends to the log |
| `Events.RunKeepsValid` | clearableedittext/src/main/java/com/xkeshi/cashierdesk/clearableedittext/ClearableEditText.java:82-144 | after any sequence of events from a valid state, visible iff focused and text non-empty |
| `Events.ConstructedStaysValid` | clearableedittext/src/main/java/com/xkeshi/cashierdesk/clearableedittext/ClearableEditText.java:70-144 | the invariant holds after any sequence of events starting from the constructed widget |
| `Events.RunExtendsLog` | clearableedittext/src/main/java/com/xkeshi/cashierdesk/clearableedittext/ClearableEditText.java:99-147 | callback invocations are only ever appended |
| `Events.ApplyKeepsWellOrdered` | clearableedittext/src/main/java/com/xkeshi/cashierdesk/clearableedittext/ClearableEditText.java:99-147 | one event keeps every logged call well ordered: watchers see the new text and the recomputed visibility, the clear callback sees empty text and a hidden icon |
| `Events.RunKeepsWellOrdered` | clearableedittext/src/main/java/com/xkeshi/cashierdesk/clearableedittext/ClearableEditText.java:99-147 | the same after any sequence of events |
| `Events.TouchClearsOnce` | clearableedittext/src/main/java/com/xkeshi/cashierdesk/clearableedittext/ClearableEditText.java:129-134 | a clear tap calls the clear callback exactly once if one is registered, and never otherwise |
| `Events.TouchMissChangesNothing` | clearableedittext/src/main/java/com/xkeshi/cashierdesk/clearableedittext/ClearableEditText.java:115-129 | a pointer event that is not a clear tap leaves the text unchanged and calls no clear callback |
| `Events.EditNeverClears` | clearableedittext/src/main/java/com/xkeshi/cashierdesk/clearableedittext/ClearableEditText.java:141-147 | a text edit never calls the clear callback |
| `Widget.ClearableEditText.constructor` | clearableedittext/src/main/java/com/xkeshi/cashierdesk/clearableedittext/ClearableEditText.java:70-85 | the new object's state is `Init` of its attributes and text, hence valid |
| `Widget.ClearableEditText.SetClearDrawableVisible` | clearableedittext/src/main/java/com/xkeshi/cashierdesk/clearableedittext/ClearableEditText.java:87-90 | only the right slot changes, as `ShowClearDrawable` says |
| `Widget.ClearableEditText.SetClearImageResource` | clearableedittext/src/main/java/com/xkeshi/cashierdesk/clearableedittext/ClearableEditText.java:45-49 | the new state is `ClearImageSet` of the old; a valid object stays valid |
| `Widget.ClearableEditText.SetTextWatcherCallback` | clearableedittext/src/main/java/com/xkeshi/cashierdesk/clearableedittext/ClearableEditText.java:56-60 | the new state is `WatcherSet` of the old (null ignored); a valid object stays valid |
| `Widget.ClearableEditText.SetOnClearCallback` | clearableedittext/src/main/java/com/xkeshi/cashierdesk/clearableedittext/ClearableEditText.java:183-185 | the new state is `ClearCallbackSet` of the old (null clears); a valid object stays valid |
| `Widget.ClearableEditText.SetOnFocusChangeListener` | clearableedittext/src/main/java/com/xkeshi/cashierdesk/clearableedittext/ClearableEditText.java:92-95 | the new state is `FocusListenerSet` of the old; a valid object stays valid |
| `Widget.ClearableEditText.OnFocusChange` | clearableedittext/src/main/java/com/xkeshi/cashierdesk/clearableedittext/ClearableEditText.java:97-108 | forwarding, then recording focus, then recomputing visibility yields `FocusChanged` of the old state; a valid object stays valid |
| `Widget.ClearableEditText.OnTextChanged` | clearableedittext/src/main/java/com/xkeshi/cashierdesk/clearableedittext/ClearableEditText.java:140-148 | the new state is `TextChanged` of the old |
| `Widget.ClearableEditText.Edit` | clearableedittext/src/main/java/com/xkeshi/cashierdesk/clearableedittext/ClearableEditText.java:141-147 | a host edit followed by `onTextChanged` yields `Edited` of the old state; a valid object stays valid |
| `Widget.ClearableEditText.SetText` | clearableedittext/src/main/java/com/xkeshi/cashierdesk/clearableedittext/ClearableEditText.java:130 | the new state is `FieldState.SetText` of the old; a valid object stays valid |
| `Widget.ClearableEditText.OnTouchEvent` | clearableedittext/src/main/java/com/xkeshi/cashierdesk/clearableedittext/ClearableEditText.java:113-136 | the statement-by-statement hit test and clear yield `Touched` of the old state; a valid object stays valid |
| `Widget.TypeAndRefocus` | clearableedittext/src/main/java/com/xkeshi/cashierdesk/clearableedittext/ClearableEditText.java:97-147 | register callbacks, focus on empty text, type "a", blur, refocus: text "a", icon shown, and the exact log of watcher and listener calls |
| `Widget.Scenario` | clearableedittext/src/main/java/com/xkeshi/cashierdesk/clearableedittext/ClearableEditText.java:113-136 | after `TypeAndRefocus`, a tap inside the icon empties the text, hides the icon, logs the watcher call `("", 0, 1, 0)` and then the clear call, which sees the empty text |

## Left out

- Attribute parsing with `TypedArray` and `recycle` (lines 72-75). The attributes arrive as `Option` parameters of the constructor, with the size already truncated to an int.
- Drawable loading through `getResources().getDrawable` (lines 47, 78). A drawable is its source and the height of its bounds.
- Drawing: `setBounds` widths and `setCompoundDrawables`' effect on layout (lines 81, 88-89). Only the right slot's content is kept; the other three slots are never touched by the widget.
- Float pointer coordinates and their casts (lines 117-118). `x` and `y` are ints already.
- The pass-through to `super.onTouchEvent` and its boolean result (line 137). This is framework input handling.
- `finalize` (lines 187-191). This is garbage-collector-driven release of the drawable.
- The empty `beforeTextChanged` and `afterTextChanged` (lines 150-156).
- Callback bodies. They are foreign code, recorded only as log entries; re-entry from a callback into the widget is not modelled.
- How often the host delivers `onTextChanged`. The method both overrides the text view's own protected hook (line 140) and is registered as a text watcher (line 83). Android's `setText` and its edit handling call both, so the method, and with it the watcher, runs twice on every change. The model delivers it once per edit: each `TextWatched` entry in a log, including those of `Widget.TypeAndRefocus` and `Widget.Scenario`, stands for two identical calls in the program.
- 32-bit overflow of the int arithmetic in the hit test (lines 123-128). View sizes and paddings are small non-negative values, so the model uses unbounded integers.
