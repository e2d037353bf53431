/**
 * The widget object: the fields ClearableEditText updates in place, and its
 * event handlers and setters as methods. Each method is proved to move the
 * abstract state exactly as the matching FieldState function says; the
 * properties of those functions are proved in FieldState and Events.
 */
module Widget {
  import opened Wrappers
  import opened HitTest
  import opened FieldState

  class ClearableEditText {
    var clearIcon: Icon              // mClearDrawable
    var iconSize: int                // msize
    var textWatcher: Option<Id>      // mTextWatcherCallback
    var clearCallback: Option<Id>    // mOnClearCallback
    var focused: bool                // mIsFocused
    var focusListener: Option<Id>    // mOnFocusChangeListener
    var text: string                 // the host's text buffer
    var rightDrawable: Option<Icon>  // the host's right compound-drawable slot
    ghost var log: seq<Call>         // the callbacks invoked so far, in order

    ghost function Abstract(): State
      reads this
    {
      State(clearIcon, iconSize, focused, text, rightDrawable,
            textWatcher, clearCallback, focusListener, log)
    }

    ghost predicate Valid()
      reads this
    {
      Abstract().Valid()
    }

    /** What a callback invoked now would observe. */
    ghost function Observed(): Seen
      reads this
    {
      Abstract().Observed()
    }

    /** The host has already set the initial text; the attributes give the
        icon and its size, and the widget installs itself as the host's text
        and focus listener. */
    constructor (attrIcon: Option<int>, attrSize: Option<int>, initialText: string)
      ensures Abstract() == Init(attrIcon, attrSize, initialText)
      ensures Valid()
    {
      text := initialText;
      rightDrawable := None;
      textWatcher := None;
      clearCallback := None;
      focusListener := None;
      focused := false;
      log := [];
      var size := DefaultIconSize;
      if attrSize.Some? {
        size := attrSize.value;
      }
      iconSize := size;
      var source := BuiltInDelete;
      if attrIcon.Some? {
        source := Resource(attrIcon.value);
      }
      clearIcon := Icon(source, size);
      new;
      SetClearDrawableVisible(false);
    }

    method SetClearDrawableVisible(isVisible: bool)
      modifies this`rightDrawable
      ensures Abstract() == ShowClearDrawable(old(Abstract()), isVisible)
    {
      rightDrawable := if isVisible then Some(clearIcon) else None;
    }

    method SetClearImageResource(resId: int, loadedHeight: int)
      modifies this`clearIcon
      ensures Abstract() == ClearImageSet(old(Abstract()), resId, loadedHeight)
      ensures old(Valid()) ==> Valid()
    {
      if resId != 0 {
        clearIcon := Icon(Resource(resId), loadedHeight);
      }
    }

    method SetTextWatcherCallback(callback: Option<Id>)
      modifies this`textWatcher
      ensures Abstract() == WatcherSet(old(Abstract()), callback)
      ensures old(Valid()) ==> Valid()
    {
      if callback.Some? {
        textWatcher := callback;
      }
    }

    method SetOnClearCallback(callback: Option<Id>)
      modifies this`clearCallback
      ensures Abstract() == ClearCallbackSet(old(Abstract()), callback)
      ensures old(Valid()) ==> Valid()
    {
      clearCallback := callback;
    }

    method SetOnFocusChangeListener(listener: Option<Id>)
      modifies this`focusListener
      ensures Abstract() == FocusListenerSet(old(Abstract()), listener)
      ensures old(Valid()) ==> Valid()
    {
      focusListener := listener;
    }

    method OnFocusChange(hasFocus: bool)
      modifies this
      ensures Abstract() == FocusChanged(old(Abstract()), hasFocus)
      ensures old(Valid()) ==> Valid()
    {
      if focusListener.Some? {
        log := log + [FocusForwarded(focusListener.value, hasFocus, Observed())];
      }
      focused := hasFocus;
      if hasFocus {
        SetClearDrawableVisible(|text| > 0);
      } else {
        SetClearDrawableVisible(false);
      }
    }

    method OnTextChanged(changed: string, start: int, lengthBefore: int, lengthAfter: int)
      modifies this
      ensures Abstract() == TextChanged(old(Abstract()), changed, start, lengthBefore, lengthAfter)
    {
      if focused {
        SetClearDrawableVisible(|changed| > 0);
      }
      if textWatcher.Some? {
        log := log + [TextWatched(textWatcher.value, changed, start, lengthBefore, lengthAfter, Observed())];
      }
    }

    /** A host edit: the buffer changes, then onTextChanged is delivered. */
    method Edit(newText: string, start: int, lengthBefore: int, lengthAfter: int)
      modifies this
      ensures Abstract() == Edited(old(Abstract()), newText, start, lengthBefore, lengthAfter)
      ensures old(Valid()) ==> Valid()
    {
      text := newText;
      OnTextChanged(newText, start, lengthBefore, lengthAfter);
    }

    /** The host's setText: the whole text is replaced from offset 0. */
    method SetText(newText: string)
      modifies this
      ensures Abstract() == FieldState.SetText(old(Abstract()), newText)
      ensures old(Valid()) ==> Valid()
    {
      Edit(newText, 0, Utf16Length(text), Utf16Length(newText));
    }

    /** onTouchEvent, up to the pass-through to the host's own handling. */
    method OnTouchEvent(action: Action, x: int, y: int, layout: Layout)
      modifies this
      ensures Abstract() == Touched(old(Abstract()), action, x, y, layout)
      ensures old(Valid()) ==> Valid()
    {
      if action == Up {
        if rightDrawable.Some? {
          var height := rightDrawable.value.boundsHeight;
          var leftBound := layout.width - layout.totalPaddingRight;
          var rightBound := layout.width - layout.paddingRight;
          var isInnerWidth := x > leftBound && x < rightBound;
          var distance := TruncHalf(layout.height - height);
          var isInnerHeight := y > distance && y < distance + height;
          if isInnerWidth && isInnerHeight {
            SetText([]);
            if clearCallback.Some? {
              log := log + [Cleared(clearCallback.value, Observed())];
            }
          }
        }
      }
    }
  }

  /** The log after registering the callbacks, focusing with empty text,
      typing "a", blurring and refocusing. */
  function TypedLog(): seq<Call> {
    [TextWatched(1, "a", 0, 0, 1, Seen(true, "a", true)),
     FocusForwarded(3, false, Seen(true, "a", true)),
     FocusForwarded(3, true, Seen(false, "a", false))]
  }

  /** A widget's life driven through the object, up to the tap: register the
      callbacks, focus with empty text, type "a", blur, refocus. */
  method TypeAndRefocus() returns (w: ClearableEditText)
    ensures fresh(w)
    ensures w.text == "a" && w.focused && w.rightDrawable == Some(Icon(BuiltInDelete, 30))
    ensures w.textWatcher == Some(1) && w.clearCallback == Some(2) && w.focusListener == Some(3)
    ensures w.log == TypedLog()
  {
    w := new ClearableEditText(None, None, []);
    w.SetTextWatcherCallback(Some(1));
    w.SetOnClearCallback(Some(2));
    w.OnFocusChange(true);
    assert w.rightDrawable == None && w.log == [];
    w.SetOnFocusChangeListener(Some(3));
    w.Edit("a", 0, 0, 1);
    assert w.rightDrawable.Some? && w.text == "a";
    assert w.log == [TextWatched(1, "a", 0, 0, 1, Seen(true, "a", true))];
    w.OnFocusChange(false);
    assert w.rightDrawable == None && !w.focused;
    assert w.log[1..] == [FocusForwarded(3, false, Seen(true, "a", true))];
    w.OnFocusChange(true);
    assert w.log[2..] == [FocusForwarded(3, true, Seen(false, "a", false))];
  }

  /** The same widget then taps inside the icon: the text is emptied, the
      icon hidden, the watcher told of the change and then the clear
      callback called, seeing the empty text. */
  method Scenario() returns (w: ClearableEditText)
    ensures w.text == [] && w.focused && w.rightDrawable == None
    ensures w.log == TypedLog() + [
      TextWatched(1, [], 0, 1, 0, Seen(true, [], false)),
      Cleared(2, Seen(true, [], false))]
  {
    w := TypeAndRefocus();
    var layout := Layout(200, 50, 40, 8);
    // the icon is 30 high, so its band is 10 < y < 40, and 160 < x < 192
    assert InIconRect(170, 25, layout, 30);
    assert Utf16Length("a") == 1;
    w.OnTouchEvent(Up, 170, 25, layout);
  }
}
