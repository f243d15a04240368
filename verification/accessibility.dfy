/** The two keyboard rules of src/hooks/useAccessibility.ts: when a registered
    shortcut fires, and how the focus trap wraps Tab at the ends of its
    container. The DOM is reduced to the focusable elements and the focused one. */
module Accessibility {
  import opened Optional
  import opened Ascii

  datatype KeyEvent = KeyEvent(key: string, ctrlKey: bool, metaKey: bool, shiftKey: bool, altKey: bool)

  /** The options object; an omitted flag is `false`. */
  datatype ShortcutOptions = ShortcutOptions(ctrl: bool, shift: bool, alt: bool)

  /** With `ctrl` requested Ctrl or Meta will do; otherwise Ctrl must be up and
      Meta is not looked at. */
  predicate CtrlMatches(options: ShortcutOptions, e: KeyEvent) {
    if options.ctrl then e.ctrlKey || e.metaKey else !e.ctrlKey
  }

  /** `handleKeyDown` of `useKeyboardShortcut`: does the callback run? */
  function ShortcutFires(key: string, options: ShortcutOptions, e: KeyEvent): (r: bool)
    ensures r ==> Lower(e.key) == Lower(key) && |e.key| == |key|
    ensures r ==> e.shiftKey == options.shift && e.altKey == options.alt
    ensures r && !options.ctrl ==> !e.ctrlKey
    ensures r && options.ctrl ==> e.ctrlKey || e.metaKey
  {
    && Lower(e.key) == Lower(key)
    && CtrlMatches(options, e)
    && (if options.shift then e.shiftKey else !e.shiftKey)
    && (if options.alt then e.altKey else !e.altKey)
  }

  /** Pressing the registered key with exactly the requested modifiers, Meta
      up, runs the callback. */
  lemma ExactComboFires(key: string, options: ShortcutOptions)
    ensures ShortcutFires(key, options, KeyEvent(key, options.ctrl, false, options.shift, options.alt))
  {
  }

  /** The key is compared without regard to case, on either side. */
  lemma ShortcutIgnoresCase(key: string, key': string, options: ShortcutOptions, e: KeyEvent, eventKey': string)
    requires Lower(key) == Lower(key') && Lower(e.key) == Lower(eventKey')
    ensures ShortcutFires(key, options, e) == ShortcutFires(key', options, e.(key := eventKey'))
  {
  }

  /** Meta stands in for Ctrl when Ctrl is requested, and is ignored otherwise. */
  lemma MetaActsAsCtrl(key: string, options: ShortcutOptions, e: KeyEvent)
    ensures options.ctrl ==> ShortcutFires(key, options, e.(ctrlKey := false, metaKey := true)) == ShortcutFires(key, options, e.(ctrlKey := true))
    ensures !options.ctrl ==> ShortcutFires(key, options, e.(metaKey := true)) == ShortcutFires(key, options, e.(metaKey := false))
  {
  }

  /** Apart from Meta, a pressed combination fires shortcuts registered with
      one set of options only. */
  lemma OptionsDeterminedWithoutMeta(key: string, o1: ShortcutOptions, o2: ShortcutOptions, e: KeyEvent)
    requires !e.metaKey
    requires ShortcutFires(key, o1, e) && ShortcutFires(key, o2, e)
    ensures o1 == o2
  {
  }

  /** Meta alone fires both the plain and the Ctrl shortcut of a key. */
  lemma MetaFiresPlainAndCtrl(key: string, shift: bool, alt: bool)
    ensures var e := KeyEvent(key, false, true, shift, alt);
            && ShortcutFires(key, ShortcutOptions(false, shift, alt), e)
            && ShortcutFires(key, ShortcutOptions(true, shift, alt), e)
  {
  }

  // ---------------------------------------------------------------------------
  // Focus trap

  /** What the trap does with a keydown: nothing, or `preventDefault` and move
      focus to `target`. */
  datatype TrapAction<E> = NoAction | MoveFocus(target: E)

  /** `handleKeyDown` of `useFocusTrap`. `focusables` is the container's
      focusable elements in document order (`None` when the ref is unset) and
      `focused` is `document.activeElement`. With no focusable element the
      first and last elements are `undefined`, which the focused element never
      equals. */
  function TrapKeyDown<E(==)>(isActive: bool, focusables: Option<seq<E>>, focused: Option<E>, key: string, shift: bool): (r: TrapAction<E>)
    ensures !isActive || focusables.None? || key != "Tab" ==> r == NoAction
    ensures r.MoveFocus? ==> r.target in focusables.value
    ensures r.MoveFocus? ==>
              var els := focusables.value;
              && key == "Tab" && |els| > 0
              && (shift ==> focused == Some(els[0]) && r.target == els[|els| - 1])
              && (!shift ==> focused == Some(els[|els| - 1]) && r.target == els[0])
    ensures isActive && focusables.Some? && key == "Tab" && |focusables.value| > 0 ==>
              var els := focusables.value;
              && (shift && focused == Some(els[0]) ==> r == MoveFocus(els[|els| - 1]))
              && (!shift && focused == Some(els[|els| - 1]) ==> r == MoveFocus(els[0]))
  {
    if !isActive || focusables.None? then NoAction
    else
      var els := focusables.value;
      if key != "Tab" || |els| == 0 then NoAction
      else if shift && focused == Some(els[0]) then MoveFocus(els[|els| - 1])
      else if !shift && focused == Some(els[|els| - 1]) then MoveFocus(els[0])
      else NoAction
  }

  /** Where the browser's own Tab handling moves focus from position `i` of the
      container: the next or previous focusable element, or out of the
      container (`None`) past either end. */
  function BrowserTab<E>(els: seq<E>, i: nat, shift: bool): (r: Option<E>)
    requires i < |els|
    ensures r.Some? ==> r.value in els
  {
    if shift then (if i == 0 then None else Some(els[i - 1]))
    else if i == |els| - 1 then None else Some(els[i + 1])
  }

  /** Where focus ends up after Tab or Shift+Tab on position `i`: the trap's
      move when it intervenes, otherwise the browser's. */
  function FocusAfterTab<E(==)>(els: seq<E>, i: nat, shift: bool): Option<E>
    requires i < |els|
  {
    match TrapKeyDown(true, Some(els), Some(els[i]), "Tab", shift)
    case MoveFocus(target) => Some(target)
    case NoAction => BrowserTab(els, i, shift)
  }

  predicate Distinct<E(==)>(els: seq<E>) {
    forall i, j :: 0 <= i < j < |els| ==> els[i] != els[j]
  }

  /** With the trap active, Tab and Shift+Tab cycle through the container's
      focusable elements and never leave it. */
  lemma TrapMakesTabCyclic<E>(els: seq<E>, i: nat)
    requires Distinct(els) && i < |els|
    ensures FocusAfterTab(els, i, false) == Some(els[(i + 1) % |els|])
    ensures FocusAfterTab(els, i, true) == Some(els[(i + |els| - 1) % |els|])
  {
    TabForward(els, i);
    TabBackward(els, i);
  }

  lemma TabForward<E>(els: seq<E>, i: nat)
    requires Distinct(els) && i < |els|
    ensures FocusAfterTab(els, i, false) == Some(els[(i + 1) % |els|])
  {
  }

  lemma TabBackward<E>(els: seq<E>, i: nat)
    requires Distinct(els) && i < |els|
    ensures FocusAfterTab(els, i, true) == Some(els[(i + |els| - 1) % |els|])
  {
  }

  /** Wrapping forward from the last element and back again returns to it. */
  lemma TrapWrapRoundTrip<E>(els: seq<E>)
    requires |els| > 0
    ensures var forward := TrapKeyDown(true, Some(els), Some(els[|els| - 1]), "Tab", false);
            && forward == MoveFocus(els[0])
            && TrapKeyDown(true, Some(els), Some(forward.target), "Tab", true) == MoveFocus(els[|els| - 1])
  {
  }
}
