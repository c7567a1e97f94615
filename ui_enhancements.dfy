/**
 * src/uiEnhancements.js: the back-to-top button with its throttled scroll listener and
 * deferred hide, Ctrl+Arrow stepping between detail sections, the Escape branch of the
 * keyboard listener, and the keyboard-focus class toggle.
 */
module UiEnhancements {
  import opened Common
  import PortalSpec

  // ---------------------------------------------------------------------------
  // Back-to-top button
  // ---------------------------------------------------------------------------

  const ShowThreshold: real := 300.0
  const ButtonClass := "back-to-top"
  const VisibleClass := "visible"

  /** A callback handed to the browser: the throttled frame running `toggleBackToTop`, or the 300 ms deferred hide. */
  datatype ButtonTask = ToggleFrame | HideTimer

  /** The button's `style.display` and class list, the `scrollTicking` flag and the callbacks not yet run. */
  datatype ButtonState = ButtonState(display: string, classes: set<string>, scrollTicking: bool, pending: seq<ButtonTask>)

  /** The button as created: hidden, not visible, nothing pending. */
  function InitialButton(): ButtonState {
    ButtonState("none", {ButtonClass}, false, [])
  }

  /** The scroll listener: queue one frame unless one is already queued. */
  function OnScroll(s: ButtonState): ButtonState {
    if !s.scrollTicking then s.(pending := s.pending + [ToggleFrame], scrollTicking := true) else s
  }

  /** `toggleBackToTop` with the scroll offset read when the frame runs. */
  function Toggle(s: ButtonState, scrollY: real): ButtonState {
    var s1 :=
      if scrollY > ShowThreshold then s.(display := "flex", classes := s.classes + {VisibleClass})
      else s.(classes := s.classes - {VisibleClass}, pending := s.pending + [HideTimer]);
    s1.(scrollTicking := false)
  }

  /** The deferred hide: hide the button only if it is still not visible. */
  function Hide(s: ButtonState): ButtonState {
    if VisibleClass !in s.classes then s.(display := "none") else s
  }

  /** Run the pending callback at position `i`; `scrollY` is the offset at that moment. */
  function FireButton(s: ButtonState, i: nat, scrollY: real): ButtonState
    requires i < |s.pending|
  {
    var s1 := s.(pending := RemoveAt(s.pending, i));
    match s.pending[i]
    case ToggleFrame => Toggle(s1, scrollY)
    case HideTimer => Hide(s1)
  }

  /**
   * The invariant: a visible button is displayed, display is one of the two values the
   * code writes, and the `scrollTicking` flag is set exactly while one frame, and never
   * more than one, is queued.
   */
  ghost predicate ButtonValid(s: ButtonState) {
    && ButtonClass in s.classes
    && (VisibleClass in s.classes ==> s.display == "flex")
    && (s.display == "none" || s.display == "flex")
    && (s.scrollTicking <==> ToggleFrame in s.pending)
    && Count(s.pending, ToggleFrame) <= 1
  }

  lemma InitialButtonValid()
    ensures ButtonValid(InitialButton())
    ensures InitialButton().display == "none" && VisibleClass !in InitialButton().classes
    ensures InitialButton().pending == [] && !InitialButton().scrollTicking
  {
  }

  /**
   * The throttle: a scroll while a frame is queued changes nothing; otherwise exactly one
   * frame is added. Either way at most one is pending.
   */
  lemma OnScrollThrottles(s: ButtonState)
    requires ButtonValid(s)
    ensures ButtonValid(OnScroll(s))
    ensures s.scrollTicking ==> OnScroll(s) == s
    ensures !s.scrollTicking ==> OnScroll(s).pending == s.pending + [ToggleFrame]
    ensures Count(OnScroll(s).pending, ToggleFrame) == 1
  {
    if !s.scrollTicking {
      CountAppend(s.pending, [ToggleFrame], ToggleFrame);
    }
  }

  lemma FireButtonValid(s: ButtonState, i: nat, scrollY: real)
    requires ButtonValid(s)
    requires i < |s.pending|
    ensures ButtonValid(FireButton(s, i, scrollY))
  {
    var rest := RemoveAt(s.pending, i);
    CountRemoveAt(s.pending, i, ToggleFrame);
    CountAppend(rest, [HideTimer], ToggleFrame);
    if s.pending[i] == ToggleFrame {
      assert Count(rest, ToggleFrame) == 0;
    } else {
      assert Count(rest, ToggleFrame) == Count(s.pending, ToggleFrame);
    }
  }

  /**
   * Past 300 the frame shows the button; at 300 or less it takes `visible` away and queues
   * a hide, leaving display as it was for now. Either way it clears `scrollTicking`.
   */
  lemma ToggleEffect(s: ButtonState, i: nat, scrollY: real)
    requires i < |s.pending| && s.pending[i] == ToggleFrame
    ensures var s' := FireButton(s, i, scrollY);
      && !s'.scrollTicking
      && (scrollY > ShowThreshold ==>
            s'.display == "flex" && VisibleClass in s'.classes && s'.pending == RemoveAt(s.pending, i))
      && (scrollY <= ShowThreshold ==>
            s'.display == s.display && VisibleClass !in s'.classes
            && s'.pending == RemoveAt(s.pending, i) + [HideTimer])
  {
  }

  /** The deferred hide re-checks the class: it hides only a button that is still not visible. */
  lemma HideRechecks(s: ButtonState, i: nat, scrollY: real)
    requires i < |s.pending| && s.pending[i] == HideTimer
    ensures VisibleClass in s.classes ==> FireButton(s, i, scrollY).display == s.display
    ensures VisibleClass !in s.classes ==> FireButton(s, i, scrollY).display == "none"
    ensures FireButton(s, i, scrollY).classes == s.classes
  {
  }

  /**
   * Scrolling back past 300 before a queued hide runs wins: the hide finds the button
   * visible and leaves it displayed.
   */
  lemma ReshowWins(s: ButtonState, up: real, down: real)
    requires ButtonValid(s) && !s.scrollTicking
    requires up <= ShowThreshold < down
    ensures var s1 := FireButton(OnScroll(s), |s.pending|, up);
      && s1.pending[|s1.pending| - 1] == HideTimer
      && var s2 := FireButton(OnScroll(s1), |s1.pending|, down);
      && s2.pending[|s2.pending| - 1] == HideTimer
      && var s3 := FireButton(s2, |s2.pending| - 1, 0.0);
      && s3.display == "flex"
      && VisibleClass in s3.classes
  {
    var s1 := FireButton(OnScroll(s), |s.pending|, up);
    assert RemoveAt(s.pending + [ToggleFrame], |s.pending|) == s.pending;
    var s2 := FireButton(OnScroll(s1), |s1.pending|, down);
    assert RemoveAt(s1.pending + [ToggleFrame], |s1.pending|) == s1.pending;
  }

  /** The back-to-top button of `initUIEnhancements`, updated in place by its listener and callbacks. */
  class BackToTopButton {
    var display: string
    var classes: set<string>
    var scrollTicking: bool
    var pending: seq<ButtonTask>

    function Snapshot(): ButtonState
      reads this
    {
      ButtonState(display, classes, scrollTicking, pending)
    }

    /** Created hidden, with `scrollTicking` false. */
    constructor ()
      ensures Snapshot() == InitialButton()
    {
      classes := {ButtonClass};
      display := "none";
      scrollTicking := false;
      pending := [];
    }

    method HandleScroll()
      modifies this
      ensures Snapshot() == OnScroll(old(Snapshot()))
    {
      if !scrollTicking {
        pending := pending + [ToggleFrame];
        scrollTicking := true;
      }
    }

    method ToggleBackToTop(scrollY: real)
      modifies this
      ensures Snapshot() == Toggle(old(Snapshot()), scrollY)
    {
      if scrollY > ShowThreshold {
        display := "flex";
        classes := classes + {VisibleClass};
      } else {
        classes := classes - {VisibleClass};
        pending := pending + [HideTimer];
      }
      scrollTicking := false;
    }

    method RunCallback(i: nat, scrollY: real)
      requires i < |pending|
      modifies this
      ensures Snapshot() == FireButton(old(Snapshot()), i, scrollY)
    {
      var task := pending[i];
      pending := RemoveAt(pending, i);
      match task
      case ToggleFrame =>
        ToggleBackToTop(scrollY);
      case HideTimer =>
        if VisibleClass !in classes {
          display := "none";
        }
    }
  }

  // ---------------------------------------------------------------------------
  // Ctrl+ArrowUp / Ctrl+ArrowDown between detail sections
  // ---------------------------------------------------------------------------

  /** A section whose top edge lies in the upper half of the viewport. */
  predicate InView(top: real, innerHeight: real) {
    0.0 <= top < innerHeight / 2.0
  }

  /**
   * The first section, from position `from` on, whose top is in view; `tops` are the
   * sections' top edges in document order.
   */
  function FirstInView(tops: seq<real>, innerHeight: real, from: nat): (r: Option<nat>)
    requires from <= |tops|
    ensures r.Some? ==> from <= r.value < |tops| && InView(tops[r.value], innerHeight)
    ensures r.Some? ==> forall j :: from <= j < r.value ==> !InView(tops[j], innerHeight)
    ensures r.None? ==> forall j :: from <= j < |tops| ==> !InView(tops[j], innerHeight)
    decreases |tops| - from
  {
    if from == |tops| then None
    else if InView(tops[from], innerHeight) then Some(from)
    else FirstInView(tops, innerHeight, from + 1)
  }

  /** The current section: `find` over all sections, then `indexOf` of the element found. */
  function CurrentSection(tops: seq<real>, innerHeight: real): Option<nat> {
    FirstInView(tops, innerHeight, 0)
  }

  /** What the keydown listener does for a key: whether it prevents the default, and which section it scrolls to. */
  datatype KeyOutcome = KeyOutcome(preventDefault: bool, scrollTo: Option<nat>)

  predicate IsTextField(tagName: string) {
    tagName == "INPUT" || tagName == "TEXTAREA"
  }

  /** The arrow part of the keydown listener; `focusedTag` is the tag name of the focused element. */
  function ArrowNavigation(key: string, ctrlKey: bool, focusedTag: string, tops: seq<real>, innerHeight: real): (r: KeyOutcome)
    ensures r.scrollTo.Some? ==> r.scrollTo.value < |tops|
  {
    if IsTextField(focusedTag) then KeyOutcome(false, None)
    else if key == "ArrowDown" && ctrlKey then
      KeyOutcome(true,
        match CurrentSection(tops, innerHeight)
        case Some(index) => if index < |tops| - 1 then Some(index + 1) else None
        case None => None)
    else if key == "ArrowUp" && ctrlKey then
      KeyOutcome(true,
        match CurrentSection(tops, innerHeight)
        case Some(index) => if index > 0 then Some(index - 1) else None
        case None => None)
    else KeyOutcome(false, None)
  }

  /**
   * Ctrl+ArrowDown outside a text field scrolls to the section after the first one in
   * view, if there is such a section and it is not the last; otherwise it scrolls nowhere.
   */
  lemma CtrlArrowDown(tops: seq<real>, innerHeight: real, focusedTag: string)
    requires !IsTextField(focusedTag)
    ensures var r := ArrowNavigation("ArrowDown", true, focusedTag, tops, innerHeight);
      && r.preventDefault
      && (r.scrollTo.Some? <==>
            exists i :: 0 <= i < |tops| - 1 && InView(tops[i], innerHeight)
                        && (forall j :: 0 <= j < i ==> !InView(tops[j], innerHeight)))
      && (forall i :: 0 <= i < |tops| && InView(tops[i], innerHeight)
                        && (forall j :: 0 <= j < i ==> !InView(tops[j], innerHeight))
            ==> r.scrollTo == if i < |tops| - 1 then Some(i + 1) else None)
  {
    var c := CurrentSection(tops, innerHeight);
    forall i | 0 <= i < |tops| && InView(tops[i], innerHeight) && (forall j :: 0 <= j < i ==> !InView(tops[j], innerHeight))
      ensures c == Some(i)
    {
      FirstIsUnique(tops, innerHeight, i);
    }
    if c.Some? && c.value < |tops| - 1 {
      assert 0 <= c.value < |tops| - 1 && InView(tops[c.value], innerHeight)
        && (forall j :: 0 <= j < c.value ==> !InView(tops[j], innerHeight));
    }
  }

  /** Mirror image: Ctrl+ArrowUp scrolls to the section before the first one in view, unless that is the first. */
  lemma CtrlArrowUp(tops: seq<real>, innerHeight: real, focusedTag: string)
    requires !IsTextField(focusedTag)
    ensures var r := ArrowNavigation("ArrowUp", true, focusedTag, tops, innerHeight);
      && r.preventDefault
      && (r.scrollTo.Some? <==>
            exists i :: 0 < i < |tops| && InView(tops[i], innerHeight)
                        && (forall j :: 0 <= j < i ==> !InView(tops[j], innerHeight)))
      && (forall i :: 0 <= i < |tops| && InView(tops[i], innerHeight)
                        && (forall j :: 0 <= j < i ==> !InView(tops[j], innerHeight))
            ==> r.scrollTo == if i > 0 then Some(i - 1) else None)
  {
    var c := CurrentSection(tops, innerHeight);
    forall i | 0 <= i < |tops| && InView(tops[i], innerHeight) && (forall j :: 0 <= j < i ==> !InView(tops[j], innerHeight))
      ensures c == Some(i)
    {
      FirstIsUnique(tops, innerHeight, i);
    }
    if c.Some? && c.value > 0 {
      assert 0 < c.value < |tops| && InView(tops[c.value], innerHeight)
        && (forall j :: 0 <= j < c.value ==> !InView(tops[j], innerHeight));
    }
  }

  /** The first section in view is the one `CurrentSection` finds. */
  lemma FirstIsUnique(tops: seq<real>, innerHeight: real, i: nat)
    requires i < |tops| && InView(tops[i], innerHeight)
    requires forall j :: 0 <= j < i ==> !InView(tops[j], innerHeight)
    ensures CurrentSection(tops, innerHeight) == Some(i)
  {
  }

  /** With a text field focused, or without Ctrl, the arrow keys neither scroll nor prevent the default. */
  lemma ArrowGuards(key: string, ctrlKey: bool, focusedTag: string, tops: seq<real>, innerHeight: real)
    ensures IsTextField(focusedTag) ==> ArrowNavigation(key, ctrlKey, focusedTag, tops, innerHeight) == KeyOutcome(false, None)
    ensures !ctrlKey ==> ArrowNavigation(key, ctrlKey, focusedTag, tops, innerHeight) == KeyOutcome(false, None)
    ensures key != "ArrowDown" && key != "ArrowUp" ==>
      ArrowNavigation(key, ctrlKey, focusedTag, tops, innerHeight) == KeyOutcome(false, None)
  {
  }

  // ---------------------------------------------------------------------------
  // The Escape branch
  // ---------------------------------------------------------------------------

  const ActiveClass := "active"

  /**
   * `document.querySelector('.portal-overlay.active')`: the first overlay, in document
   * order, whose class list holds both classes; Escape clicks its close button.
   */
  function EscapeTarget(overlays: seq<set<string>>): (r: Option<nat>)
    ensures r.Some? ==>
      r.value < |overlays| && PortalSpec.OverlayClass in overlays[r.value] && ActiveClass in overlays[r.value]
    ensures r.Some? ==> forall k :: 0 <= k < r.value ==>
      !(PortalSpec.OverlayClass in overlays[k] && ActiveClass in overlays[k])
    ensures r.None? <==> forall k :: 0 <= k < |overlays| ==>
      !(PortalSpec.OverlayClass in overlays[k] && ActiveClass in overlays[k])
  {
    if overlays == [] then None
    else if PortalSpec.OverlayClass in overlays[0] && ActiveClass in overlays[0] then Some(0)
    else match EscapeTarget(overlays[1..])
      case None => None
      case Some(k) => Some(k + 1)
  }

  /** The class lists of the overlays attached to the body, in order. */
  function AttachedOverlayClasses(s: PortalSpec.State): seq<set<string>> {
    seq(|s.dom.body|, k requires 0 <= k < |s.dom.body| =>
      if s.dom.body[k] in s.dom.nodes then s.dom.nodes[s.dom.body[k]].classes else {})
  }

  /**
   * The overlays the portal controller builds carry `portal-open`, never `active`, so in
   * every state the controller can reach the Escape branch finds no overlay to close.
   */
  lemma EscapeBranchNeverFires(s: PortalSpec.State)
    requires PortalSpec.Valid(s)
    ensures EscapeTarget(AttachedOverlayClasses(s)).None?
  {
    var cs := AttachedOverlayClasses(s);
    forall k | 0 <= k < |cs| ensures ActiveClass !in cs[k] {
      assert s.dom.body[k] in s.dom.nodes;
      assert cs[k] <= {PortalSpec.OverlayClass, PortalSpec.OverlayOpenClass};
    }
  }

  // ---------------------------------------------------------------------------
  // Keyboard-focus class
  // ---------------------------------------------------------------------------

  const KeyboardFocusClass := "keyboard-focus"

  /** The class lists after element `k` has been focused. */
  function Focused(cs: seq<set<string>>, k: nat): (r: seq<set<string>>)
    requires k < |cs|
  {
    cs[k := cs[k] + {KeyboardFocusClass}]
  }

  /** The class lists after element `k` has lost focus. */
  function Blurred(cs: seq<set<string>>, k: nat): (r: seq<set<string>>)
    requires k < |cs|
  {
    cs[k := cs[k] - {KeyboardFocusClass}]
  }

  /**
   * Focus marks exactly the focused element and blur unmarks it; neither touches another
   * element or another class, so a blur after a focus restores an element that was not
   * marked before.
   */
  lemma FocusBlur(cs: seq<set<string>>, k: nat)
    requires k < |cs|
    ensures KeyboardFocusClass in Focused(cs, k)[k]
    ensures KeyboardFocusClass !in Blurred(cs, k)[k]
    ensures forall j :: 0 <= j < |cs| && j != k ==> Focused(cs, k)[j] == cs[j] && Blurred(cs, k)[j] == cs[j]
    ensures Focused(cs, k)[k] - {KeyboardFocusClass} == cs[k] - {KeyboardFocusClass}
    ensures KeyboardFocusClass !in cs[k] ==> Blurred(Focused(cs, k), k) == cs
  {
    if KeyboardFocusClass !in cs[k] {
      assert Blurred(Focused(cs, k), k)[k] == cs[k];
    }
  }

  /** The class lists of the elements matched at start-up, each toggled by its focus and blur listeners. */
  class FocusStyles {
    var classes: seq<set<string>>

    constructor (matched: seq<set<string>>)
      ensures classes == matched
    {
      classes := matched;
    }

    method Focus(k: nat)
      requires k < |classes|
      modifies this
      ensures classes == Focused(old(classes), k)
    {
      classes := classes[k := classes[k] + {KeyboardFocusClass}];
    }

    method Blur(k: nat)
      requires k < |classes|
      modifies this
      ensures classes == Blurred(old(classes), k)
    {
      classes := classes[k := classes[k] - {KeyboardFocusClass}];
    }
  }
}
