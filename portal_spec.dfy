/**
 * The portal (modal overlay) controller of src/portal.js, as a state machine over an
 * abstract document.
 *
 * The document is reduced to what the controller reads and writes: the authored page's
 * elements by id (the templates), the overlays the controller has built (kept in a heap
 * of node values, attached or not), the order in which overlays are attached to the
 * body, the body's `style.overflow`, and the callbacks handed to `requestAnimationFrame`
 * and `setTimeout` that have not run yet. A pending callback runs only when `Fire`
 * picks it; any pending callback may be picked, which covers every order a browser can
 * produce (a background tab, for one, runs timers while holding frames back).
 */
module PortalSpec {
  import opened Common

  /** Identity of an overlay node built by `Open`. */
  type Handle = nat

  const MinTouchSize: real := 44.0

  const OverlayClass := "portal-overlay"
  const OverlayOpenClass := "portal-open"
  const ContainerClass := "portal-container"
  const ContainerOpenClass := "portal-container-open"
  const ContentClass := "portal-content"
  const CloseClass := "portal-close"

  /**
   * The padding `ensureTouchTarget` writes on an element whose measured border box is
   * `width` x `height`, or `None` when it leaves the padding alone. It is the least `p`
   * with `width + 2p >= 44` and `height + 2p >= 44` for that measured box. The written
   * padding replaces the element's own, so the box it ends with is not this sum.
   */
  function TouchPadding(width: real, height: real): (p: Option<real>)
    ensures p.None? <==> width >= MinTouchSize && height >= MinTouchSize
    ensures p.Some? ==> p.value > 0.0
    ensures p.Some? ==> width + 2.0 * p.value >= MinTouchSize && height + 2.0 * p.value >= MinTouchSize
    ensures p.Some? ==> width + 2.0 * p.value == MinTouchSize || height + 2.0 * p.value == MinTouchSize
  {
    if width < MinTouchSize || height < MinTouchSize then
      Some(Max(0.0, Max((MinTouchSize - width) / 2.0, (MinTouchSize - height) / 2.0)))
    else
      None
  }

  function Max(a: real, b: real): real {
    if a >= b then a else b
  }

  /**
   * An element of the page: its id, its class list, its inline `style.display`, and
   * everything else about it (other attributes, the subtree), which a deep clone
   * copies unchanged.
   */
  datatype Element = Element(id: string, classes: set<string>, display: string, markup: string)

  /** A child of the dialog container: the close button, or the cloned content. */
  datatype Child =
    | CloseControl(classes: set<string>, ariaLabel: string, buttonType: string, padding: Option<real>)
    | ContentNode(element: Element)

  datatype Container = Container(
    classes: set<string>, role: string, ariaModal: string, labelledBy: string, children: seq<Child>)

  datatype Overlay = Overlay(classes: set<string>, ariaHidden: string, container: Container)

  /** A callback handed to the browser: the frame that adds the open classes, or the 300 ms teardown. */
  datatype Task = AddOpenClasses(target: Handle) | Teardown(target: Handle)

  datatype Dom = Dom(
    page: map<string, Element>,   // the authored page's elements, by id
    nodes: map<Handle, Overlay>,  // every overlay built so far, attached or detached
    body: seq<Handle>,            // overlays attached to document.body, in order
    overflow: string,             // document.body.style.overflow
    pending: seq<Task>,           // callbacks not yet run
    nextHandle: Handle)

  /** The controller's two fields and the document it works on. */
  datatype State = State(activePortal: Option<Handle>, activeContent: Option<Element>, dom: Dom)

  /** The state right after `new Portal()`: no portal, no overlay, nothing pending. */
  function Initial(page: map<string, Element>, overflow: string): State {
    State(None, None, Dom(page, map[], [], overflow, [], 0))
  }

  // ---------------------------------------------------------------------------
  // Building blocks of `open`
  // ---------------------------------------------------------------------------

  /** The cloned content of an overlay, when it has the shape `Open` builds. */
  function ContentOf(o: Overlay): Option<Element> {
    if |o.container.children| >= 2 && o.container.children[1].ContentNode? then
      Some(o.container.children[1].element)
    else
      None
  }

  /** Overlay `h` is known and has a cloned content root with id `id`. */
  predicate HasContentWithId(nodes: map<Handle, Overlay>, h: Handle, id: string) {
    h in nodes && ContentOf(nodes[h]).Some? && ContentOf(nodes[h]).value.id == id
  }

  /**
   * The first cloned content root with id `id` among the overlays attached in `body`,
   * in attachment order, or `None` when no attached overlay has one
   * (`AttachedContentFirst`).
   */
  function AttachedContentWithId(nodes: map<Handle, Overlay>, body: seq<Handle>, id: string): (r: Option<Element>)
    ensures r.Some? ==> r.value.id == id
    ensures r.Some? ==> exists k :: 0 <= k < |body| && body[k] in nodes && ContentOf(nodes[body[k]]) == r
  {
    if body == [] then None
    else if HasContentWithId(nodes, body[0], id) then
      ContentOf(nodes[body[0]])
    else
      var r := AttachedContentWithId(nodes, body[1..], id);
      assert r.Some? ==> exists k :: 0 < k < |body| && body[k] in nodes && ContentOf(nodes[body[k]]) == r by {
        if r.Some? {
          var k :| 0 <= k < |body[1..]| && body[1..][k] in nodes && ContentOf(nodes[body[1..][k]]) == r;
          assert body[k + 1] == body[1..][k];
        }
      }
      r
  }

  /**
   * The lookup over attached overlays finds nothing exactly when none of them has a
   * content root with the id, and otherwise finds that of the first one that has.
   */
  lemma {:induction false} AttachedContentFirst(nodes: map<Handle, Overlay>, body: seq<Handle>, id: string)
    ensures AttachedContentWithId(nodes, body, id).None? <==>
      forall k :: 0 <= k < |body| ==> !HasContentWithId(nodes, body[k], id)
    ensures forall k :: 0 <= k < |body| && HasContentWithId(nodes, body[k], id) &&
                        (forall j :: 0 <= j < k ==> !HasContentWithId(nodes, body[j], id)) ==>
                        AttachedContentWithId(nodes, body, id) == ContentOf(nodes[body[k]])
  {
    if body != [] {
      AttachedContentFirst(nodes, body[1..], id);
      assert forall k :: 0 < k < |body| ==> body[k] == body[1..][k - 1];
    }
  }

  /**
   * `document.getElementById(id)`: the authored page precedes, in document order, the
   * overlays appended at the end of the body, so a page element wins; otherwise the
   * cloned content root of an attached overlay can be found. No element matches the
   * empty id.
   */
  function Resolve(dom: Dom, id: string): (r: Option<Element>)
    ensures id == "" ==> r.None?
    ensures id != "" && id in dom.page ==> r == Some(dom.page[id])
  {
    if id == "" then None
    else if id in dom.page then Some(dom.page[id])
    else AttachedContentWithId(dom.nodes, dom.body, id)
  }

  /** The deep clone `open` makes of the template: new id, one class, display cleared. */
  function Clone(template: Element, targetId: string): Element {
    Element(targetId + "-content", {ContentClass}, "", template.markup)
  }

  /**
   * The close button. `ensureTouchTarget` measures it before it is attached, when its
   * layout box is empty, so it always gets the padding for a 0 x 0 box.
   */
  function CloseButton(): Child {
    CloseControl({CloseClass}, "Close portal", "button", TouchPadding(0.0, 0.0))
  }

  /** The overlay `open` assembles around a clone of `template`, before any frame has run. */
  function Build(targetId: string, template: Element): Overlay {
    Overlay({OverlayClass}, "false",
      Container({ContainerClass}, "dialog", "true", targetId + "-title",
        [CloseButton(), ContentNode(Clone(template, targetId))]))
  }

  function WithOpenClasses(o: Overlay): Overlay {
    o.(classes := o.classes + {OverlayOpenClass},
       container := o.container.(classes := o.container.classes + {ContainerOpenClass}))
  }

  function WithoutOpenClasses(o: Overlay): Overlay {
    o.(classes := o.classes - {OverlayOpenClass},
       container := o.container.(classes := o.container.classes - {ContainerOpenClass}))
  }

  // ---------------------------------------------------------------------------
  // The operations
  // ---------------------------------------------------------------------------

  /**
   * `open(targetId)`: close any active portal, look the template up, and if it exists
   * attach a new overlay around a clone of it, make it the active portal, queue the
   * frame that adds the open classes and lock the body's scrolling.
   */
  function Open(s: State, targetId: string): State {
    var s1 := if s.activePortal.Some? then Close(s) else s;
    match Resolve(s1.dom, targetId)
    case None => s1
    case Some(template) =>
      var h := s1.dom.nextHandle;
      State(Some(h), Some(Clone(template, targetId)),
        s1.dom.(nodes := s1.dom.nodes[h := Build(targetId, template)],
                body := s1.dom.body + [h],
                overflow := "hidden",
                pending := s1.dom.pending + [AddOpenClasses(h)],
                nextHandle := h + 1))
  }

  /**
   * `close()`: with an active portal, take the open classes off it and its container
   * and queue its teardown; the active portal itself stays set until that runs.
   */
  function Close(s: State): State {
    match s.activePortal
    case None => s
    case Some(h) =>
      s.(dom := s.dom.(
        nodes := if h in s.dom.nodes then s.dom.nodes[h := WithoutOpenClasses(s.dom.nodes[h])] else s.dom.nodes,
        pending := s.dom.pending + [Teardown(h)]))
  }

  /**
   * Run the pending callback at position `i`. The frame callback adds the open classes
   * to the overlay it was queued for; the teardown detaches the overlay it was queued
   * for and then, whatever portal is active by now, unlocks scrolling and clears both
   * fields.
   */
  function Fire(s: State, i: nat): State
    requires i < |s.dom.pending|
  {
    var rest := RemoveAt(s.dom.pending, i);
    match s.dom.pending[i]
    case AddOpenClasses(h) =>
      s.(dom := s.dom.(
        nodes := if h in s.dom.nodes then s.dom.nodes[h := WithOpenClasses(s.dom.nodes[h])] else s.dom.nodes,
        pending := rest))
    case Teardown(h) =>
      State(None, None, s.dom.(body := Without(s.dom.body, h), overflow := "", pending := rest))
  }

  // ---------------------------------------------------------------------------
  // The listeners
  // ---------------------------------------------------------------------------

  datatype Input = Click | KeyDown(key: string)

  /**
   * Where an event happens: on a trigger (which names its target id), on any other
   * element of the document (a key press), on the close button of an overlay, or a
   * click somewhere on an overlay other than its close button (`onBackground` when the
   * event's target is the overlay node itself).
   */
  datatype Event =
    | AtTrigger(targetId: string, input: Input)
    | AtDocument(key: string)
    | AtCloseButton(input: Input)
    | AtOverlay(onBackground: bool)

  /** A click, or Enter or Space pressed: what the trigger and close-button listeners react to. */
  predicate Activates(input: Input) {
    input.Click? || input.key == "Enter" || input.key == " "
  }

  /** The document-wide keydown listener: Escape closes, but only while a portal is active. */
  function DocumentKey(s: State, key: string): State {
    if key == "Escape" && s.activePortal.Some? then Close(s) else s
  }

  /**
   * Dispatch of one event through the listeners `init` and `open` register. A key
   * press a trigger or close button does not react to bubbles up to the document
   * listener; on activation the trigger stops propagation, and the document listener
   * ignores Enter and Space anyway.
   */
  function Dispatch(s: State, ev: Event): State {
    match ev
    case AtTrigger(id, input) =>
      if Activates(input) then Open(s, id) else DocumentKey(s, input.key)
    case AtDocument(key) => DocumentKey(s, key)
    case AtCloseButton(input) =>
      if Activates(input) then Close(s) else DocumentKey(s, input.key)
    case AtOverlay(onBackground) =>
      if onBackground then Close(s) else s
  }

  // ---------------------------------------------------------------------------
  // The invariant every reachable state keeps
  // ---------------------------------------------------------------------------

  /** An overlay has the shape `Open` builds, with or without its open classes. */
  ghost predicate WellFormed(o: Overlay) {
    && OverlayClass in o.classes && o.classes <= {OverlayClass, OverlayOpenClass}
    && ContainerClass in o.container.classes
    && o.container.classes <= {ContainerClass, ContainerOpenClass}
    && |o.container.children| == 2
    && o.container.children[0].CloseControl?
    && o.container.children[1].ContentNode?
  }

  ghost predicate Valid(s: State) {
    && (forall h :: h in s.dom.nodes ==> h < s.dom.nextHandle && WellFormed(s.dom.nodes[h]))
    && (forall k :: 0 <= k < |s.dom.body| ==> s.dom.body[k] in s.dom.nodes)
    && Distinct(s.dom.body)
    && (forall k :: 0 <= k < |s.dom.pending| ==> s.dom.pending[k].target in s.dom.nodes)
    && (s.activePortal.None? ==> s.activeContent.None?)
    && (s.activePortal.Some? ==>
          && s.activePortal.value in s.dom.body
          && s.dom.overflow == "hidden"
          && s.activePortal.value in s.dom.nodes
          && s.activeContent == ContentOf(s.dom.nodes[s.activePortal.value]))
  }

  lemma InitialValid(page: map<string, Element>, overflow: string)
    ensures Valid(Initial(page, overflow))
  {
  }

  lemma BuildWellFormed(targetId: string, template: Element)
    ensures WellFormed(Build(targetId, template))
    ensures ContentOf(Build(targetId, template)) == Some(Clone(template, targetId))
  {
  }

  lemma CloseValid(s: State)
    requires Valid(s)
    ensures Valid(Close(s))
  {
  }

  lemma OpenValid(s: State, targetId: string)
    requires Valid(s)
    ensures Valid(Open(s, targetId))
  {
    var s1 := if s.activePortal.Some? then Close(s) else s;
    CloseValid(s);
    match Resolve(s1.dom, targetId)
    case None =>
    case Some(template) =>
      var h := s1.dom.nextHandle;
      BuildWellFormed(targetId, template);
      var s2 := Open(s, targetId);
      assert h !in s1.dom.body;
      assert forall k :: 0 <= k < |s1.dom.body| ==> s1.dom.body[k] != h;
      assert s2.dom.body == s1.dom.body + [h];
  }

  lemma FireValid(s: State, i: nat)
    requires Valid(s)
    requires i < |s.dom.pending|
    ensures Valid(Fire(s, i))
  {
    match s.dom.pending[i]
    case AddOpenClasses(h) =>
    case Teardown(h) =>
      WithoutDistinct(s.dom.body, h);
  }

  lemma DispatchValid(s: State, ev: Event)
    requires Valid(s)
    ensures Valid(Dispatch(s, ev))
  {
    CloseValid(s);
    match ev
    case AtTrigger(id, input) => OpenValid(s, id);
    case AtDocument(_) =>
    case AtCloseButton(_) =>
    case AtOverlay(_) =>
  }
}
