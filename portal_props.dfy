/**
 * What the portal controller of src/portal.js promises, and the three places in which it
 * does not do what its code is evidently meant to do: lemmas over the state machine of
 * module PortalSpec.
 */
module PortalProperties {
  import opened Common
  import opened PortalSpec

  // ---------------------------------------------------------------------------
  // open
  // ---------------------------------------------------------------------------

  /** Closing only changes class lists and the pending callbacks, so the lookup sees the same thing. */
  lemma CloseKeepsLookup(s: State, id: string)
    ensures Resolve(Close(s).dom, id) == Resolve(s.dom, id)
  {
    if s.activePortal.Some? && s.activePortal.value in s.dom.nodes {
      var h := s.activePortal.value;
      var d := Close(s).dom;
      assert forall g :: g in d.nodes ==> ContentOf(d.nodes[g]) == ContentOf(s.dom.nodes[g]);
      ContentLookupSame(s.dom.nodes, d.nodes, s.dom.body, id);
    }
  }

  /**
   * The lookup finds nothing exactly when the id is empty, or no page element and no
   * attached overlay's content root carries it.
   */
  lemma ResolveMissing(dom: Dom, id: string)
    ensures Resolve(dom, id).None? <==>
      (id == "" || (id !in dom.page && forall k :: 0 <= k < |dom.body| ==> !HasContentWithId(dom.nodes, dom.body[k], id)))
  {
    AttachedContentFirst(dom.nodes, dom.body, id);
  }

  lemma {:induction false} ContentLookupSame(n1: map<Handle, Overlay>, n2: map<Handle, Overlay>, body: seq<Handle>, id: string)
    requires n1.Keys == n2.Keys
    requires forall g :: g in n1 ==> ContentOf(n1[g]) == ContentOf(n2[g])
    ensures AttachedContentWithId(n1, body, id) == AttachedContentWithId(n2, body, id)
  {
    if body != [] {
      ContentLookupSame(n1, n2, body[1..], id);
    }
  }

  /**
   * An id nothing in the document carries: no overlay is added and scrolling is left
   * as it was; only the close of a previously active portal happens. With no portal
   * active, nothing changes at all.
   */
  lemma OpenMissingTarget(s: State, targetId: string)
    requires Resolve(s.dom, targetId).None?
    ensures Open(s, targetId).dom.body == s.dom.body
    ensures Open(s, targetId).dom.nodes.Keys == s.dom.nodes.Keys
    ensures Open(s, targetId).dom.overflow == s.dom.overflow
    ensures Open(s, targetId).activePortal == s.activePortal
    ensures s.activePortal.Some? ==> Open(s, targetId) == Close(s)
    ensures s.activePortal.None? ==> Open(s, targetId) == s
  {
    CloseKeepsLookup(s, targetId);
  }

  /**
   * An id that resolves to an element: exactly one new overlay is appended to the body
   * and becomes the active portal; the active content is a clone with the derived id,
   * the single class `portal-content`, display cleared and the template's markup; the
   * page's own elements are not touched and scrolling is locked.
   */
  lemma OpenFoundTarget(s: State, targetId: string, template: Element)
    requires Valid(s)
    requires Resolve(s.dom, targetId) == Some(template)
    ensures var s' := Open(s, targetId); var h := s.dom.nextHandle;
      && h !in s.dom.nodes
      && s'.dom.body == s.dom.body + [h]
      && s'.dom.nodes.Keys == s.dom.nodes.Keys + {h}
      && s'.activePortal == Some(h)
      && s'.activeContent.Some?
      && s'.activeContent.value.id == targetId + "-content"
      && s'.activeContent.value.classes == {ContentClass}
      && s'.activeContent.value.display == ""
      && s'.activeContent.value.markup == template.markup
      && s'.dom.page == s.dom.page
      && s'.dom.overflow == "hidden"
  {
    CloseKeepsLookup(s, targetId);
  }

  /**
   * The structure of the new overlay: one dialog container labelled by `<id>-title`,
   * whose children are the close button and then the active content; and neither open
   * class is present until the queued frame callback runs.
   */
  lemma OpenStructure(s: State, targetId: string, template: Element)
    requires Valid(s)
    requires Resolve(s.dom, targetId) == Some(template)
    ensures s.dom.nextHandle in Open(s, targetId).dom.nodes
    ensures var s' := Open(s, targetId); var o := s'.dom.nodes[s.dom.nextHandle];
      && o.classes == {OverlayClass}
      && o.container.classes == {ContainerClass}
      && o.container.role == "dialog"
      && o.container.ariaModal == "true"
      && o.container.labelledBy == targetId + "-title"
      && o.container.children == [CloseButton(), ContentNode(s'.activeContent.value)]
      && OverlayOpenClass !in o.classes
      && ContainerOpenClass !in o.container.classes
      && s'.dom.pending[|s'.dom.pending| - 1] == AddOpenClasses(s.dom.nextHandle)
  {
    CloseKeepsLookup(s, targetId);
  }

  /** The close button is measured while detached, as a 0 x 0 box, so it gets a padding of 22. */
  lemma CloseButtonPadding()
    ensures CloseButton().padding == Some(22.0)
  {
  }

  /**
   * Opening while a portal is active appends the new overlay while the old one is still
   * attached: for the length of the teardown delay the body holds two overlays.
   */
  lemma OpenWhileActiveKeepsOld(s: State, targetId: string, template: Element)
    requires Valid(s)
    requires s.activePortal.Some?
    requires Resolve(s.dom, targetId) == Some(template)
    ensures s.activePortal.value in Open(s, targetId).dom.body
    ensures |Open(s, targetId).dom.body| == |s.dom.body| + 1
    ensures Teardown(s.activePortal.value) in Open(s, targetId).dom.pending
  {
    CloseKeepsLookup(s, targetId);
  }

  /** The frame callback adds both open classes to the overlay it was queued for and changes nothing else. */
  lemma FrameAddsOpenClasses(s: State, i: nat)
    requires Valid(s)
    requires i < |s.dom.pending| && s.dom.pending[i].AddOpenClasses?
    ensures var h := s.dom.pending[i].target; var s' := Fire(s, i);
      && OverlayOpenClass in s'.dom.nodes[h].classes
      && ContainerOpenClass in s'.dom.nodes[h].container.classes
      && s'.activePortal == s.activePortal
      && s'.activeContent == s.activeContent
      && s'.dom.body == s.dom.body
      && s'.dom.overflow == s.dom.overflow
      && s'.dom.nodes == s.dom.nodes[h := WithOpenClasses(s.dom.nodes[h])]
      && s'.dom.pending == RemoveAt(s.dom.pending, i)
      && s'.dom.page == s.dom.page
      && s'.dom.nextHandle == s.dom.nextHandle
  {
  }

  /**
   * Every overlay of `after` that carries `portal-open` existed in `before` and carried
   * it there, and likewise for a container that carries `portal-container-open`.
   */
  ghost predicate NoNewOpenClass(before: State, after: State) {
    && (forall g :: g in after.dom.nodes && OverlayOpenClass in after.dom.nodes[g].classes ==>
          g in before.dom.nodes && OverlayOpenClass in before.dom.nodes[g].classes)
    && (forall g :: g in after.dom.nodes && ContainerOpenClass in after.dom.nodes[g].container.classes ==>
          g in before.dom.nodes && ContainerOpenClass in before.dom.nodes[g].container.classes)
  }

  lemma CloseAddsNoOpenClass(s: State)
    ensures NoNewOpenClass(s, Close(s))
  {
  }

  lemma OpenAddsNoOpenClass(s: State, targetId: string)
    requires Valid(s)
    ensures NoNewOpenClass(s, Open(s, targetId))
  {
    CloseAddsNoOpenClass(s);
    CloseValid(s);
    var s1 := if s.activePortal.Some? then Close(s) else s;
    assert s1.dom.nextHandle !in s1.dom.nodes;
  }

  /** No listener adds either open class: an overlay or container that carries one afterwards carried it before. */
  lemma ListenersAddNoOpenClass(s: State, ev: Event)
    requires Valid(s)
    ensures NoNewOpenClass(s, Dispatch(s, ev))
  {
    CloseAddsNoOpenClass(s);
    match ev
    case AtTrigger(id, _) => OpenAddsNoOpenClass(s, id);
    case AtDocument(_) =>
    case AtCloseButton(_) =>
    case AtOverlay(_) =>
  }

  /** A teardown detaches its overlay but changes no overlay's classes, so only the frame callback adds the open classes. */
  lemma TeardownKeepsNodes(s: State, i: nat)
    requires i < |s.dom.pending| && s.dom.pending[i].Teardown?
    ensures Fire(s, i).dom.nodes == s.dom.nodes
  {
  }

  // ---------------------------------------------------------------------------
  // close and the teardown
  // ---------------------------------------------------------------------------

  lemma CloseWithoutPortal(s: State)
    requires s.activePortal.None?
    ensures Close(s) == s
  {
  }

  /**
   * Closing an active portal takes its open classes away at once and queues exactly one
   * teardown for it; the overlay stays attached, scrolling stays locked and the portal
   * stays active until that teardown runs.
   */
  lemma CloseActive(s: State)
    requires Valid(s)
    requires s.activePortal.Some?
    ensures var h := s.activePortal.value; var s' := Close(s);
      && OverlayOpenClass !in s'.dom.nodes[h].classes
      && ContainerOpenClass !in s'.dom.nodes[h].container.classes
      && h in s'.dom.body
      && s'.dom.body == s.dom.body
      && s'.dom.overflow == "hidden"
      && s'.activePortal == s.activePortal
      && s'.activeContent == s.activeContent
      && s'.dom.pending == s.dom.pending + [Teardown(h)]
      && s'.dom.nodes == s.dom.nodes[h := WithoutOpenClasses(s.dom.nodes[h])]
      && s'.dom.page == s.dom.page
      && s'.dom.nextHandle == s.dom.nextHandle
  {
  }

  /**
   * A teardown detaches the overlay it was queued for and no other, unlocks scrolling
   * and clears both fields, whichever portal is active when it runs.
   */
  lemma TeardownEffect(s: State, i: nat)
    requires Valid(s)
    requires i < |s.dom.pending| && s.dom.pending[i].Teardown?
    ensures var h := s.dom.pending[i].target; var s' := Fire(s, i);
      && h !in s'.dom.body
      && (forall g :: g in s.dom.body && g != h ==> g in s'.dom.body)
      && s'.dom.overflow == ""
      && s'.activePortal.None?
      && s'.activeContent.None?
  {
    var h := s.dom.pending[i].target;
    var s' := Fire(s, i);
    forall g | g in s.dom.body && g != h ensures g in s'.dom.body {
      var k :| 0 <= k < |s.dom.body| && s.dom.body[k] == g;
    }
  }

  /** The page's elements, the templates, are never changed by any listener or callback. */
  lemma TemplatesUntouched(s: State, ev: Event, i: nat)
    requires i < |s.dom.pending|
    ensures Dispatch(s, ev).dom.page == s.dom.page
    ensures Fire(s, i).dom.page == s.dom.page
  {
  }

  // ---------------------------------------------------------------------------
  // Phases: closed -> open -> closing -> closed
  // ---------------------------------------------------------------------------

  datatype Phase = Closed | Opened | Closing

  /** A portal is closing while a teardown for it is pending. */
  function PhaseOf(s: State): Phase {
    match s.activePortal
    case None => Closed
    case Some(h) => if Teardown(h) in s.dom.pending then Closing else Opened
  }

  /** A successful open always leads to the open phase, from whatever phase it starts. */
  lemma OpenPhase(s: State, targetId: string)
    requires Valid(s)
    requires Resolve(s.dom, targetId).Some?
    ensures PhaseOf(Open(s, targetId)) == Opened
  {
    CloseKeepsLookup(s, targetId);
    var s1 := if s.activePortal.Some? then Close(s) else s;
    CloseValid(s);
    var h := s1.dom.nextHandle;
    assert h !in s1.dom.nodes;
    assert Open(s, targetId).dom.pending == s1.dom.pending + [AddOpenClasses(h)];
  }

  lemma ClosePhase(s: State)
    requires PhaseOf(s) != Closed
    ensures PhaseOf(Close(s)) == Closing
  {
  }

  /** Any teardown that runs ends in the closed phase, even one queued for an older overlay. */
  lemma TeardownPhase(s: State, i: nat)
    requires i < |s.dom.pending| && s.dom.pending[i].Teardown?
    ensures PhaseOf(Fire(s, i)) == Closed
  {
  }

  /**
   * The intended cycle, from a quiet closed state: open, let the frame run, close, let
   * the teardown run. The overlay is shown with its open classes in between, and at the
   * end the body is as it was, scrolling is unlocked and nothing is pending.
   */
  lemma OpenCloseCycle(s: State, targetId: string)
    requires Valid(s)
    requires s.activePortal.None? && s.dom.pending == []
    requires Resolve(s.dom, targetId).Some?
    ensures var s1 := Open(s, targetId);
      && |s1.dom.pending| == 1
      && var s2 := Fire(s1, 0);
      && PhaseOf(s2) == Opened
      && OverlayOpenClass in s2.dom.nodes[s.dom.nextHandle].classes
      && var s3 := Close(s2);
      && PhaseOf(s3) == Closing
      && |s3.dom.pending| == 1
      && var s4 := Fire(s3, 0);
      && PhaseOf(s4) == Closed
      && s4.dom.body == s.dom.body
      && s4.dom.overflow == ""
      && s4.dom.pending == []
  {
    var h := s.dom.nextHandle;
    var s1 := Open(s, targetId);
    var s2 := Fire(s1, 0);
    var s3 := Close(s2);
    assert s3.dom.pending == [Teardown(h)];
    var s4 := Fire(s3, 0);
    assert h !in s.dom.body;
    WithoutAppend(s.dom.body, h);
  }

  lemma {:induction false} WithoutAppend(body: seq<Handle>, h: Handle)
    requires h !in body
    ensures Without(body + [h], h) == body
  {
    if body != [] {
      assert (body + [h])[1..] == body[1..] + [h];
      WithoutAppend(body[1..], h);
    } else {
      assert body + [h] == [h];
    }
  }

  // ---------------------------------------------------------------------------
  // The listeners' guards
  // ---------------------------------------------------------------------------

  /** The document's Escape listener only ever closes, and only while a portal is active. */
  lemma EscapeGuard(s: State, key: string)
    ensures Dispatch(s, AtDocument(key)) != s ==> key == "Escape" && s.activePortal.Some?
    ensures key == "Escape" && s.activePortal.Some? ==> Dispatch(s, AtDocument(key)) == Close(s)
  {
  }

  /** Escape and a click on the close button lead to the same state, portal or not. */
  lemma EscapeSameAsCloseButton(s: State)
    ensures Dispatch(s, AtDocument("Escape")) == Dispatch(s, AtCloseButton(Click))
  {
  }

  /**
   * A trigger opens its target on a click or on Enter or Space, and on no other key; a
   * key other than Escape leaves the state as it is.
   */
  lemma TriggerGuard(s: State, targetId: string, input: Input)
    ensures Activates(input) ==> Dispatch(s, AtTrigger(targetId, input)) == Open(s, targetId)
    ensures !Activates(input) && input.key != "Escape" ==> Dispatch(s, AtTrigger(targetId, input)) == s
  {
  }

  /** A click on the overlay closes only when its target is the overlay itself, not the dialog inside it. */
  lemma OverlayClickGuard(s: State)
    ensures Dispatch(s, AtOverlay(false)) == s
    ensures Dispatch(s, AtOverlay(true)) == Close(s)
  {
  }

  // ---------------------------------------------------------------------------
  // The stale-teardown race
  // ---------------------------------------------------------------------------

  /**
   * A teardown queued for an older overlay that runs while a newer one is active clears
   * the active portal and unlocks scrolling although the newer overlay stays attached.
   */
  lemma StaleTeardown(s: State, i: nat)
    requires Valid(s)
    requires s.activePortal.Some?
    requires i < |s.dom.pending| && s.dom.pending[i] == Teardown(s.dom.pending[i].target)
    requires s.dom.pending[i].target != s.activePortal.value
    ensures s.activePortal.value in Fire(s, i).dom.body
    ensures Fire(s, i).activePortal.None?
    ensures Fire(s, i).dom.overflow == ""
  {
    var h := s.activePortal.value;
    var k :| 0 <= k < |s.dom.body| && s.dom.body[k] == h;
  }

  /** Two templates, "a" and "b", and no overlay yet. */
  function TwoTemplates(): State {
    Initial(map["a" := TemplateA(), "b" := TemplateB()], "")
  }

  function TemplateA(): Element { Element("a", {}, "none", "A") }
  function TemplateB(): Element { Element("b", {}, "none", "B") }

  /** Portal "a" opened, its frame run, then closed: overlay 0 attached, its teardown pending. */
  function ClosingA(): State {
    State(Some(0), Some(Clone(TemplateA(), "a")),
      TwoTemplates().dom.(nodes := map[0 := Build("a", TemplateA())],
                          body := [0], overflow := "hidden", pending := [Teardown(0)], nextHandle := 1))
  }

  lemma ReachClosingA()
    ensures Close(Fire(Open(TwoTemplates(), "a"), 0)) == ClosingA()
  {
    var s1 := Open(TwoTemplates(), "a");
    assert s1.dom.pending == [AddOpenClasses(0)];
    var s2 := Fire(s1, 0);
    assert s2.dom.pending == [];
    OpenClassesUndone(Build("a", TemplateA()));
  }

  /** Adding and then removing the open classes gives back an overlay that had neither. */
  lemma OpenClassesUndone(o: Overlay)
    requires OverlayOpenClass !in o.classes && ContainerOpenClass !in o.container.classes
    ensures WithoutOpenClasses(WithOpenClasses(o)) == o
    ensures WithoutOpenClasses(o) == o
  {
    assert WithOpenClasses(o).classes - {OverlayOpenClass} == o.classes;
    assert WithOpenClasses(o).container.classes - {ContainerOpenClass} == o.container.classes;
  }

  /** `open("b")` from ClosingA: a second teardown of overlay 0, and overlay 1 attached. */
  function OpenedBWhileClosingA(): State {
    State(Some(1), Some(Clone(TemplateB(), "b")),
      ClosingA().dom.(nodes := ClosingA().dom.nodes[1 := Build("b", TemplateB())],
                      body := [0, 1], pending := [Teardown(0), Teardown(0), AddOpenClasses(1)],
                      nextHandle := 2))
  }

  lemma ReachOpenedB()
    ensures Open(ClosingA(), "b") == OpenedBWhileClosingA()
  {
    var c := Close(ClosingA());
    assert c.dom.pending == [Teardown(0), Teardown(0)];
    OpenClassesUndone(Build("a", TemplateA()));
    assert c.dom.nodes == ClosingA().dom.nodes;
    assert Resolve(c.dom, "b") == Some(TemplateB());
  }

  /** The first teardown of overlay 0 and then the frame of overlay 1 have run. */
  function OrphanB(): State {
    State(None, None,
      OpenedBWhileClosingA().dom.(
        nodes := OpenedBWhileClosingA().dom.nodes[1 := WithOpenClasses(Build("b", TemplateB()))],
        body := [1], overflow := "", pending := [Teardown(0)]))
  }

  lemma ReachOrphanB()
    ensures Fire(Fire(OpenedBWhileClosingA(), 0), 1) == OrphanB()
  {
    var t := Fire(OpenedBWhileClosingA(), 0);
    assert Without([0, 1], 0) == [1] by {
      assert Without([0, 1], 0) == Without([1], 0);
      assert Without([1], 0) == [1] + Without([], 0);
    }
    assert t.dom.pending == [Teardown(0), AddOpenClasses(1)];
  }

  /**
   * Close "a", then open "b" before the teardown of "a" has run. Because the active
   * portal is still "a", `open` closes it a second time, so two teardowns for it are
   * pending. When the first one runs, overlay "b" is attached and, once its frame has
   * run, shown open; yet no portal is active and scrolling is unlocked, so Escape, the
   * close button and the background click all do nothing, and neither does the second
   * teardown: "b" can no longer be closed.
   */
  lemma OrphanedOverlay()
    ensures var s2 := Open(Close(Fire(Open(TwoTemplates(), "a"), 0)), "b");
      && s2.dom.pending == [Teardown(0), Teardown(0), AddOpenClasses(1)]
      && var s3 := Fire(Fire(s2, 0), 1);
      && s3.dom.body == [1]
      && OverlayOpenClass in s3.dom.nodes[1].classes
      && s3.activePortal.None?
      && s3.dom.overflow == ""
      && Dispatch(s3, AtDocument("Escape")) == s3
      && Dispatch(s3, AtCloseButton(Click)) == s3
      && Dispatch(s3, AtOverlay(true)) == s3
      && Fire(s3, 0).dom.body == [1]
  {
    ReachClosingA();
    ReachOpenedB();
    ReachOrphanB();
    assert Without([1], 0) == [1] + Without([], 0);
  }

  /**
   * Overlay `h` is stuck: it is attached, it is not the active portal and no teardown
   * for it is pending. Only a teardown of `h` or a `close` while `h` is active could
   * detach it, so it stays attached whatever happens next.
   */
  ghost predicate Stuck(s: State, h: Handle) {
    && Valid(s)
    && h in s.dom.body
    && s.activePortal != Some(h)
    && Teardown(h) !in s.dom.pending
  }

  lemma CloseKeepsStuck(s: State, h: Handle)
    requires Stuck(s, h)
    ensures Stuck(Close(s), h)
  {
    CloseValid(s);
  }

  lemma OpenKeepsStuck(s: State, h: Handle, targetId: string)
    requires Stuck(s, h)
    ensures Stuck(Open(s, targetId), h)
  {
    OpenValid(s, targetId);
    CloseKeepsStuck(s, h);
    var s1 := if s.activePortal.Some? then Close(s) else s;
    assert h in s1.dom.nodes;
    assert h != s1.dom.nextHandle;
  }

  lemma FireKeepsStuck(s: State, h: Handle, i: nat)
    requires Stuck(s, h)
    requires i < |s.dom.pending|
    ensures Stuck(Fire(s, i), h)
  {
    FireValid(s, i);
    var k :| 0 <= k < |s.dom.body| && s.dom.body[k] == h;
    assert s.dom.pending[i] != Teardown(h);
  }

  lemma DispatchKeepsStuck(s: State, h: Handle, ev: Event)
    requires Stuck(s, h)
    ensures Stuck(Dispatch(s, ev), h)
  {
    CloseKeepsStuck(s, h);
    match ev
    case AtTrigger(id, _) => OpenKeepsStuck(s, h, id);
    case AtDocument(_) =>
    case AtCloseButton(_) =>
    case AtOverlay(_) =>
  }

  /** Any sequence of events and callbacks, in any order. */
  datatype Step = Deliver(ev: Event) | RunPending(index: nat)

  /** The state after `steps`; a `RunPending` whose index is out of range is skipped. */
  function Run(s: State, steps: seq<Step>): State
    decreases |steps|
  {
    if steps == [] then s
    else
      var s1 := match steps[0]
        case Deliver(ev) => Dispatch(s, ev)
        case RunPending(i) => if i < |s.dom.pending| then Fire(s, i) else s;
      Run(s1, steps[1..])
  }

  /** A stuck overlay stays attached, and stays not active, through every run. */
  lemma {:induction false} RunKeepsStuck(s: State, h: Handle, steps: seq<Step>)
    requires Stuck(s, h)
    ensures Stuck(Run(s, steps), h)
    ensures h in Run(s, steps).dom.body
    decreases |steps|
  {
    if steps != [] {
      match steps[0]
      case Deliver(ev) =>
        DispatchKeepsStuck(s, h, ev);
        RunKeepsStuck(Dispatch(s, ev), h, steps[1..]);
      case RunPending(i) =>
        if i < |s.dom.pending| {
          FireKeepsStuck(s, h, i);
          RunKeepsStuck(Fire(s, i), h, steps[1..]);
        } else {
          RunKeepsStuck(s, h, steps[1..]);
        }
    }
  }

  /** The race of `OrphanedOverlay` right after the first teardown of "a": the frame of "b" may still be pending. */
  function AfterFirstTeardown(): State {
    Fire(OpenedBWhileClosingA(), 0)
  }

  /**
   * Once the first teardown of "a" has run, overlay "b" is stuck, so no later event or
   * callback, in any order, ever detaches it or makes it active again.
   */
  lemma OrphanStaysAttached(steps: seq<Step>)
    ensures 1 in Run(AfterFirstTeardown(), steps).dom.body
    ensures Run(AfterFirstTeardown(), steps).activePortal != Some(1)
  {
    AfterFirstTeardownStuck();
    RunKeepsStuck(AfterFirstTeardown(), 1, steps);
  }

  /** The state of the race before the first teardown of "a" is reachable, so valid. */
  lemma OpenedBValid()
    ensures Valid(OpenedBWhileClosingA())
  {
    InitialValid(map["a" := TemplateA(), "b" := TemplateB()], "");
    var s1 := Open(TwoTemplates(), "a");
    OpenValid(TwoTemplates(), "a");
    assert s1.dom.pending == [AddOpenClasses(0)];
    FireValid(s1, 0);
    CloseValid(Fire(s1, 0));
    ReachClosingA();
    OpenValid(ClosingA(), "b");
    ReachOpenedB();
  }

  /** Right after the first teardown of "a", overlay "b" is stuck. */
  lemma AfterFirstTeardownStuck()
    ensures Stuck(AfterFirstTeardown(), 1)
  {
    OpenedBValid();
    FireValid(OpenedBWhileClosingA(), 0);
    var t := AfterFirstTeardown();
    assert Without([0, 1], 0) == [1] by {
      assert Without([0, 1], 0) == Without([1], 0);
      assert Without([1], 0) == [1] + Without([], 0);
    }
    assert t.dom.pending == [Teardown(0), AddOpenClasses(1)];
  }

  /**
   * Open "a" and then "b" before the next frame: the frame queued for "a" runs after
   * `open("b")` has closed "a", and puts the open classes back on it, so two overlays
   * carry `portal-open` at once until the teardown of "a" runs.
   */
  lemma TwoOpenOverlays()
    ensures var s2 := Open(Open(TwoTemplates(), "a"), "b");
      && s2.dom.pending == [AddOpenClasses(0), Teardown(0), AddOpenClasses(1)]
      && var s3 := Fire(Fire(s2, 0), 1);
      && s3.dom.body == [0, 1]
      && OverlayOpenClass in s3.dom.nodes[0].classes
      && OverlayOpenClass in s3.dom.nodes[1].classes
  {
    var s1 := Open(TwoTemplates(), "a");
    assert s1.dom.pending == [AddOpenClasses(0)];
    var c1 := Close(s1);
    assert Resolve(c1.dom, "b") == Some(TemplateB());
    var s2 := Open(s1, "b");
    assert s2.dom.pending == [AddOpenClasses(0), Teardown(0), AddOpenClasses(1)];
    var t := Fire(s2, 0);
    assert t.dom.pending == [Teardown(0), AddOpenClasses(1)];
  }
}
