/**
 * The `Portal` class of src/portal.js: the controller object whose methods update its
 * own fields and the document in place. Every method is proved to move the object
 * from a state to the state module PortalSpec's function of the same name gives.
 */
module Portal {
  import opened Common
  import opened PortalSpec

  /** An element carrying `data-portal-target`, with its layout box and inline padding. */
  datatype Trigger = Trigger(targetId: string, width: real, height: real, padding: Option<real>)

  /** A trigger after `ensureTouchTarget`: padded when its box is under 44 on either side. */
  function Padded(t: Trigger): Trigger {
    match TouchPadding(t.width, t.height)
    case None => t
    case Some(p) => t.(padding := Some(p))
  }

  class Portal {
    var activePortal: Option<Handle>
    var activeContent: Option<Element>
    var dom: Dom
    var triggers: seq<Trigger>

    function Snapshot(): State
      reads this
    {
      State(activePortal, activeContent, dom)
    }

    /** `new Portal()` on a page: no portal active, then `init` pads every trigger. */
    constructor (page: map<string, Element>, found: seq<Trigger>, overflow: string)
      ensures Snapshot() == Initial(page, overflow)
      ensures |triggers| == |found|
      ensures forall k :: 0 <= k < |found| ==> triggers[k] == Padded(found[k])
    {
      activePortal := None;
      activeContent := None;
      dom := Dom(page, map[], [], overflow, [], 0);
      triggers := found;
      new;
      Init();
    }

    /**
     * The part of `init` that changes state: each trigger gets its touch-target padding.
     * The listeners it registers are modelled by `HandleEvent`.
     */
    method Init()
      modifies this`triggers
      ensures |triggers| == |old(triggers)|
      ensures forall k :: 0 <= k < |triggers| ==> triggers[k] == Padded(old(triggers)[k])
    {
      var k := 0;
      while k < |triggers|
        invariant 0 <= k <= |triggers| == |old(triggers)|
        invariant forall j :: 0 <= j < k ==> triggers[j] == Padded(old(triggers)[j])
        invariant forall j :: k <= j < |triggers| ==> triggers[j] == old(triggers)[j]
      {
        EnsureTouchTarget(k);
        k := k + 1;
      }
    }

    /** Give trigger `k` the touch padding of its measured box, leaving every other trigger alone. */
    method EnsureTouchTarget(k: nat)
      requires k < |triggers|
      modifies this`triggers
      ensures triggers == old(triggers)[k := Padded(old(triggers)[k])]
    {
      var t := triggers[k];
      if t.width < MinTouchSize || t.height < MinTouchSize {
        var padding := TouchPadding(t.width, t.height);
        triggers := triggers[k := t.(padding := padding)];
      }
    }

    method Open(targetId: string)
      modifies this
      ensures Snapshot() == PortalSpec.Open(old(Snapshot()), targetId)
      ensures triggers == old(triggers)
    {
      ghost var s0 := Snapshot();
      if activePortal.Some? {
        Close();
      }
      ghost var s1 := Snapshot();
      assert s1 == if s0.activePortal.Some? then PortalSpec.Close(s0) else s0;
      var portalContent := Resolve(dom, targetId);
      if portalContent.None? {
        return;
      }
      var template := portalContent.value;
      var content := Element(targetId + "-content", {ContentClass}, "", template.markup);
      var closeBtn := CloseControl({CloseClass}, "Close portal", "button", TouchPadding(0.0, 0.0));
      var container := Container({ContainerClass}, "dialog", "true", targetId + "-title", []);
      container := container.(children := container.children + [closeBtn]);
      container := container.(children := container.children + [ContentNode(content)]);
      var overlay := Overlay({OverlayClass}, "false", container);
      assert overlay == Build(targetId, template);
      var h := dom.nextHandle;
      dom := dom.(nodes := dom.nodes[h := overlay], body := dom.body + [h], nextHandle := h + 1);
      activePortal := Some(h);
      activeContent := Some(content);
      dom := dom.(pending := dom.pending + [AddOpenClasses(h)]);
      dom := dom.(overflow := "hidden");
    }

    method Close()
      modifies this
      ensures Snapshot() == PortalSpec.Close(old(Snapshot()))
      ensures triggers == old(triggers)
    {
      if activePortal.None? {
        return;
      }
      var h := activePortal.value;
      if h in dom.nodes {
        var overlay := dom.nodes[h];
        overlay := overlay.(classes := overlay.classes - {OverlayOpenClass});
        overlay := overlay.(container := overlay.container.(classes := overlay.container.classes - {ContainerOpenClass}));
        dom := dom.(nodes := dom.nodes[h := overlay]);
      }
      dom := dom.(pending := dom.pending + [Teardown(h)]);
    }

    /** The browser runs the pending frame or timer callback at position `i`. */
    method RunCallback(i: nat)
      requires i < |dom.pending|
      modifies this
      ensures Snapshot() == Fire(old(Snapshot()), i)
      ensures triggers == old(triggers)
    {
      var task := dom.pending[i];
      dom := dom.(pending := RemoveAt(dom.pending, i));
      match task
      case AddOpenClasses(h) =>
        if h in dom.nodes {
          var overlay := dom.nodes[h];
          overlay := overlay.(classes := overlay.classes + {OverlayOpenClass});
          overlay := overlay.(container := overlay.container.(classes := overlay.container.classes + {ContainerOpenClass}));
          dom := dom.(nodes := dom.nodes[h := overlay]);
        }
      case Teardown(h) =>
        dom := dom.(body := Without(dom.body, h));
        dom := dom.(overflow := "");
        activePortal := None;
        activeContent := None;
    }

    /** One event delivered to the listeners `init` and `open` registered. */
    method HandleEvent(ev: Event)
      modifies this
      ensures Snapshot() == Dispatch(old(Snapshot()), ev)
      ensures triggers == old(triggers)
    {
      match ev
      case AtTrigger(id, input) =>
        if Activates(input) {
          Open(id);
        } else if input.key == "Escape" && activePortal.Some? {
          Close();
        }
      case AtDocument(key) =>
        if key == "Escape" && activePortal.Some? {
          Close();
        }
      case AtCloseButton(input) =>
        if Activates(input) {
          Close();
        } else if input.key == "Escape" && activePortal.Some? {
          Close();
        }
      case AtOverlay(onBackground) =>
        if onBackground {
          Close();
        }
    }

  }
}
