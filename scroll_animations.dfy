/**
 * src/scrollAnimations.js: the fade-in and staggered reveal observers, the navigation
 * highlight observer, and the two frame throttles behind the scroll listeners.
 *
 * Page elements are positions in `classes`; an observer callback receives a batch of
 * entries, each naming an element and whether it intersects. Intersection geometry is
 * the browser's business and comes in as that flag.
 */
module ScrollAnimations {
  import opened Common

  const FadeHidden := "fade-in-hidden"
  const FadeVisible := "fade-in-visible"
  const RevealHidden := "reveal-hidden"
  const RevealVisible := "reveal-visible"
  const ActiveLink := "active"
  const StaggerStep: nat := 100

  datatype Entry = Entry(target: nat, isIntersecting: bool)

  /** A callback handed to the browser: a staggered reveal, or one of the two throttled frames. */
  datatype ScrollTask = RevealLater(target: nat, delay: nat) | ProgressFrame | ParallaxFrame

  datatype Link = Link(href: string, classes: set<string>)

  predicate TargetsIn(entries: seq<Entry>, n: nat) {
    forall i :: 0 <= i < |entries| ==> entries[i].target < n
  }

  // ---------------------------------------------------------------------------
  // Fade-in observer
  // ---------------------------------------------------------------------------

  /** One entry of the fade-in callback: an intersecting target is revealed and unobserved. */
  function FadeStep(cs: seq<set<string>>, observed: set<nat>, e: Entry): (seq<set<string>>, set<nat>)
    requires e.target < |cs|
  {
    if e.isIntersecting then (cs[e.target := cs[e.target] + {FadeVisible}], observed - {e.target})
    else (cs, observed)
  }

  /** The fade-in callback over a whole batch, entry after entry (`entries.forEach`). */
  function FadeBatch(cs: seq<set<string>>, observed: set<nat>, entries: seq<Entry>): (r: (seq<set<string>>, set<nat>))
    requires TargetsIn(entries, |cs|)
    ensures |r.0| == |cs|
  {
    if entries == [] then (cs, observed)
    else
      var prev := FadeBatch(cs, observed, entries[..|entries| - 1]);
      FadeStep(prev.0, prev.1, entries[|entries| - 1])
  }

  predicate IntersectsIn(entries: seq<Entry>, t: nat) {
    exists i :: 0 <= i < |entries| && entries[i].target == t && entries[i].isIntersecting
  }

  /**
   * After a batch, an element with an intersecting entry has `fade-in-visible` and is no
   * longer observed, so it is revealed once; any other element keeps its classes and its
   * observation.
   */
  lemma {:induction false} FadeBatchEffect(cs: seq<set<string>>, observed: set<nat>, entries: seq<Entry>, t: nat)
    requires TargetsIn(entries, |cs|)
    requires t < |cs|
    ensures var r := FadeBatch(cs, observed, entries);
      && r.1 <= observed
      && (IntersectsIn(entries, t) ==> r.0[t] == cs[t] + {FadeVisible} && t !in r.1)
      && (!IntersectsIn(entries, t) ==> r.0[t] == cs[t] && (t in r.1 <==> t in observed))
  {
    if entries != [] {
      var init := entries[..|entries| - 1];
      var last := entries[|entries| - 1];
      FadeBatchEffect(cs, observed, init, t);
      assert forall i :: 0 <= i < |init| ==> init[i] == entries[i];
      assert IntersectsIn(init, t) ==> IntersectsIn(entries, t);
    }
  }

  // ---------------------------------------------------------------------------
  // Staggered reveal observer
  // ---------------------------------------------------------------------------

  /**
   * The stagger callback over a batch: the entry at position `i`, if it intersects, gets
   * a reveal delayed by `i * 100` and is unobserved at once.
   */
  function StaggerBatch(observed: set<nat>, pending: seq<ScrollTask>, entries: seq<Entry>): (r: (set<nat>, seq<ScrollTask>))
    ensures r.0 <= observed
    ensures |r.1| >= |pending| && r.1[..|pending|] == pending
  {
    if entries == [] then (observed, pending)
    else
      var index := |entries| - 1;
      var prev := StaggerBatch(observed, pending, entries[..index]);
      var e := entries[index];
      if e.isIntersecting then (prev.0 - {e.target}, prev.1 + [RevealLater(e.target, index * StaggerStep)])
      else prev
  }

  /** The number of intersecting entries in a batch. */
  function IntersectingCount(entries: seq<Entry>): (n: nat)
    ensures n <= |entries|
  {
    if entries == [] then 0
    else IntersectingCount(entries[..|entries| - 1]) + (if entries[|entries| - 1].isIntersecting then 1 else 0)
  }

  /**
   * Exactly one reveal is queued per intersecting entry: the entry at position `i` has
   * queued a reveal of its target delayed by `i * 100` and is unobserved; every queued
   * reveal comes from such an entry; an element without an intersecting entry stays
   * observed as it was.
   */
  lemma {:induction false} StaggerBatchEffect(observed: set<nat>, pending: seq<ScrollTask>, entries: seq<Entry>)
    ensures var r := StaggerBatch(observed, pending, entries);
      && |r.1| == |pending| + IntersectingCount(entries)
      && (forall i :: 0 <= i < |entries| && entries[i].isIntersecting ==>
            RevealLater(entries[i].target, i * StaggerStep) in r.1[|pending|..] && entries[i].target !in r.0)
      && (forall k :: |pending| <= k < |r.1| ==>
            exists i :: 0 <= i < |entries| && entries[i].isIntersecting
                        && r.1[k] == RevealLater(entries[i].target, i * StaggerStep))
      && (forall t :: t in observed && !IntersectsIn(entries, t) ==> t in r.0)
  {
    if entries != [] {
      var index := |entries| - 1;
      var init := entries[..index];
      StaggerBatchEffect(observed, pending, init);
      var prev := StaggerBatch(observed, pending, init);
      var r := StaggerBatch(observed, pending, entries);
      var e := entries[index];
      assert forall i :: 0 <= i < index ==> init[i] == entries[i];
      assert prev.1[|pending|..] <= r.1[|pending|..];
      forall i | 0 <= i < |entries| && entries[i].isIntersecting
        ensures RevealLater(entries[i].target, i * StaggerStep) in r.1[|pending|..] && entries[i].target !in r.0
      {
        if i < index {
          assert init[i] == entries[i];
          var x := RevealLater(entries[i].target, i * StaggerStep);
          var k :| 0 <= k < |prev.1[|pending|..]| && prev.1[|pending|..][k] == x;
          assert r.1[|pending|..][k] == x;
        } else {
          assert r.1[|r.1| - 1] == RevealLater(e.target, index * StaggerStep);
          assert r.1[|pending|..][|r.1| - 1 - |pending|] == r.1[|r.1| - 1];
        }
      }
      assert forall t :: IntersectsIn(init, t) ==> IntersectsIn(entries, t);
      forall k | |pending| <= k < |r.1|
        ensures exists i :: 0 <= i < |entries| && entries[i].isIntersecting
                            && r.1[k] == RevealLater(entries[i].target, i * StaggerStep)
      {
        if k < |prev.1| {
          var i :| 0 <= i < |init| && init[i].isIntersecting
                   && prev.1[k] == RevealLater(init[i].target, i * StaggerStep);
          assert r.1[k] == prev.1[k];
          assert entries[i] == init[i];
        } else {
          assert r.1[k] == RevealLater(e.target, index * StaggerStep);
        }
      }
    }
  }

  // ---------------------------------------------------------------------------
  // Navigation highlight observer
  // ---------------------------------------------------------------------------

  /** The `href` a link needs to be highlighted for an element: `#` and its id, or `#null` when it has none. */
  function Anchor(id: Option<string>): string {
    "#" + match id case Some(x) => x case None => "null"
  }

  /** One pass of the inner loop: every link loses `active`, and the one whose href is `anchor` gets it back. */
  function HighlightOne(l: Link, anchor: string): Link {
    var cleared := l.classes - {ActiveLink};
    l.(classes := if l.href == anchor then cleared + {ActiveLink} else cleared)
  }

  function Highlight(links: seq<Link>, anchor: string): (r: seq<Link>)
    ensures |r| == |links|
  {
    seq(|links|, k requires 0 <= k < |links| => HighlightOne(links[k], anchor))
  }

  /** The nav callback over a batch: each intersecting entry re-highlights all links. */
  function NavBatch(links: seq<Link>, ids: seq<Option<string>>, entries: seq<Entry>): (r: seq<Link>)
    requires TargetsIn(entries, |ids|)
    ensures |r| == |links|
  {
    if entries == [] then links
    else
      var prev := NavBatch(links, ids, entries[..|entries| - 1]);
      var e := entries[|entries| - 1];
      if e.isIntersecting then Highlight(prev, Anchor(ids[e.target])) else prev
  }

  /** The position of the last intersecting entry of a batch. */
  function LastIntersecting(entries: seq<Entry>): (r: Option<nat>)
    ensures r.Some? ==> r.value < |entries| && entries[r.value].isIntersecting
    ensures r.Some? ==> forall j :: r.value < j < |entries| ==> !entries[j].isIntersecting
    ensures r.None? ==> forall j :: 0 <= j < |entries| ==> !entries[j].isIntersecting
  {
    if entries == [] then None
    else if entries[|entries| - 1].isIntersecting then Some(|entries| - 1)
    else LastIntersecting(entries[..|entries| - 1])
  }

  /** A second highlight wipes out the first: only the last anchor counts. */
  lemma HighlightTwice(links: seq<Link>, a: string, b: string)
    ensures Highlight(Highlight(links, a), b) == Highlight(links, b)
  {
    var l2 := Highlight(Highlight(links, a), b);
    forall k | 0 <= k < |links| ensures l2[k] == Highlight(links, b)[k] {
      var c := links[k].classes - {ActiveLink};
      assert Highlight(links, a)[k].classes - {ActiveLink} == c;
    }
  }

  /** The batch's effect is that of its last intersecting entry alone, and a batch without one changes nothing. */
  lemma {:induction false} NavBatchIsLast(links: seq<Link>, ids: seq<Option<string>>, entries: seq<Entry>)
    requires TargetsIn(entries, |ids|)
    ensures LastIntersecting(entries).None? ==> NavBatch(links, ids, entries) == links
    ensures LastIntersecting(entries).Some? ==>
      NavBatch(links, ids, entries) == Highlight(links, Anchor(ids[entries[LastIntersecting(entries).value].target]))
  {
    if entries != [] {
      var init := entries[..|entries| - 1];
      var e := entries[|entries| - 1];
      NavBatchIsLast(links, ids, init);
      if e.isIntersecting {
        var prev := NavBatch(links, ids, init);
        if LastIntersecting(init).Some? {
          HighlightTwice(links, Anchor(ids[init[LastIntersecting(init).value].target]), Anchor(ids[e.target]));
        }
      } else {
        assert LastIntersecting(entries) == LastIntersecting(init);
        if LastIntersecting(init).Some? {
          assert init[LastIntersecting(init).value] == entries[LastIntersecting(init).value];
        }
      }
    }
  }

  /**
   * After a batch with an intersecting entry, a link has `active` exactly when its href
   * is `#` followed by the id of the last intersecting entry's target; its href and its
   * other classes are unchanged. A batch with no intersecting entry changes no link.
   */
  lemma NavBatchEffect(links: seq<Link>, ids: seq<Option<string>>, entries: seq<Entry>)
    requires TargetsIn(entries, |ids|)
    ensures LastIntersecting(entries).None? ==> NavBatch(links, ids, entries) == links
    ensures LastIntersecting(entries).Some? ==>
      var anchor := Anchor(ids[entries[LastIntersecting(entries).value].target]);
      var r := NavBatch(links, ids, entries);
      forall k :: 0 <= k < |links| ==>
        && r[k].href == links[k].href
        && (ActiveLink in r[k].classes <==> links[k].href == anchor)
        && r[k].classes - {ActiveLink} == links[k].classes - {ActiveLink}
  {
    NavBatchIsLast(links, ids, entries);
  }

  // ---------------------------------------------------------------------------
  // The whole page: observers, throttles and pending callbacks
  // ---------------------------------------------------------------------------

  datatype PageState = PageState(
    classes: seq<set<string>>,      // class list of each page element the observers see
    ids: seq<Option<string>>,       // each element's id attribute
    fadeObserved: set<nat>,
    staggerObserved: set<nat>,
    navObserved: set<nat>,
    links: seq<Link>,               // the `nav a[href^="#"]` links
    ticking: bool,
    parallaxTicking: bool,
    lastScrollY: real,
    pending: seq<ScrollTask>)

  predicate AllBelow(s: seq<nat>, n: nat) {
    forall i :: 0 <= i < |s| ==> s[i] < n
  }

  /**
   * The state `initScrollAnimations` sets up: every animated element is marked hidden
   * and observed for fade-in, every paragraph marked and observed for the stagger, every
   * detail section observed for the navigation highlight.
   */
  function InitialPage(cs: seq<set<string>>, ids: seq<Option<string>>, animated: seq<nat>, paragraphs: seq<nat>,
                       sections: seq<nat>, links: seq<Link>, scrollY: real): PageState
    requires |ids| == |cs|
  {
    PageState(
      seq(|cs|, k requires 0 <= k < |cs| =>
        cs[k] + (if k in animated then {FadeHidden} else {}) + (if k in paragraphs then {RevealHidden} else {})),
      ids,
      (set x | x in animated), (set x | x in paragraphs), (set x | x in sections),
      links, false, false, scrollY, [])
  }

  /** The two scroll listeners, in the order they are registered. */
  function OnScroll(s: PageState): PageState {
    var s1 := if !s.ticking then s.(pending := s.pending + [ProgressFrame], ticking := true) else s;
    if !s1.parallaxTicking then s1.(pending := s1.pending + [ParallaxFrame], parallaxTicking := true) else s1
  }

  /** Run the pending callback at `i`; `scrollY` is the offset at that moment. */
  function FireScroll(s: PageState, i: nat, scrollY: real): PageState
    requires i < |s.pending|
  {
    var s1 := s.(pending := RemoveAt(s.pending, i));
    match s.pending[i]
    case RevealLater(t, _) =>
      if t < |s1.classes| then s1.(classes := s1.classes[t := s1.classes[t] + {RevealVisible}]) else s1
    case ProgressFrame => s1.(ticking := false)
    case ParallaxFrame => s1.(lastScrollY := scrollY, parallaxTicking := false)
  }

  function HandleFade(s: PageState, entries: seq<Entry>): PageState
    requires TargetsIn(entries, |s.classes|)
  {
    var r := FadeBatch(s.classes, s.fadeObserved, entries);
    s.(classes := r.0, fadeObserved := r.1)
  }

  function HandleStagger(s: PageState, entries: seq<Entry>): PageState {
    var r := StaggerBatch(s.staggerObserved, s.pending, entries);
    s.(staggerObserved := r.0, pending := r.1)
  }

  function HandleNav(s: PageState, entries: seq<Entry>): PageState
    requires TargetsIn(entries, |s.ids|)
  {
    s.(links := NavBatch(s.links, s.ids, entries))
  }

  /** A throttle flag is set exactly while its frame `t` is queued, and it is never queued twice. */
  predicate FlagTracks(flag: bool, pending: seq<ScrollTask>, t: ScrollTask) {
    (flag <==> t in pending) && Count(pending, t) <= 1
  }

  /** Every queued reveal names an element of the page. */
  predicate RevealsBelow(pending: seq<ScrollTask>, n: nat) {
    forall k :: 0 <= k < |pending| && pending[k].RevealLater? ==> pending[k].target < n
  }

  ghost predicate PageValid(s: PageState) {
    && |s.ids| == |s.classes|
    && FlagTracks(s.ticking, s.pending, ProgressFrame)
    && FlagTracks(s.parallaxTicking, s.pending, ParallaxFrame)
    && RevealsBelow(s.pending, |s.classes|)
  }

  lemma FlagAppend(flag: bool, pending: seq<ScrollTask>, t: ScrollTask, u: ScrollTask)
    requires FlagTracks(flag, pending, t)
    requires u == t ==> !flag
    ensures FlagTracks(flag || u == t, pending + [u], t)
  {
    CountAppend(pending, [u], t);
  }

  lemma FlagRemove(flag: bool, pending: seq<ScrollTask>, i: nat, t: ScrollTask)
    requires FlagTracks(flag, pending, t)
    requires i < |pending|
    ensures FlagTracks(flag && pending[i] != t, RemoveAt(pending, i), t)
  {
    CountRemoveAt(pending, i, t);
  }

  lemma InitialPageValid(cs: seq<set<string>>, ids: seq<Option<string>>, animated: seq<nat>, paragraphs: seq<nat>,
                         sections: seq<nat>, links: seq<Link>, scrollY: real)
    requires |ids| == |cs|
    ensures PageValid(InitialPage(cs, ids, animated, paragraphs, sections, links, scrollY))
    ensures var s := InitialPage(cs, ids, animated, paragraphs, sections, links, scrollY);
      && (forall k :: 0 <= k < |animated| && animated[k] < |cs| ==>
            FadeHidden in s.classes[animated[k]] && animated[k] in s.fadeObserved)
      && (forall k :: 0 <= k < |paragraphs| && paragraphs[k] < |cs| ==>
            RevealHidden in s.classes[paragraphs[k]] && paragraphs[k] in s.staggerObserved)
      && (forall k :: 0 <= k < |sections| ==> sections[k] in s.navObserved)
      && (forall k :: 0 <= k < |cs| ==> cs[k] <= s.classes[k])
      && !s.ticking && !s.parallaxTicking && s.lastScrollY == scrollY && s.pending == []
  {
  }

  /**
   * The throttles: a scroll queues a progress frame only when none is queued, and a
   * parallax frame likewise, so afterwards exactly one of each is pending.
   */
  lemma OnScrollThrottles(s: PageState)
    requires PageValid(s)
    ensures PageValid(OnScroll(s))
    ensures Count(OnScroll(s).pending, ProgressFrame) == 1
    ensures Count(OnScroll(s).pending, ParallaxFrame) == 1
    ensures s.ticking && s.parallaxTicking ==> OnScroll(s) == s
  {
    var s1 := if !s.ticking then s.(pending := s.pending + [ProgressFrame], ticking := true) else s;
    if !s.ticking {
      FlagAppend(s.ticking, s.pending, ProgressFrame, ProgressFrame);
      FlagAppend(s.parallaxTicking, s.pending, ParallaxFrame, ProgressFrame);
    }
    assert FlagTracks(s1.ticking, s1.pending, ProgressFrame) && s1.ticking;
    assert FlagTracks(s1.parallaxTicking, s1.pending, ParallaxFrame);
    assert RevealsBelow(s1.pending, |s1.classes|);
    if !s1.parallaxTicking {
      FlagAppend(s1.ticking, s1.pending, ProgressFrame, ParallaxFrame);
      FlagAppend(s1.parallaxTicking, s1.pending, ParallaxFrame, ParallaxFrame);
    }
  }

  lemma FireScrollValid(s: PageState, i: nat, scrollY: real)
    requires PageValid(s)
    requires i < |s.pending|
    ensures PageValid(FireScroll(s, i, scrollY))
  {
    FlagRemove(s.ticking, s.pending, i, ProgressFrame);
    FlagRemove(s.parallaxTicking, s.pending, i, ParallaxFrame);
    var rest := RemoveAt(s.pending, i);
    assert RevealsBelow(rest, |s.classes|) by {
      forall k | 0 <= k < |rest| && rest[k].RevealLater? ensures rest[k].target < |s.classes| {
        if k < i { assert rest[k] == s.pending[k]; } else { assert rest[k] == s.pending[k + 1]; }
      }
    }
  }

  /**
   * The progress frame clears `ticking`; the parallax frame records the offset it read
   * in `lastScrollY` and clears `parallaxTicking`; nothing else changes either.
   */
  lemma FrameEffects(s: PageState, i: nat, scrollY: real)
    requires i < |s.pending|
    ensures s.pending[i] == ProgressFrame ==>
      FireScroll(s, i, scrollY) == s.(ticking := false, pending := RemoveAt(s.pending, i))
    ensures s.pending[i] == ParallaxFrame ==>
      FireScroll(s, i, scrollY) == s.(lastScrollY := scrollY, parallaxTicking := false, pending := RemoveAt(s.pending, i))
    ensures !s.pending[i].ParallaxFrame? ==> FireScroll(s, i, scrollY).lastScrollY == s.lastScrollY
  {
  }

  /** A delayed reveal, when it runs, adds `reveal-visible` to its element and to no other. */
  lemma RevealEffect(s: PageState, i: nat, scrollY: real)
    requires PageValid(s)
    requires i < |s.pending| && s.pending[i].RevealLater?
    ensures var t := s.pending[i].target; var s' := FireScroll(s, i, scrollY);
      && |s'.classes| == |s.classes|
      && s'.classes[t] == s.classes[t] + {RevealVisible}
      && (forall k :: 0 <= k < |s.classes| && k != t ==> s'.classes[k] == s.classes[k])
  {
  }

  /** Every observer callback keeps the invariant, and only the stagger callback queues anything. */
  lemma ObserversKeepValid(s: PageState, entries: seq<Entry>)
    requires PageValid(s)
    requires TargetsIn(entries, |s.classes|)
    ensures PageValid(HandleFade(s, entries)) && HandleFade(s, entries).pending == s.pending
    ensures PageValid(HandleStagger(s, entries))
    ensures PageValid(HandleNav(s, entries)) && HandleNav(s, entries).pending == s.pending
  {
    StaggerKeepsValid(s, entries);
  }

  lemma {:induction false} StaggerKeepsValid(s: PageState, entries: seq<Entry>)
    requires PageValid(s)
    requires TargetsIn(entries, |s.classes|)
    ensures PageValid(HandleStagger(s, entries))
    ensures HandleStagger(s, entries).classes == s.classes
  {
    if entries != [] {
      var index := |entries| - 1;
      var init := entries[..index];
      assert TargetsIn(init, |s.classes|) by {
        assert forall i :: 0 <= i < |init| ==> init[i] == entries[i];
      }
      StaggerKeepsValid(s, init);
      var prev := HandleStagger(s, init);
      var e := entries[index];
      if e.isIntersecting {
        var task := RevealLater(e.target, index * StaggerStep);
        FlagAppend(prev.ticking, prev.pending, ProgressFrame, task);
        FlagAppend(prev.parallaxTicking, prev.pending, ParallaxFrame, task);
      }
    }
  }

  // ---------------------------------------------------------------------------
  // The imperative page controller
  // ---------------------------------------------------------------------------

  /** The variables and DOM state `initScrollAnimations` sets up and its callbacks update in place. */
  class ScrollAnimator {
    var classes: seq<set<string>>
    const ids: seq<Option<string>>
    var fadeObserved: set<nat>
    var staggerObserved: set<nat>
    var navObserved: set<nat>
    var links: seq<Link>
    var ticking: bool
    var parallaxTicking: bool
    var lastScrollY: real
    var pending: seq<ScrollTask>

    function Snapshot(): PageState
      reads this
    {
      PageState(classes, ids, fadeObserved, staggerObserved, navObserved, links,
                ticking, parallaxTicking, lastScrollY, pending)
    }

    /**
     * `initScrollAnimations`: `animated`, `paragraphs` and `sections` are the positions the
     * three selectors match, `scrollY` the offset at start-up.
     */
    constructor (cs: seq<set<string>>, elementIds: seq<Option<string>>, animated: seq<nat>, paragraphs: seq<nat>,
                 sections: seq<nat>, navLinks: seq<Link>, scrollY: real)
      requires |elementIds| == |cs|
      requires AllBelow(animated, |cs|) && AllBelow(paragraphs, |cs|) && AllBelow(sections, |cs|)
      ensures Snapshot() == InitialPage(cs, elementIds, animated, paragraphs, sections, navLinks, scrollY)
    {
      ids := elementIds;
      classes := cs;
      fadeObserved := {};
      staggerObserved := {};
      navObserved := {};
      links := navLinks;
      ticking := false;
      parallaxTicking := false;
      lastScrollY := scrollY;
      pending := [];
      new;
      ObserveFade(animated);
      ObserveStagger(paragraphs);
      ObserveNav(sections);
      assert classes == InitialPage(cs, elementIds, animated, paragraphs, sections, navLinks, scrollY).classes;
    }

    /** `animateElements.forEach`: add `fade-in-hidden` and observe each matched element. */
    method ObserveFade(animated: seq<nat>)
      requires AllBelow(animated, |classes|)
      modifies this`classes, this`fadeObserved
      ensures |classes| == |old(classes)|
      ensures forall k :: 0 <= k < |classes| ==> classes[k] == old(classes)[k] + (if k in animated then {FadeHidden} else {})
      ensures fadeObserved == old(fadeObserved) + (set x | x in animated)
    {
      var i := 0;
      while i < |animated|
        invariant 0 <= i <= |animated|
        invariant |classes| == |old(classes)|
        invariant forall k :: 0 <= k < |classes| ==> classes[k] == old(classes)[k] + (if k in animated[..i] then {FadeHidden} else {})
        invariant fadeObserved == old(fadeObserved) + (set x | x in animated[..i])
      {
        assert animated[..i + 1] == animated[..i] + [animated[i]];
        classes := classes[animated[i] := classes[animated[i]] + {FadeHidden}];
        fadeObserved := fadeObserved + {animated[i]};
        i := i + 1;
      }
      assert animated[..i] == animated;
    }

    /** `paragraphs.forEach`: add `reveal-hidden` and observe each matched paragraph. */
    method ObserveStagger(paragraphs: seq<nat>)
      requires AllBelow(paragraphs, |classes|)
      modifies this`classes, this`staggerObserved
      ensures |classes| == |old(classes)|
      ensures forall k :: 0 <= k < |classes| ==> classes[k] == old(classes)[k] + (if k in paragraphs then {RevealHidden} else {})
      ensures staggerObserved == old(staggerObserved) + (set x | x in paragraphs)
    {
      var i := 0;
      while i < |paragraphs|
        invariant 0 <= i <= |paragraphs|
        invariant |classes| == |old(classes)|
        invariant forall k :: 0 <= k < |classes| ==> classes[k] == old(classes)[k] + (if k in paragraphs[..i] then {RevealHidden} else {})
        invariant staggerObserved == old(staggerObserved) + (set x | x in paragraphs[..i])
      {
        assert paragraphs[..i + 1] == paragraphs[..i] + [paragraphs[i]];
        classes := classes[paragraphs[i] := classes[paragraphs[i]] + {RevealHidden}];
        staggerObserved := staggerObserved + {paragraphs[i]};
        i := i + 1;
      }
      assert paragraphs[..i] == paragraphs;
    }

    /** `sections.forEach(section => navObserver.observe(section))`. */
    method ObserveNav(sections: seq<nat>)
      modifies this`navObserved
      ensures navObserved == old(navObserved) + (set x | x in sections)
    {
      var i := 0;
      while i < |sections|
        invariant 0 <= i <= |sections|
        invariant navObserved == old(navObserved) + (set x | x in sections[..i])
      {
        assert sections[..i + 1] == sections[..i] + [sections[i]];
        navObserved := navObserved + {sections[i]};
        i := i + 1;
      }
      assert sections[..i] == sections;
    }

    method HandleFadeEntries(entries: seq<Entry>)
      requires TargetsIn(entries, |classes|)
      modifies this`classes, this`fadeObserved
      ensures Snapshot() == HandleFade(old(Snapshot()), entries)
    {
      var i := 0;
      while i < |entries|
        invariant 0 <= i <= |entries|
        invariant (classes, fadeObserved) == FadeBatch(old(classes), old(fadeObserved), entries[..i])
      {
        assert entries[..i + 1][..i] == entries[..i];
        var entry := entries[i];
        if entry.isIntersecting {
          classes := classes[entry.target := classes[entry.target] + {FadeVisible}];
          fadeObserved := fadeObserved - {entry.target};
        }
        i := i + 1;
      }
      assert entries[..i] == entries;
    }

    method HandleStaggerEntries(entries: seq<Entry>)
      modifies this`staggerObserved, this`pending
      ensures Snapshot() == HandleStagger(old(Snapshot()), entries)
    {
      var index := 0;
      while index < |entries|
        invariant 0 <= index <= |entries|
        invariant (staggerObserved, pending) == StaggerBatch(old(staggerObserved), old(pending), entries[..index])
      {
        assert entries[..index + 1][..index] == entries[..index];
        var entry := entries[index];
        if entry.isIntersecting {
          pending := pending + [RevealLater(entry.target, index * StaggerStep)];
          staggerObserved := staggerObserved - {entry.target};
        }
        index := index + 1;
      }
      assert entries[..index] == entries;
    }

    method HandleNavEntries(entries: seq<Entry>)
      requires TargetsIn(entries, |ids|)
      modifies this`links
      ensures Snapshot() == HandleNav(old(Snapshot()), entries)
    {
      var i := 0;
      while i < |entries|
        invariant 0 <= i <= |entries|
        invariant links == NavBatch(old(links), ids, entries[..i])
      {
        assert entries[..i + 1][..i] == entries[..i];
        var entry := entries[i];
        if entry.isIntersecting {
          var id := ids[entry.target];
          HighlightLinks(Anchor(id));
        }
        i := i + 1;
      }
      assert entries[..i] == entries;
    }

    /** The inner `navLinks.forEach`: clear `active` on every link, then set it on those whose href is `anchor`. */
    method HighlightLinks(anchor: string)
      modifies this`links
      ensures links == Highlight(old(links), anchor)
    {
      var j := 0;
      while j < |links|
        invariant 0 <= j <= |links| == |old(links)|
        invariant forall k :: 0 <= k < j ==> links[k] == HighlightOne(old(links)[k], anchor)
        invariant forall k :: j <= k < |links| ==> links[k] == old(links)[k]
      {
        var link := links[j];
        link := link.(classes := link.classes - {ActiveLink});
        if link.href == anchor {
          link := link.(classes := link.classes + {ActiveLink});
        }
        links := links[j := link];
        j := j + 1;
      }
    }

    method HandleScroll()
      modifies this`ticking, this`parallaxTicking, this`pending
      ensures Snapshot() == OnScroll(old(Snapshot()))
    {
      if !ticking {
        pending := pending + [ProgressFrame];
        ticking := true;
      }
      if !parallaxTicking {
        pending := pending + [ParallaxFrame];
        parallaxTicking := true;
      }
    }

    method RunCallback(i: nat, scrollY: real)
      requires i < |pending|
      modifies this`classes, this`pending, this`ticking, this`parallaxTicking, this`lastScrollY
      ensures Snapshot() == FireScroll(old(Snapshot()), i, scrollY)
    {
      var task := pending[i];
      pending := RemoveAt(pending, i);
      match task
      case RevealLater(t, _) =>
        if t < |classes| {
          classes := classes[t := classes[t] + {RevealVisible}];
        }
      case ProgressFrame =>
        ticking := false;
      case ParallaxFrame =>
        lastScrollY := scrollY;
        parallaxTicking := false;
    }
  }
}
