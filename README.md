# A Dafny model of the DOM-side controllers of cosmiccaducen

The site's interactive behaviour, apart from the three.js scene, lives in three small
browser scripts. This project models them over an abstract document and proves what
they do:

- `src/portal.js` — the `Portal` class that opens a template element's content in a
  modal overlay and closes it again. The overlay gets its open classes in an animation
  frame and is torn down by a 300 ms timer.
- `src/uiEnhancements.js` — the back-to-top button with its throttled scroll listener
  and deferred hide, Ctrl+ArrowUp/Down stepping between detail sections, the Escape
  branch of the keyboard listener, and the `keyboard-focus` class toggle.
- `src/scrollAnimations.js` — the fade-in and staggered-reveal observers, the
  navigation highlight observer, and the `ticking` / `parallaxTicking` throttles with
  `lastScrollY`.

The document is reduced to what these scripts read and write: elements with ids,
class sets and a few style fields; overlay nodes and the order in which they are
attached to the body; and the callbacks handed to `requestAnimationFrame` and
`setTimeout` that have not run yet. A pending callback runs only when an explicit
fire step picks it. Any pending callback may be picked, so every order a browser can
produce is covered. Only the stagger delay (`index * 100`) is recorded, on the reveal
callback; the 300 ms timers carry no delay.

Each script has two layers:

- Pure transition functions over a state datatype, for example `PortalSpec.Open` or
  `ScrollAnimations.FireScroll`. Lemmas about them state what the script promises.
- A class whose fields the methods update in place, as the script does: `Portal.Portal`,
  `UiEnhancements.BackToTopButton`, `UiEnhancements.FocusStyles` and
  `ScrollAnimations.ScrollAnimator`. Each method is proved to leave the object in the
  state the matching transition function gives.

Files:

| file | contents |
|---|---|
| `common.dfy` | `Option`, and sequence helpers: removal at an index, removal of a value, counting |
| `portal_spec.dfy` | the portal state machine, touch padding, overlay construction, its invariant |
| `portal_props.dfy` | what `open`, `close` and the callbacks promise; the listener guards; the three places it misbehaves |
| `portal.dfy` | the `Portal` class |
| `ui_enhancements.dfy` | back-to-top, arrow navigation, the Escape branch, focus styles |
| `scroll_animations.dfy` | the three observers, the throttles, and the `ScrollAnimator` class |

Three behaviours of `src/portal.js` are worth knowing. The first follows from the
close animation; the second and third are races between callbacks in which the code
behaves otherwise than it is evidently meant to. The model reproduces all three as
written and does not fix them:

- `open` closes the active portal first (the comment at src/portal.js:59), and
  `close` animates out before detaching, so two overlays are attached until the old
  teardown runs, 300 ms later (`PortalProperties.OpenWhileActiveKeepsOld`).
- One would expect at most one overlay to carry `portal-open`. The code allows two:
  the frame queued by one `open` can run after a second `open` has already closed the
  first overlay (`PortalProperties.TwoOpenOverlays`).
- A teardown queued for an older overlay clears `activePortal` and unlocks scrolling
  while a newer overlay is still attached (`PortalProperties.StaleTeardown`). Open "a",
  close it, and open "b" before the teardown runs: once the first of the two teardowns
  of "a" has run, "b" is stuck, whether or not its own frame has run yet. No later
  event or callback, in any order, detaches it
  (`PortalProperties.OrphanedOverlay`, `PortalProperties.OrphanStaysAttached`).

The Escape branch of `src/uiEnhancements.js` looks for `.portal-overlay.active`. The
portal controller never adds `active` to its overlays, so for the controller's overlays
that branch never fires (`UiEnhancements.EscapeBranchNeverFires`).

## Model

| member | source | states |
|---|---|---|
| PortalSpec.TouchPadding | src/portal.js:48-56 | no padding exactly when both sides of the measured box are at least 44; otherwise the least positive `p` with `w + 2p >= 44` and `h + 2p >= 44` for the measured box `w` x `h` (one of the two is equality) |
| PortalProperties.CloseButtonPadding | src/portal.js:89-95 | the close button is measured while detached, as a 0 x 0 box, so its padding is 22 |
| Portal.Portal.EnsureTouchTarget | src/portal.js:48-56 | only trigger `k` changes, and it gets the touch padding of its measured box |
| Portal.Portal.Init | src/portal.js:13-20 | every trigger is padded by the touch rule; the number of triggers is unchanged |
| Portal.Portal.constructor | src/portal.js:8-11 | no portal active, nothing attached or pending, and every trigger padded |
| PortalSpec.Initial | src/portal.js:8-11 | no contract of its own; stated by `PortalSpec.InitialValid` |
| PortalSpec.Resolve | src/portal.js:64 | the empty id finds nothing; an id the page carries finds the page element; otherwise the attached clones are searched; `PortalProperties.ResolveMissing` states when nothing is found |
| PortalProperties.ResolveMissing | src/portal.js:64-68 | the lookup finds nothing exactly when the id is empty, or neither the page nor any attached overlay's content root carries it |
| PortalSpec.AttachedContentWithId | src/portal.js:64 | a result has the id looked up and is the content root of an attached overlay; `PortalSpec.AttachedContentFirst` states which one |
| PortalSpec.AttachedContentFirst | src/portal.js:64 | the search finds nothing exactly when no attached overlay has a content root with the id, and otherwise finds that of the first one in attachment order |
| PortalSpec.Clone | src/portal.js:83-87 | no contract of its own; stated by `PortalProperties.OpenFoundTarget` and `PortalSpec.BuildWellFormed` |
| PortalSpec.Build | src/portal.js:70-110 | no contract of its own; stated by `PortalSpec.BuildWellFormed` and `PortalProperties.OpenStructure` |
| PortalSpec.Open | src/portal.js:58-132 | no contract of its own; stated by `PortalProperties.OpenFoundTarget`, `PortalProperties.OpenMissingTarget`, `PortalProperties.OpenStructure`, `PortalProperties.OpenWhileActiveKeepsOld` and `PortalSpec.OpenValid` |
| PortalSpec.Close | src/portal.js:134-151 | no contract of its own; stated by `PortalProperties.CloseWithoutPortal`, `PortalProperties.CloseActive` and `PortalSpec.CloseValid` |
| PortalSpec.Fire | src/portal.js:117-150 | no contract of its own; stated by `PortalProperties.FrameAddsOpenClasses`, `PortalProperties.TeardownEffect`, `PortalProperties.StaleTeardown` and `PortalSpec.FireValid` |
| PortalSpec.DocumentKey | src/portal.js:41-45 | no contract of its own; stated by `PortalProperties.EscapeGuard` |
| PortalSpec.Dispatch | src/portal.js:22-128 | no contract of its own; stated by `PortalProperties.EscapeGuard`, `PortalProperties.TriggerGuard`, `PortalProperties.OverlayClickGuard`, `PortalProperties.EscapeSameAsCloseButton` and `PortalSpec.DispatchValid` |
| Portal.Padded | src/portal.js:48-56 | no contract of its own; `PortalSpec.TouchPadding` applied to a trigger, used by `Portal.Portal.EnsureTouchTarget` |
| PortalSpec.InitialValid | src/portal.js:8-11 | the initial state satisfies the controller invariant |
| PortalSpec.BuildWellFormed | src/portal.js:70-110 | the built overlay has a container with two children, the close control then the content, and that content is the clone of the template |
| PortalSpec.OpenValid | src/portal.js:58-132 | `open` keeps the invariant: the active overlay is attached and locks scrolling, `activeContent` is its content, attached overlays are distinct |
| PortalSpec.CloseValid | src/portal.js:134-151 | `close` keeps the invariant |
| PortalSpec.FireValid | src/portal.js:118-150 | running either kind of pending callback keeps the invariant |
| PortalSpec.DispatchValid | src/portal.js:22-128 | every listener keeps the invariant |
| PortalProperties.CloseKeepsLookup | src/portal.js:59-64 | the `close` inside `open` does not change what `getElementById` finds |
| PortalProperties.OpenMissingTarget | src/portal.js:58-68 | an id with no element adds no overlay, keeps overflow and the active portal, and does only the close of an active portal; with none active nothing changes |
| PortalProperties.OpenFoundTarget | src/portal.js:70-115 | a found id attaches exactly one fresh overlay and makes it active; the content clone has id `<id>-content`, class `portal-content`, empty display and the template's markup; page elements are untouched; overflow is `hidden` |
| PortalProperties.OpenStructure | src/portal.js:71-111 | the overlay has class `portal-overlay`, a `dialog` container with `aria-modal` true, labelled by `<id>-title`, holding the close button then the content; neither open class is present yet, and the add-open-classes frame is queued last |
| PortalProperties.OpenWhileActiveKeepsOld | src/portal.js:60-61 | opening while a portal is active leaves the old overlay attached, with its teardown pending, so the body gains one overlay |
| PortalProperties.FrameAddsOpenClasses | src/portal.js:118-121 | the frame callback adds both open classes to its own overlay; every other overlay, the body, overflow, both fields and the page are unchanged, and only that callback leaves the pending list |
| PortalProperties.CloseAddsNoOpenClass | src/portal.js:134-151 | after `close`, any overlay with `portal-open`, or container with `portal-container-open`, already had it before |
| PortalProperties.OpenAddsNoOpenClass | src/portal.js:58-132 | after `open`, any overlay with `portal-open`, or container with `portal-container-open`, already had it before; the new overlay is built without either |
| PortalProperties.ListenersAddNoOpenClass | src/portal.js:22-128 | no listener adds `portal-open` or `portal-container-open`; they appear only when the frame callback runs |
| PortalProperties.TeardownKeepsNodes | src/portal.js:145-150 | a teardown changes no overlay's classes |
| PortalProperties.CloseWithoutPortal | src/portal.js:135 | `close` with no active portal changes nothing |
| PortalProperties.CloseActive | src/portal.js:137-150 | `close` removes both open classes at once and queues exactly one teardown; the overlay stays attached, scrolling stays locked and the portal stays active; no other overlay, no page element and no handle changes |
| PortalProperties.TeardownEffect | src/portal.js:145-150 | a teardown detaches its own overlay and no other, resets overflow and clears both fields |
| PortalProperties.TemplatesUntouched | src/portal.js:83-87 | no listener and no callback changes a page element |
| PortalProperties.OpenPhase | src/portal.js:58-132 | a successful `open` always ends open, whatever phase it started in |
| PortalProperties.ClosePhase | src/portal.js:134-151 | `close` while open or closing ends closing |
| PortalProperties.TeardownPhase | src/portal.js:145-150 | any teardown ends closed |
| PortalProperties.OpenCloseCycle | src/portal.js:58-151 | open, frame, close, teardown from a quiet state: open classes in between, then the body as before, overflow reset and nothing pending |
| PortalProperties.EscapeGuard | src/portal.js:41-45 | the document key listener changes something only on Escape with a portal active, and then it closes |
| PortalProperties.EscapeSameAsCloseButton | src/portal.js:41-45 | Escape and a click on the close button lead to the same state |
| PortalProperties.TriggerGuard | src/portal.js:22-37 | a trigger opens its target on click, Enter or Space; any other key except Escape changes nothing |
| PortalProperties.OverlayClickGuard | src/portal.js:124-128 | a click on the overlay closes only when the overlay itself is the target |
| PortalProperties.StaleTeardown | src/portal.js:58-150 | a teardown for an older overlay clears the active portal and unlocks scrolling while the active overlay stays attached |
| PortalProperties.OrphanedOverlay | src/portal.js:58-150 | open "a", close, open "b" before the teardown: two teardowns of "a" are queued; after the first, "b" is shown open but no portal is active, and Escape, the close button, the background click and the second teardown all leave it attached |
| PortalProperties.CloseKeepsStuck | src/portal.js:134-151 | `close` does not detach an overlay that is attached, inactive and has no pending teardown, and it stays in that condition |
| PortalProperties.OpenKeepsStuck | src/portal.js:58-132 | `open` keeps such an overlay attached and inactive, with no teardown pending for it |
| PortalProperties.FireKeepsStuck | src/portal.js:117-150 | any callback keeps such an overlay attached and inactive, with no teardown pending for it |
| PortalProperties.DispatchKeepsStuck | src/portal.js:22-128 | any listener keeps such an overlay attached and inactive, with no teardown pending for it |
| PortalProperties.RunKeepsStuck | src/portal.js:22-150 | through any sequence of events and callbacks, such an overlay stays attached and inactive |
| PortalProperties.OpenedBValid | src/portal.js:58-150 | the state after open "a", its frame, close and open "b" is reachable, so it satisfies the invariant |
| PortalProperties.AfterFirstTeardownStuck | src/portal.js:134-150 | once the first teardown of "a" has run, overlay "b" is attached, not active, and has no teardown queued |
| PortalProperties.OrphanStaysAttached | src/portal.js:58-150 | in the open "a", close, open "b" race, from the moment the first teardown of "a" has run, overlay "b" stays attached and never becomes active again, whatever runs next |
| PortalProperties.TwoOpenOverlays | src/portal.js:58-121 | open "a" then "b" before the next frame: the late frame puts the open classes back on the closing "a", so both overlays carry `portal-open` |
| Portal.Portal.Open | src/portal.js:58-132 | the object moves to the state `PortalSpec.Open` gives; the triggers are unchanged |
| Portal.Portal.Close | src/portal.js:134-151 | the object moves to the state `PortalSpec.Close` gives |
| Portal.Portal.RunCallback | src/portal.js:117-150 | running pending callback `i` moves the object to `PortalSpec.Fire` of the old state |
| Portal.Portal.HandleEvent | src/portal.js:22-128 | each listener moves the object to `PortalSpec.Dispatch` of the old state |
| UiEnhancements.InitialButton | src/uiEnhancements.js:14-21 | no contract of its own; stated by `UiEnhancements.InitialButtonValid` |
| UiEnhancements.OnScroll | src/uiEnhancements.js:38-43 | no contract of its own; stated by `UiEnhancements.OnScrollThrottles` |
| UiEnhancements.Toggle | src/uiEnhancements.js:22-36 | no contract of its own; stated by `UiEnhancements.ToggleEffect` and `UiEnhancements.ReshowWins` |
| UiEnhancements.Hide | src/uiEnhancements.js:29-33 | no contract of its own; stated by `UiEnhancements.HideRechecks` |
| UiEnhancements.FireButton | src/uiEnhancements.js:22-36 | no contract of its own; stated by `UiEnhancements.FireButtonValid`, `UiEnhancements.ToggleEffect` and `UiEnhancements.HideRechecks` |
| UiEnhancements.InitialButtonValid | src/uiEnhancements.js:14-21 | the button starts hidden, not visible, with nothing pending, and satisfies the invariant |
| UiEnhancements.OnScrollThrottles | src/uiEnhancements.js:38-43 | a scroll while a frame is queued changes nothing; otherwise it queues one frame; either way exactly one is pending and the invariant holds |
| UiEnhancements.FireButtonValid | src/uiEnhancements.js:22-36 | running the frame or the hide keeps the invariant: visible implies `flex`, and `scrollTicking` is set exactly while one frame is queued |
| UiEnhancements.ToggleEffect | src/uiEnhancements.js:22-36 | past 300 the frame sets `flex` and `visible`; at 300 or less it removes `visible`, queues a hide and leaves display for now; it always clears `scrollTicking` |
| UiEnhancements.HideRechecks | src/uiEnhancements.js:29-33 | the deferred hide sets `none` only if the button is still not visible, and changes no class |
| UiEnhancements.ReshowWins | src/uiEnhancements.js:24-33 | scroll up to 300 or less, then back past 300 before the hide runs: the hide leaves the button displayed and visible |
| UiEnhancements.BackToTopButton.constructor | src/uiEnhancements.js:14-21 | the button as created: display `none`, class `back-to-top`, nothing pending |
| UiEnhancements.BackToTopButton.HandleScroll | src/uiEnhancements.js:38-43 | the button moves to `OnScroll` of its old state |
| UiEnhancements.BackToTopButton.ToggleBackToTop | src/uiEnhancements.js:22-36 | the button moves to `Toggle` of its old state at that offset |
| UiEnhancements.BackToTopButton.RunCallback | src/uiEnhancements.js:22-36 | running pending callback `i` moves the button to `FireButton` of its old state |
| UiEnhancements.FirstInView | src/uiEnhancements.js:70-75 | the first section from a position on whose top is in the upper half of the viewport, or none when no later section is |
| UiEnhancements.ArrowNavigation | src/uiEnhancements.js:66-94 | any section it scrolls to exists |
| UiEnhancements.CtrlArrowDown | src/uiEnhancements.js:67-79 | outside a text field, Ctrl+ArrowDown prevents the default and scrolls exactly when a first in-view section exists and is not the last, and then to the next one |
| UiEnhancements.CtrlArrowUp | src/uiEnhancements.js:80-92 | outside a text field, Ctrl+ArrowUp prevents the default and scrolls exactly when a first in-view section exists and is not the first, and then to the previous one |
| UiEnhancements.CurrentSection | src/uiEnhancements.js:70-75 | no contract of its own; `UiEnhancements.FirstInView` from the first section, as `UiEnhancements.FirstIsUnique` states |
| UiEnhancements.FirstIsUnique | src/uiEnhancements.js:70-75 | the first section in view is the one `find` then `indexOf` give |
| UiEnhancements.ArrowGuards | src/uiEnhancements.js:66-94 | in a text field, without Ctrl, or on another key, nothing is scrolled and the default is kept |
| UiEnhancements.EscapeTarget | src/uiEnhancements.js:56 | the first overlay in document order carrying both `portal-overlay` and `active`, with no earlier overlay carrying both; none exactly when no overlay carries both |
| UiEnhancements.AttachedOverlayClasses | src/uiEnhancements.js:56 | no contract of its own; the class lists `querySelector` searches, used by `UiEnhancements.EscapeBranchNeverFires` |
| UiEnhancements.EscapeBranchNeverFires | src/uiEnhancements.js:55-62 | in every state the portal controller can reach, no attached overlay carries `active`, so Escape clicks no close button |
| UiEnhancements.Focused | src/uiEnhancements.js:102-104 | no contract of its own; stated by `UiEnhancements.FocusBlur` |
| UiEnhancements.Blurred | src/uiEnhancements.js:105-107 | no contract of its own; stated by `UiEnhancements.FocusBlur` |
| UiEnhancements.FocusBlur | src/uiEnhancements.js:101-108 | focus adds `keyboard-focus` to that element only and blur removes it; a blur after a focus restores an element that was not marked |
| UiEnhancements.FocusStyles.Focus | src/uiEnhancements.js:102-104 | the class lists become `Focused` of the old ones |
| UiEnhancements.FocusStyles.Blur | src/uiEnhancements.js:105-107 | the class lists become `Blurred` of the old ones |
| ScrollAnimations.FadeStep | src/scrollAnimations.js:13-16 | no contract of its own; one entry of `ScrollAnimations.FadeBatch`, stated by `ScrollAnimations.FadeBatchEffect` |
| ScrollAnimations.FadeBatch | src/scrollAnimations.js:11-18 | keeps the number of elements; its effect is stated by `ScrollAnimations.FadeBatchEffect` |
| ScrollAnimations.FadeBatchEffect | src/scrollAnimations.js:11-18 | after a batch, an element with an intersecting entry has gained `fade-in-visible` with its other classes kept, and is unobserved; any other element keeps its classes and whether it is observed |
| ScrollAnimations.StaggerBatch | src/scrollAnimations.js:30-39 | a batch only unobserves, and only appends to the pending callbacks |
| ScrollAnimations.StaggerBatchEffect | src/scrollAnimations.js:30-39 | exactly one reveal is queued per intersecting entry; the intersecting entry at position `i` queues a reveal of its element delayed by `i * 100` and is unobserved; every queued reveal comes from such an entry; other elements stay observed |
| ScrollAnimations.IntersectingCount | src/scrollAnimations.js:31-32 | at most the batch length; the number of reveals `ScrollAnimations.StaggerBatchEffect` states |
| ScrollAnimations.Anchor | src/scrollAnimations.js:57 | no contract of its own; `#` followed by the id, or `#null`, as used by `ScrollAnimations.NavBatchEffect` |
| ScrollAnimations.HighlightOne | src/scrollAnimations.js:56-59 | no contract of its own; one link of `ScrollAnimations.Highlight`, stated by `ScrollAnimations.NavBatchEffect` |
| ScrollAnimations.Highlight | src/scrollAnimations.js:55-60 | keeps the number of links; stated by `ScrollAnimations.HighlightTwice` and `ScrollAnimations.NavBatchEffect` |
| ScrollAnimations.NavBatch | src/scrollAnimations.js:51-62 | keeps the number of links; stated by `ScrollAnimations.NavBatchIsLast` and `ScrollAnimations.NavBatchEffect` |
| ScrollAnimations.LastIntersecting | src/scrollAnimations.js:51-62 | the position of the last intersecting entry, or none exactly when no entry intersects |
| ScrollAnimations.HighlightTwice | src/scrollAnimations.js:55-60 | a second pass of the link loop wipes out the first |
| ScrollAnimations.NavBatchIsLast | src/scrollAnimations.js:51-62 | a batch has the effect of its last intersecting entry alone, and none without one |
| ScrollAnimations.NavBatchEffect | src/scrollAnimations.js:51-62 | after a batch, a link has `active` exactly when its href is `#` and the last intersecting element's id; hrefs and other classes are unchanged |
| ScrollAnimations.InitialPage | src/scrollAnimations.js:21-94 | no contract of its own; stated by `ScrollAnimations.InitialPageValid` |
| ScrollAnimations.OnScroll | src/scrollAnimations.js:85-121 | no contract of its own; stated by `ScrollAnimations.OnScrollThrottles` |
| ScrollAnimations.FireScroll | src/scrollAnimations.js:33-114 | no contract of its own; stated by `ScrollAnimations.FrameEffects`, `ScrollAnimations.RevealEffect` and `ScrollAnimations.FireScrollValid` |
| ScrollAnimations.HandleFade | src/scrollAnimations.js:11-18 | no contract of its own; `ScrollAnimations.FadeBatch` on the page, stated by `ScrollAnimations.FadeBatchEffect` and `ScrollAnimations.ObserversKeepValid` |
| ScrollAnimations.HandleStagger | src/scrollAnimations.js:30-39 | no contract of its own; `ScrollAnimations.StaggerBatch` on the page, stated by `ScrollAnimations.StaggerBatchEffect` and `ScrollAnimations.StaggerKeepsValid` |
| ScrollAnimations.HandleNav | src/scrollAnimations.js:51-62 | no contract of its own; `ScrollAnimations.NavBatch` on the page, stated by `ScrollAnimations.NavBatchEffect` and `ScrollAnimations.ObserversKeepValid` |
| ScrollAnimations.InitialPageValid | src/scrollAnimations.js:21-94 | every animated element is marked `fade-in-hidden` and observed, every paragraph `reveal-hidden` and observed, every section observed; flags clear, nothing pending; the invariant holds |
| ScrollAnimations.OnScrollThrottles | src/scrollAnimations.js:85-121 | after a scroll exactly one progress frame and one parallax frame are pending; with both flags set nothing changes; the invariant holds |
| ScrollAnimations.FireScrollValid | src/scrollAnimations.js:33-114 | running any pending callback keeps the invariant: each flag is set exactly while its one frame is queued |
| ScrollAnimations.FrameEffects | src/scrollAnimations.js:76-114 | the progress frame clears `ticking` and nothing else; the parallax frame records the offset it read in `lastScrollY`, clears `parallaxTicking` and nothing else; no other callback changes `lastScrollY` |
| ScrollAnimations.RevealEffect | src/scrollAnimations.js:33-35 | a delayed reveal adds `reveal-visible` to its element and to no other |
| ScrollAnimations.StaggerKeepsValid | src/scrollAnimations.js:30-39 | the stagger callback keeps the invariant and changes no class |
| ScrollAnimations.ObserversKeepValid | src/scrollAnimations.js:11-62 | every observer callback keeps the invariant; only the stagger callback queues anything |
| ScrollAnimations.ScrollAnimator.constructor | src/scrollAnimations.js:21-94 | the object starts in `InitialPage` of the page |
| ScrollAnimations.ScrollAnimator.ObserveFade | src/scrollAnimations.js:24-27 | exactly the matched elements gain `fade-in-hidden` and are observed |
| ScrollAnimations.ScrollAnimator.ObserveStagger | src/scrollAnimations.js:42-45 | exactly the matched paragraphs gain `reveal-hidden` and are observed |
| ScrollAnimations.ScrollAnimator.ObserveNav | src/scrollAnimations.js:68 | exactly the detail sections are observed by the navigation observer |
| ScrollAnimations.ScrollAnimator.HandleFadeEntries | src/scrollAnimations.js:11-18 | the object moves to `HandleFade` of its old state |
| ScrollAnimations.ScrollAnimator.HandleStaggerEntries | src/scrollAnimations.js:30-39 | the object moves to `HandleStagger` of its old state |
| ScrollAnimations.ScrollAnimator.HandleNavEntries | src/scrollAnimations.js:51-62 | the object moves to `HandleNav` of its old state |
| ScrollAnimations.ScrollAnimator.HighlightLinks | src/scrollAnimations.js:55-60 | the links become `Highlight` of the old ones for that anchor |
| ScrollAnimations.ScrollAnimator.HandleScroll | src/scrollAnimations.js:85-121 | the object moves to `OnScroll` of its old state |
| ScrollAnimations.ScrollAnimator.RunCallback | src/scrollAnimations.js:33-114 | running pending callback `i` moves the object to `FireScroll` of its old state at that offset |

## Left out
- `UiEnhancements.FocusStyles`: the focus listeners match every `a` and `button`, so
  the back-to-top button and the nav links also get `keyboard-focus`. The model keeps
  their class lists as separate copies in `FocusStyles`, `BackToTopButton` and
  `ScrollAnimator`, so it does not capture that one element's class list is shared.

- Timing: which pending callback runs next is a free choice. The 300 ms teardown and
  hide timers carry no delay, and the stagger reveal's delay is recorded but not used
  to order anything. Real clock order, such as "frames before a 300 ms timer", is not
  assumed. Every property above holds for every order.
- `console.warn` for a missing portal target (src/portal.js:66): output only.
- The registering of listeners is not modelled as data. Each listener is an `Event` case
  handled by `Portal.Portal.HandleEvent`, or a method of the classes.
- `getBoundingClientRect`, `IntersectionObserver` geometry and `innerHeight` are inputs:
  box sizes, intersection flags, section tops and the viewport height.
- `scrollTo` on the back-to-top click (src/uiEnhancements.js:45-50) and `scrollIntoView`
  (src/uiEnhancements.js:77, 90) are not modelled. These are browser scrolling services.
  `ArrowNavigation` returns the index of the section to scroll to.
- `PortalSpec.Element`: the other attributes and the subtree of a cloned template are one
  opaque `markup` value. There is no HTML model here.
- The `✕` and `↑` glyphs written through `innerHTML`, the `aria-label` of the back-to-top
  button, and the scroll progress bar element are left out. They are text and styling only.
- The page-load animation (src/uiEnhancements.js:5-11): it adds two classes once, on a
  browser load event, and touches no state modelled here.
- The progress width (src/scrollAnimations.js:77-81) is floating-point division and may
  divide by zero. Only the `ticking` bookkeeping around it is modelled.
- The parallax arithmetic and the mesh update (src/scrollAnimations.js:97-110) and the
  returned `updateParallax` (src/scrollAnimations.js:123-131) are left out. They are
  floating-point changes to three.js objects that are not part of this model. Only
  `lastScrollY` and `parallaxTicking` are modelled.
- `DOMContentLoaded` bootstrapping and the `window.portal` global (src/portal.js:154-161)
  are left out. These are start-up wiring.
- src/portalButton.js, src/environment.js and main.js are not part of this model. They
  hold three.js scene code.
- `PortalSpec.TouchPadding`: the box an element ends with is not modelled. The padding
  is computed from the measured border box, which already includes the element's own
  padding and border. Writing it replaces that padding, so an element that already had
  padding can end below 44. Only the arithmetic on the measured box is proved.
- The back-to-top button is appended to the body once (src/uiEnhancements.js:19): the
  body is not part of the back-to-top model, so this is not stated.
- JavaScript numbers are modelled as `real`: box sizes, section tops, `innerHeight`,
  `scrollY` and the padding. Floating-point rounding is not modelled.
- `UiEnhancements.ArrowNavigation`: its own contract only bounds the index. The exact
  target is stated by `UiEnhancements.CtrlArrowDown`, `UiEnhancements.CtrlArrowUp` and
  `UiEnhancements.ArrowGuards`.
