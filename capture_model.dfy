/** The pointer-capture emulation of app/webutil.js:203-295 as a state
    machine over values. `Capture.CaptureController` is the same machine as
    an object whose methods update fields; each of its methods is proved to
    do what the function of the same name here does.

    Dispatching an event at a page element is recorded in a log of
    (element, event) pairs. The DOM's propagation is modelled as far as it
    reaches the module's own listeners: an event dispatched at a page element
    runs that element's `releaseCapture` listeners (native path) and then
    bubbles to the window, where `_captureProxy` may be registered; an event
    that lands on the overlay runs the overlay's proxy and then bubbles to
    the window as well. */
module CaptureModel {
  import opened Optional

  /** A page element, told apart by identity only. */
  type Elem = nat

  /** The properties the clone `new e.constructor(e.type, e)` copies. */
  type Payload = map<string, int>

  datatype Event = Event(kind: string, payload: Payload)

  const MouseMove: string := "mousemove"
  const MouseUp: string := "mouseup"
  const TouchMove: string := "touchmove"
  const TouchEnd: string := "touchend"

  /** The event types `_captureProxy` is registered for, on the window and on the overlay. */
  const ProxyTypes: set<string> := {MouseMove, MouseUp, TouchMove, TouchEnd}

  /** The event types after whose forwarding the proxy ends capture. */
  predicate IsRelease(kind: string) {
    kind == MouseUp || kind == TouchEnd
  }

  /** What the browser offers: `elem.setCapture`, `document.releaseCapture`,
      and whether `new TouchEvent("touchstart")` throws although
      `window.TouchEvent` is defined. */
  datatype Platform = Platform(elemSetCapture: bool, docReleaseCapture: bool, touchCtorBroken: bool)

  /** The module state and the part of the page it touches. */
  datatype State = State(
    target: Option<Elem>,           // _captureElem (None: undefined or null)
    recursion: bool,                // _captureRecursion
    overlay: bool,                  // #noVNC_mouse_capture_elem is in the document
    shown: bool,                    // its style.display is not "none"
    windowProxy: set<string>,       // types with _captureProxy registered on window
    overlayProxy: set<string>,      // types with _captureProxy registered on the overlay
    safetyNet: set<(Elem, string)>, // (element, type) with releaseCapture registered on it
    native: Option<Elem>,           // the element holding the browser's own capture
    log: seq<(Elem, Event)>)        // every dispatch at a page element, in order

  /** A state after an operation, and whether the operation threw. */
  datatype Step = Step(state: State, threw: bool)

  /** The state when the module is loaded. */
  const Initial: State := State(None, false, false, false, {}, {}, {}, None, [])

  /** releaseCapture (app/webutil.js:279-295). On the emulation path
      `getElementById` returns null when no setCapture ever created the
      overlay, and reading `.style` of null throws after `_captureElem` has
      already been cleared. */
  function Release(p: Platform, s: State): (r: Step)
    ensures r.state.recursion == s.recursion && r.state.log == s.log
    ensures p.docReleaseCapture ==> !r.threw && r.state == s.(native := None)
    ensures !p.docReleaseCapture ==> (r.threw <==> !s.overlay)
    ensures !p.docReleaseCapture ==>
      && r.state.target.None?
      && r.state.overlay == s.overlay && r.state.overlayProxy == s.overlayProxy
      && r.state.safetyNet == s.safetyNet && r.state.native == s.native
    ensures !p.docReleaseCapture && s.overlay ==>
      !r.state.shown && r.state.windowProxy == s.windowProxy - ProxyTypes
    ensures !p.docReleaseCapture && !s.overlay ==>
      r.state.shown == s.shown && r.state.windowProxy == s.windowProxy
  {
    if p.docReleaseCapture then Step(s.(native := None), false)
    else
      var cleared := s.(target := None);
      if !cleared.overlay then Step(cleared, true)
      else Step(cleared.(shown := false, windowProxy := cleared.windowProxy - ProxyTypes), false)
  }

  /** setCapture (app/webutil.js:224-277). Nothing it does can throw: the
      TouchEvent probe's exception is caught. */
  function Begin(p: Platform, s: State, el: Elem): (r: State)
    ensures r.log == s.log && r.recursion == s.recursion
    // Native path: the browser captures; the emulation state is untouched.
    ensures p.elemSetCapture ==>
      && r.native == Some(el)
      && r.safetyNet == s.safetyNet + {(el, MouseUp), (el, TouchEnd)}
      && r.(native := s.native, safetyNet := s.safetyNet) == s
    // A broken TouchEvent constructor: a no-op.
    ensures !p.elemSetCapture && p.touchCtorBroken ==> r == s
    // Emulation path: el is the target, the overlay is shown, the window listens.
    ensures !p.elemSetCapture && !p.touchCtorBroken ==>
      && r.target == Some(el)
      && r.overlay && r.shown
      && r.windowProxy == s.windowProxy + ProxyTypes
      && r.overlayProxy == (if s.overlay then s.overlayProxy else s.overlayProxy + ProxyTypes)
      && r.safetyNet == s.safetyNet && r.native == s.native
  {
    if p.elemSetCapture then
      s.(native := Some(el), safetyNet := s.safetyNet + {(el, MouseUp), (el, TouchEnd)})
    else if p.touchCtorBroken then s
    else
      var withOverlay :=
        if s.overlay then s
        else s.(overlay := true, shown := false, overlayProxy := s.overlayProxy + ProxyTypes);
      withOverlay.(target := Some(el), shown := true, windowProxy := withOverlay.windowProxy + ProxyTypes)
  }

  /** _captureProxy (app/webutil.js:207-222). The clone is dispatched at the
      target with the guard set; it bubbles back to the window and re-enters
      this function, which then returns at once. Dispatching at a null
      target throws, and then the guard is never cleared. */
  function Proxy(p: Platform, s: State, e: Event): (r: Step)
    decreases if s.recursion then 0 else 2
    ensures s.log <= r.state.log
    ensures r.state.overlay == s.overlay && r.state.overlayProxy == s.overlayProxy
    // The guard: the proxy seeing its own clone does nothing at all.
    ensures s.recursion ==> r == Step(s, false)
    // No target: a TypeError, and the guard stays set.
    ensures !s.recursion && s.target.None? ==> r == Step(s.(recursion := true), true)
    // A target: the first thing dispatched is the event itself, at the
    // target, and the guard is clear when the proxy returns.
    ensures !s.recursion && s.target.Some? ==>
      && !r.state.recursion
      && |s.log| < |r.state.log| && r.state.log[|s.log|] == (s.target.value, e)
  {
    if s.recursion then Step(s, false)
    else
      var armed := s.(recursion := true);
      if armed.target.None? then Step(armed, true)
      else
        var clone := Event(e.kind, e.payload);
        var after := DeliverAt(p, armed, armed.target.value, clone).(recursion := false);
        if IsRelease(e.kind) then Release(p, after) else Step(after, false)
  }

  /** Dispatching an event at page element el: it is logged, el's
      `releaseCapture` listeners run, and it bubbles to the window.
      Exceptions thrown by listeners do not leave the dispatch. */
  function DeliverAt(p: Platform, s: State, el: Elem, e: Event): (r: State)
    decreases if s.recursion then 1 else 3
    ensures s.log + [(el, e)] <= r.log
    ensures r.overlay == s.overlay && r.overlayProxy == s.overlayProxy
    // el's own listeners and the window's proxy are the only ones that act.
    ensures (el, e.kind) !in s.safetyNet && e.kind !in s.windowProxy ==>
      r == s.(log := s.log + [(el, e)])
  {
    var logged := s.(log := s.log + [(el, e)]);
    var netted := if (el, e.kind) in logged.safetyNet then Release(p, logged).state else logged;
    if e.kind in netted.windowProxy then Proxy(p, netted, e).state else netted
  }

  /** The event types a touch produces. A touch keeps as its target the
      element where it began, even once that element is hidden. */
  predicate IsTouch(kind: string) {
    "touch" <= kind
  }

  /** The pointer lands on the overlay. The overlay's proxy runs, then the
      event bubbles to the window, whose proxy runs if it is still there. A
      hidden overlay is not hit by the mouse, but a touch that began on it
      while it was shown still goes to it. */
  function DeliverOverlay(p: Platform, s: State, e: Event): (r: State)
    ensures s.log <= r.log
    ensures r.overlay == s.overlay && r.overlayProxy == s.overlayProxy
    // Nothing reaches a missing overlay, and the mouse does not reach a hidden one.
    ensures !s.overlay || (!s.shown && !IsTouch(e.kind)) ==> r == s
    // When the event reaches the overlay's proxy, the proxy forwards it to
    // the target, or, with no target, throws and leaves the guard set.
    ensures s.overlay && (s.shown || IsTouch(e.kind)) && e.kind in s.overlayProxy && !s.recursion ==>
      if s.target.Some? then |s.log| < |r.log| && r.log[|s.log|] == (s.target.value, e)
      else r.recursion
  {
    if !s.overlay || (!s.shown && !IsTouch(e.kind)) then s
    else
      var first := if e.kind in s.overlayProxy then Proxy(p, s, e).state else s;
      if e.kind in first.windowProxy then Proxy(p, first, e).state else first
  }

  /** An event whose target is the window itself (the pointer outside the viewport). */
  function DeliverWindow(p: Platform, s: State, e: Event): (r: State)
    ensures s.log <= r.log
    ensures r.overlay == s.overlay && r.overlayProxy == s.overlayProxy
    ensures e.kind !in s.windowProxy ==> r == s
    // A proxied type is forwarded to the target first of all.
    ensures e.kind in s.windowProxy && !s.recursion && s.target.Some? ==>
      |s.log| < |r.log| && r.log[|s.log|] == (s.target.value, e)
  {
    if e.kind in s.windowProxy then Proxy(p, s, e).state else s
  }

  /** The states the module can reach. The overlay carries its four proxies
      exactly when it exists; a target is set exactly when the overlay is
      shown and exactly when the window carries the four proxies; the native
      path and the emulation never both leave traces. The recursion guard is
      not part of it: a throwing proxy can leave it set for good. */
  ghost predicate Valid(p: Platform, s: State) {
    && (s.shown ==> s.overlay)
    && s.overlayProxy == (if s.overlay then ProxyTypes else {})
    && (s.target.Some? <==> s.shown)
    && s.windowProxy == (if s.shown then ProxyTypes else {})
    && (p.elemSetCapture ==> !s.overlay)
    && (!p.elemSetCapture ==> s.safetyNet == {} && s.native.None?)
  }

  /** A valid state between two events with the recursion guard clear, as
      the module intends it to be. */
  ghost predicate Ready(p: Platform, s: State) {
    !s.recursion && Valid(p, s)
  }

  lemma InitialReady(p: Platform)
    ensures Ready(p, Initial)
  {
  }

  /** releaseCapture keeps the invariant, ends emulated capture when the
      browser has no document.releaseCapture, and throws only when no
      setCapture ever created the overlay, in which case nothing changes. */
  lemma ReleaseKeepsValid(p: Platform, s: State)
    requires Valid(p, s)
    ensures Valid(p, Release(p, s).state)
    ensures !p.docReleaseCapture ==> Release(p, s).state.target.None? && !Release(p, s).state.shown
    ensures Release(p, s).threw ==> Release(p, s).state == s
  {
  }

  /** Once the overlay exists, releaseCapture is idempotent, and it changes
      nothing when no capture is active. */
  lemma ReleaseIdempotent(p: Platform, s: State)
    requires Valid(p, s) && (s.overlay || p.docReleaseCapture)
    ensures !Release(p, s).threw
    ensures Release(p, Release(p, s).state) == Release(p, s)
    ensures s.target.None? && s.native.None? ==> Release(p, s) == Step(s, false)
  {
  }

  /** setCapture keeps the invariant and never removes the overlay. */
  lemma BeginKeepsValid(p: Platform, s: State, el: Elem)
    requires Valid(p, s)
    ensures Valid(p, Begin(p, s, el))
    ensures s.overlay ==> Begin(p, s, el).overlay
  {
  }

  /** The heart of the emulation: while el captures, the proxy dispatches
      exactly one event, of the same type and payload, at the target and at
      no other element; the guard is clear again afterwards; a mouseup or
      touchend then runs releaseCapture, which cannot throw because the
      overlay exists; every other type leaves capture as it was. */
  lemma ProxyForwardsOnce(p: Platform, s: State, t: Elem, e: Event)
    requires Ready(p, s) && s.target == Some(t)
    ensures var forwarded := s.(log := s.log + [(t, e)]);
      Proxy(p, s, e) ==
        Step(if IsRelease(e.kind) then Release(p, forwarded).state else forwarded, false)
    ensures Ready(p, Proxy(p, s, e).state)
    ensures Proxy(p, s, e).state.overlay && Proxy(p, s, e).state.log == s.log + [(t, e)]
    ensures !IsRelease(e.kind) ==> Proxy(p, s, e).state.target == Some(t)
    ensures IsRelease(e.kind) && !p.docReleaseCapture ==>
      && Proxy(p, s, e).state.target.None?
      && !Proxy(p, s, e).state.shown
      && Proxy(p, s, e).state.windowProxy == {}
  {
    var armed := s.(recursion := true);
    assert !p.elemSetCapture;
    var logged := armed.(log := armed.log + [(t, e)]);
    assert (t, e.kind) !in logged.safetyNet;
    assert Proxy(p, logged, e) == Step(logged, false);
    assert DeliverAt(p, armed, t, e) == logged;
    var forwarded := s.(log := s.log + [(t, e)]);
    assert logged.(recursion := false) == forwarded;
    ReleaseKeepsValid(p, forwarded);
  }

  /** Calling the proxy while nothing is captured throws and leaves the
      guard set, so that every later call returns at once and nothing is
      ever forwarded again. The overlay's own listeners get there: a touch
      that began on the overlay keeps it as its target after releaseCapture
      has hidden it and cleared the target (see `StrayTouchJams`). */
  lemma ProxyWithoutTargetJams(p: Platform, s: State, e: Event, later: Event)
    requires !s.recursion && s.target.None?
    ensures Proxy(p, s, e) == Step(s.(recursion := true), true)
    ensures Proxy(p, Proxy(p, s, e).state, later) == Step(Proxy(p, s, e).state, false)
  {
  }

  /** An event dispatched at a page element while t captures (a touch event,
      whose target is where the touch began) is logged there and then
      forwarded to t once more as it reaches the window. */
  lemma ElementEventForwarded(p: Platform, s: State, t: Elem, el: Elem, e: Event)
    requires Ready(p, s) && s.target == Some(t) && e.kind in ProxyTypes
    ensures var logged := s.(log := s.log + [(el, e)]);
      DeliverAt(p, s, el, e) == Proxy(p, logged, e).state
    ensures DeliverAt(p, s, el, e).log == s.log + [(el, e), (t, e)]
    ensures Ready(p, DeliverAt(p, s, el, e)) && DeliverAt(p, s, el, e).overlay
  {
    var logged := s.(log := s.log + [(el, e)]);
    assert !p.elemSetCapture;
    assert (el, e.kind) !in logged.safetyNet;
    ProxyForwardsOnce(p, logged, t, e);
  }

  /** A move that lands on the shown overlay reaches the target twice: once
      from the overlay's proxy and once more from the window's, since the
      proxy does not stop the original event's propagation. A mouseup or
      touchend is forwarded once: its first forwarding ends capture and
      removes the window's proxy before the event bubbles there. */
  lemma OverlayForwarding(p: Platform, s: State, t: Elem, e: Event)
    requires Ready(p, s) && s.target == Some(t)
    ensures e.kind in {MouseMove, TouchMove} ==>
      DeliverOverlay(p, s, e) == s.(log := s.log + [(t, e), (t, e)])
    ensures IsRelease(e.kind) && !p.docReleaseCapture ==>
      && DeliverOverlay(p, s, e).log == s.log + [(t, e)]
      && DeliverOverlay(p, s, e).target.None?
      && !DeliverOverlay(p, s, e).shown
    ensures Ready(p, DeliverOverlay(p, s, e)) && DeliverOverlay(p, s, e).overlay
    ensures s.log <= DeliverOverlay(p, s, e).log
  {
    if e.kind in ProxyTypes {
      ProxyForwardsOnce(p, s, t, e);
      var first := Proxy(p, s, e).state;
      if e.kind in first.windowProxy {
        ProxyForwardsOnce(p, first, t, e);
      }
    }
  }

  /** A window-level event while t captures is forwarded to t once; other
      types are ignored. */
  lemma WindowForwarding(p: Platform, s: State, t: Elem, e: Event)
    requires Ready(p, s) && s.target == Some(t)
    ensures e.kind in ProxyTypes ==> DeliverWindow(p, s, e) == Proxy(p, s, e).state
    ensures e.kind !in ProxyTypes ==> DeliverWindow(p, s, e) == s
    ensures Ready(p, DeliverWindow(p, s, e))
  {
    if e.kind in ProxyTypes {
      ProxyForwardsOnce(p, s, t, e);
    }
  }

  /** What can happen to the module: its two entry points, and events
      dispatched at a page element, on the overlay or on the window. */
  datatype Op =
    | SetCapture(el: Elem)
    | ReleaseCapture
    | AtElement(el: Elem, e: Event)
    | AtOverlay(e: Event)
    | AtWindow(e: Event)

  function Apply(p: Platform, s: State, op: Op): State {
    match op
    case SetCapture(el) => Begin(p, s, el)
    case ReleaseCapture => Release(p, s).state
    case AtElement(el, e) => DeliverAt(p, s, el, e)
    case AtOverlay(e) => DeliverOverlay(p, s, e)
    case AtWindow(e) => DeliverWindow(p, s, e)
  }

  function Run(p: Platform, s: State, ops: seq<Op>): State
    decreases |ops|
  {
    if ops == [] then s else Run(p, Apply(p, s, ops[0]), ops[1..])
  }

  /** A touch move or touch end on the overlay while it is hidden: the tail
      of a touch that began on it while it was shown. */
  predicate StrayTouch(s: State, op: Op) {
    op.AtOverlay? && s.overlay && !s.shown && IsTouch(op.e.kind) && op.e.kind in s.overlayProxy
  }

  /** What an operation dispatches at a page element by itself, before any
      listener runs. */
  function Dispatched(op: Op): seq<(Elem, Event)> {
    if op.AtElement? then [(op.el, op.e)] else []
  }

  function AllDispatched(ops: seq<Op>): seq<(Elem, Event)>
    decreases |ops|
  {
    if ops == [] then [] else Dispatched(ops[0]) + AllDispatched(ops[1..])
  }

  /** Every entry point and every dispatched event keeps the invariant,
      keeps the overlay and its listeners, and only appends to the log. With
      the guard clear, it stays clear except on a stray touch, which leaves
      the guard set and changes nothing else. With the guard set, nothing is
      forwarded any more: the log gains only what is dispatched directly. */
  lemma ApplyKeepsValid(p: Platform, s: State, op: Op)
    requires Valid(p, s)
    ensures Valid(p, Apply(p, s, op))
    ensures s.overlay ==> Apply(p, s, op).overlay && Apply(p, s, op).overlayProxy == s.overlayProxy
    ensures s.log <= Apply(p, s, op).log
    ensures !s.recursion && !StrayTouch(s, op) ==> !Apply(p, s, op).recursion
    ensures !s.recursion && StrayTouch(s, op) ==> Apply(p, s, op) == s.(recursion := true)
    ensures s.recursion ==> Apply(p, s, op).recursion && Apply(p, s, op).log == s.log + Dispatched(op)
  {
    match op
    case SetCapture(el) => BeginKeepsValid(p, s, el);
    case ReleaseCapture => ReleaseKeepsValid(p, s);
    case AtElement(el, e) =>
      if !s.recursion && s.target.Some? && e.kind in ProxyTypes {
        ElementEventForwarded(p, s, s.target.value, el, e);
      } else {
        var logged := s.(log := s.log + [(el, e)]);
        ReleaseKeepsValid(p, logged);
      }
    case AtOverlay(e) =>
      if !s.recursion && s.shown {
        OverlayForwarding(p, s, s.target.value, e);
        ProxyForwardsOnce(p, s, s.target.value, e);
      }
    case AtWindow(e) =>
      if !s.recursion && s.target.Some? {
        WindowForwarding(p, s, s.target.value, e);
        ProxyForwardsOnce(p, s, s.target.value, e);
      }
  }

  /** No operation of the run is a stray touch when it comes. */
  predicate NoStrayTouch(p: Platform, s: State, ops: seq<Op>)
    decreases |ops|
  {
    ops == [] || (!StrayTouch(s, ops[0]) && NoStrayTouch(p, Apply(p, s, ops[0]), ops[1..]))
  }

  /** Whatever happens: at most one element is the target, the overlay shows
      exactly while there is one, the overlay once created stays with its
      four proxies, and the log only grows. The recursion guard is clear
      between events as long as no stray touch comes. */
  lemma {:induction false} RunKeepsValid(p: Platform, s: State, ops: seq<Op>)
    requires Valid(p, s)
    ensures Valid(p, Run(p, s, ops))
    ensures s.overlay ==> Run(p, s, ops).overlay && Run(p, s, ops).overlayProxy == s.overlayProxy
    ensures s.log <= Run(p, s, ops).log
    ensures !s.recursion && NoStrayTouch(p, s, ops) ==> !Run(p, s, ops).recursion
    decreases |ops|
  {
    if ops != [] {
      ApplyKeepsValid(p, s, ops[0]);
      RunKeepsValid(p, Apply(p, s, ops[0]), ops[1..]);
    }
  }

  /** Once the guard is stuck, it stays stuck, and no event is ever
      forwarded again: the log holds only what is dispatched directly. */
  lemma {:induction false} JammedForwardsNothing(p: Platform, s: State, ops: seq<Op>)
    requires Valid(p, s) && s.recursion
    ensures Run(p, s, ops).recursion
    ensures Run(p, s, ops).log == s.log + AllDispatched(ops)
    decreases |ops|
  {
    if ops != [] {
      ApplyKeepsValid(p, s, ops[0]);
      var next := Apply(p, s, ops[0]);
      JammedForwardsNothing(p, next, ops[1..]);
      assert s.log + AllDispatched(ops) == (s.log + Dispatched(ops[0])) + AllDispatched(ops[1..]);
    }
  }

  /** Two fingers: the first is captured and lifted outside the overlay,
      which ends capture and hides the overlay; the second, which began on
      the overlay, moves. Its move reaches the overlay's proxy with no
      target, so the proxy throws and the guard stays set. From then on
      setCapture still shows the overlay and sets a target, but no event is
      ever forwarded to any element. */
  lemma StrayTouchJams(p: Platform, m: Payload)
    requires !p.elemSetCapture && !p.touchCtorBroken && !p.docReleaseCapture
    ensures var jammed := Run(p, Initial, [SetCapture(1), AtElement(1, Event(TouchEnd, m)),
                                           AtOverlay(Event(TouchMove, m))]);
      && jammed.recursion && jammed.target.None? && jammed.overlay && !jammed.shown
      && jammed.log == [(1, Event(TouchEnd, m)), (1, Event(TouchEnd, m))]
      && forall ops :: Run(p, jammed, ops).log == jammed.log + AllDispatched(ops)
  {
    var te := Event(TouchEnd, m);
    var ops := [SetCapture(1), AtElement(1, te), AtOverlay(Event(TouchMove, m))];
    InitialReady(p);
    var s1 := Begin(p, Initial, 1);
    BeginKeepsValid(p, Initial, 1);
    ElementEventForwarded(p, s1, 1, 1, te);
    ProxyForwardsOnce(p, s1.(log := s1.log + [(1, te)]), 1, te);
    var s2 := DeliverAt(p, s1, 1, te);
    ApplyKeepsValid(p, s2, ops[2]);
    var s3 := DeliverOverlay(p, s2, Event(TouchMove, m));
    assert Run(p, Initial, ops) == Run(p, s1, ops[1..]);
    assert Run(p, s1, ops[1..]) == Run(p, s2, ops[2..]);
    assert Run(p, s2, ops[2..]) == Run(p, s3, []);
    forall rest: seq<Op>
      ensures Run(p, s3, rest).log == s3.log + AllDispatched(rest)
    {
      JammedForwardsNothing(p, s3, rest);
    }
  }

  /** A window-level move: the pointer left the viewport while dragging. */
  predicate IsWindowMove(op: Op) {
    op.AtWindow? && op.e.kind in {MouseMove, TouchMove}
  }

  /** While t captures, every window-level move reaches t, in order, and no
      other element; t stays the target. */
  lemma {:induction false} MovesFollowTarget(p: Platform, s: State, t: Elem, ops: seq<Op>)
    requires Ready(p, s) && s.target == Some(t)
    requires forall i :: 0 <= i < |ops| ==> IsWindowMove(ops[i])
    ensures Run(p, s, ops).target == Some(t)
    ensures |Run(p, s, ops).log| == |s.log| + |ops|
    ensures Run(p, s, ops).log[..|s.log|] == s.log
    ensures forall i :: 0 <= i < |ops| ==>
      ops[i].AtWindow? && Run(p, s, ops).log[|s.log| + i] == (t, ops[i].e)
    decreases |ops|
  {
    if ops != [] {
      var e := ops[0].e;
      ProxyForwardsOnce(p, s, t, e);
      var next := Apply(p, s, ops[0]);
      assert next == s.(log := s.log + [(t, e)]);
      MovesFollowTarget(p, next, t, ops[1..]);
      var r := Run(p, s, ops);
      assert r == Run(p, next, ops[1..]);
      forall i | 0 <= i < |ops|
        ensures ops[i].AtWindow? && r.log[|s.log| + i] == (t, ops[i].e)
      {
        if i > 0 {
          assert ops[1..][i - 1] == ops[i];
        }
      }
    }
  }

  /** An event on the overlay or at the window forwards only to the element
      that was the target before it, and afterwards the target is that one
      or none at all. */
  lemma OneStepForwardsOnlyToTarget(p: Platform, s: State, op: Op)
    requires Valid(p, s) && (op.AtWindow? || op.AtOverlay?)
    ensures s.log <= Apply(p, s, op).log
    ensures forall i :: |s.log| <= i < |Apply(p, s, op).log| ==>
      s.target == Some(Apply(p, s, op).log[i].0)
    ensures Apply(p, s, op).target.Some? ==> Apply(p, s, op).target == s.target
  {
    ApplyKeepsValid(p, s, op);
    if !s.recursion && s.target.Some? && op.e.kind in ProxyTypes {
      var t, e := s.target.value, op.e;
      ProxyForwardsOnce(p, s, t, e);
      var first := Proxy(p, s, e).state;
      if first.target.Some? {
        ProxyForwardsOnce(p, first, t, e);
      }
    }
  }

  /** Over any run of events on the overlay and at the window, every element
      that receives a forwarded event is the target at the start: moves,
      releases, stray touches and unproxied types alike. */
  lemma {:induction false} ForwardsOnlyToTarget(p: Platform, s: State, ops: seq<Op>)
    requires Valid(p, s)
    requires forall i :: 0 <= i < |ops| ==> ops[i].AtWindow? || ops[i].AtOverlay?
    ensures s.log <= Run(p, s, ops).log
    ensures forall i :: |s.log| <= i < |Run(p, s, ops).log| ==> s.target == Some(Run(p, s, ops).log[i].0)
    decreases |ops|
  {
    if ops != [] {
      OneStepForwardsOnlyToTarget(p, s, ops[0]);
      ApplyKeepsValid(p, s, ops[0]);
      var next := Apply(p, s, ops[0]);
      ForwardsOnlyToTarget(p, next, ops[1..]);
      var r := Run(p, s, ops);
      assert r == Run(p, next, ops[1..]);
      forall i | |s.log| <= i < |r.log|
        ensures s.target == Some(r.log[i].0)
      {
        if i < |next.log| {
          assert r.log[i] == next.log[i];
        }
      }
    }
  }

  /** A second setCapture replaces the first target: afterwards every event
      forwarded from the overlay or the window goes to the second element
      only. */
  lemma SecondCaptureRedirects(p: Platform, s: State, e1: Elem, e2: Elem, ops: seq<Op>)
    requires Valid(p, s) && !p.elemSetCapture && !p.touchCtorBroken
    requires forall i :: 0 <= i < |ops| ==> ops[i].AtWindow? || ops[i].AtOverlay?
    ensures var captured := Begin(p, Begin(p, s, e1), e2);
      && captured.target == Some(e2)
      && captured.log <= Run(p, captured, ops).log
      && forall i :: |captured.log| <= i < |Run(p, captured, ops).log| ==>
           Run(p, captured, ops).log[i].0 == e2
  {
    BeginKeepsValid(p, s, e1);
    var first := Begin(p, s, e1);
    BeginKeepsValid(p, first, e2);
    var captured := Begin(p, first, e2);
    ForwardsOnlyToTarget(p, captured, ops);
  }

  /** Native path: the element's own mouseup or touchend listener ends the
      browser's capture even if the browser never reports the release. */
  lemma NativeSafetyNet(p: Platform, s: State, el: Elem, e: Event)
    requires Ready(p, s) && p.elemSetCapture && p.docReleaseCapture && IsRelease(e.kind)
    ensures Begin(p, s, el).native == Some(el)
    ensures DeliverAt(p, Begin(p, s, el), el, e).native.None?
    ensures DeliverAt(p, Begin(p, s, el), el, e).log == s.log + [(el, e)]
  {
    var b := Begin(p, s, el);
    BeginKeepsValid(p, s, el);
    assert (el, e.kind) in b.safetyNet;
  }
}
