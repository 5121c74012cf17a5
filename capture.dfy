/** The capture emulation of app/webutil.js:203-295 as the object it is in
    the source: module-level variables updated step by step. Every method is
    proved to leave the fields as the function of the same name in
    `CaptureModel` says, so the properties proved there hold of it. */
module Capture {
  import opened Optional
  import opened CaptureModel

  class CaptureController {
    const platform: Platform
    var captureElem: Option<Elem>            // _captureElem
    var captureRecursion: bool               // _captureRecursion
    var overlayExists: bool                  // #noVNC_mouse_capture_elem is in the document
    var overlayShown: bool                   // its style.display is not "none"
    var windowListeners: set<string>         // types with _captureProxy on window
    var overlayListeners: set<string>        // types with _captureProxy on the overlay
    var releaseListeners: set<(Elem, string)> // releaseCapture registered on elements
    var nativeCapture: Option<Elem>          // the element holding the browser's capture
    var dispatched: seq<(Elem, Event)>       // every dispatch at a page element

    function Snapshot(): State
      reads this
    {
      State(captureElem, captureRecursion, overlayExists, overlayShown,
            windowListeners, overlayListeners, releaseListeners, nativeCapture, dispatched)
    }

    /** The module as loaded: no target, no overlay, no listeners. */
    constructor (p: Platform)
      ensures platform == p && Snapshot() == Initial
    {
      platform := p;
      captureElem := None;
      captureRecursion := false;
      overlayExists := false;
      overlayShown := false;
      windowListeners := {};
      overlayListeners := {};
      releaseListeners := {};
      nativeCapture := None;
      dispatched := [];
    }

    /** releaseCapture; `threw` tells whether it ended in a TypeError. */
    method ReleaseCapture() returns (threw: bool)
      modifies this
      ensures Step(Snapshot(), threw) == Release(platform, old(Snapshot()))
    {
      threw := false;
      if platform.docReleaseCapture {
        nativeCapture := None;
      } else {
        captureElem := None;
        if !overlayExists {
          // getElementById gave null: reading its style throws
          threw := true;
          return;
        }
        overlayShown := false;
        windowListeners := windowListeners - {MouseMove, MouseUp};
        windowListeners := windowListeners - {TouchMove, TouchEnd};
      }
    }

    /** setCapture. */
    method SetCapture(el: Elem)
      modifies this
      ensures Snapshot() == Begin(platform, old(Snapshot()), el)
    {
      if platform.elemSetCapture {
        nativeCapture := Some(el);
        // some browsers release on 'click' without telling: listen ourselves
        releaseListeners := releaseListeners + {(el, MouseUp)};
        releaseListeners := releaseListeners + {(el, TouchEnd)};
      } else if !platform.touchCtorBroken {
        if !overlayExists {
          overlayExists := true;
          overlayShown := false;
          overlayListeners := overlayListeners + {MouseMove, MouseUp};
          overlayListeners := overlayListeners + {TouchMove, TouchEnd};
        }
        captureElem := Some(el);
        overlayShown := true;
        windowListeners := windowListeners + {MouseMove, MouseUp};
        windowListeners := windowListeners + {TouchMove, TouchEnd};
      }
    }

    /** _captureProxy; `threw` tells whether it ended in a TypeError. */
    method CaptureProxy(e: Event) returns (threw: bool)
      modifies this
      ensures Step(Snapshot(), threw) == Proxy(platform, old(Snapshot()), e)
      decreases if captureRecursion then 0 else 2
    {
      threw := false;
      if captureRecursion {
        return;
      }
      var clone := Event(e.kind, e.payload);
      captureRecursion := true;
      if captureElem.None? {
        // dispatchEvent on a null target
        threw := true;
        return;
      }
      DispatchAt(captureElem.value, clone);
      captureRecursion := false;
      if IsRelease(e.kind) {
        threw := ReleaseCapture();
      }
    }

    /** The browser dispatches e at page element el. */
    method DispatchAt(el: Elem, e: Event)
      modifies this
      ensures Snapshot() == DeliverAt(platform, old(Snapshot()), el, e)
      decreases if captureRecursion then 1 else 3
    {
      dispatched := dispatched + [(el, e)];
      if (el, e.kind) in releaseListeners {
        var _ := ReleaseCapture();
      }
      if e.kind in windowListeners {
        var _ := CaptureProxy(e);
      }
    }

    /** The browser dispatches e on the overlay. The mouse hits it only while
        it is shown; a touch that began on it stays with it once hidden. */
    method DispatchOnOverlay(e: Event)
      modifies this
      ensures Snapshot() == DeliverOverlay(platform, old(Snapshot()), e)
    {
      if !overlayExists || (!overlayShown && !IsTouch(e.kind)) {
        return;
      }
      if e.kind in overlayListeners {
        var _ := CaptureProxy(e);
      }
      if e.kind in windowListeners {
        var _ := CaptureProxy(e);
      }
    }

    /** The browser dispatches e at the window itself. */
    method DispatchOnWindow(e: Event)
      modifies this
      ensures Snapshot() == DeliverWindow(platform, old(Snapshot()), e)
    {
      if e.kind in windowListeners {
        var _ := CaptureProxy(e);
      }
    }
  }

  /** A drag on a canvas in a browser without native capture: the pointer
      leaves the viewport, moves and is released there. The canvas receives
      the move and then the release, and capture has ended. */
  method CanvasDrag() returns (received: seq<(Elem, Event)>, capturing: bool)
    ensures received == [(7, Event(MouseMove, map["clientX" := 100, "clientY" := 100])),
                         (7, Event(MouseUp, map["clientX" := 100, "clientY" := 100]))]
    ensures !capturing
  {
    var canvas: Elem := 7;
    var at := map["clientX" := 100, "clientY" := 100];
    var c := new CaptureController(Platform(false, false, false));
    InitialReady(c.platform);
    c.SetCapture(canvas);
    BeginKeepsValid(c.platform, Initial, canvas);
    assert c.captureElem == Some(canvas) && c.overlayShown;

    var move := Event(MouseMove, at);
    ProxyForwardsOnce(c.platform, c.Snapshot(), canvas, move);
    c.DispatchOnWindow(move);
    assert c.captureElem == Some(canvas) && c.overlayShown;
    assert c.dispatched == [(canvas, move)];

    var up := Event(MouseUp, at);
    ProxyForwardsOnce(c.platform, c.Snapshot(), canvas, up);
    c.DispatchOnWindow(up);
    received := c.dispatched;
    capturing := c.captureElem.Some? || c.overlayShown;
  }
}
