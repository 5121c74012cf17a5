# Pointer-capture emulation and URL/cookie readers of noVNC's webutil, in Dafny

This project models the core of `app/webutil.js` from the noVNC HTML5 VNC
client:

- **Capture emulation** (`_captureProxy`, `setCapture`, `releaseCapture`).
  In browsers without `Element.setCapture`, noVNC shows a full-viewport
  overlay (`noVNC_mouse_capture_elem`) and registers `_captureProxy` for
  `mousemove`, `mouseup`, `touchmove` and `touchend` on the overlay and on
  the window. The proxy clones each event and dispatches the clone at the
  captured element, under a recursion guard. A forwarded `mouseup` or
  `touchend` ends capture.
  - `CaptureModel` holds this as a state machine over values: the module
    variables, the overlay's existence and visibility, the listener sets, the
    browser's native capture, and a log of every event dispatched at a page
    element.
  - `Capture.CaptureController` is the same machine as a class whose methods
    update those fields in place. Each method is proved equal to its function
    in `CaptureModel`.
  - Event propagation is modelled as far as it reaches the module's own
    listeners. The clone bubbles from the target back to the window, where it
    re-enters the proxy; that re-entry is why the guard exists.
  - `Valid` is the invariant every reachable state satisfies: listeners,
    overlay visibility and target agree. `Ready` adds a clear recursion
    guard. That is what the module intends between two events, but a touch
    on the hidden overlay can break it (see below).
- **URL readers** (`getQueryVar`, `getHashVar`, `getConfigVar`), in module
  `UrlVars`. The regular expressions `.*[?&]NAME=([^&#]*)` and
  `.*[&#]NAME=([^&]*)` are modelled as the search a backtracking engine
  runs:
  - start positions are tried from the left;
  - the greedy `.*` gives back characters until the key follows;
  - `.` does not match line terminators.
  `Chosen` states the result declaratively: the rightmost key on the first
  line that holds a key.
- **Cookie reader** (`readCookie`), in module `Cookies`. It is a method with
  the source's loop. `split(';')` is modelled by `Split`, which is proved
  inverse to `Join`.

In several places the code behaves otherwise than its comments and its
purpose suggest. The model follows the code:

- `releaseCapture` with no earlier `setCapture` throws on the emulation path,
  because the overlay lookup returns null (app/webutil.js:285-287). It is not
  a no-op.
- The recursion guard is not cleared when the dispatch throws. There is no
  `try`/`finally`. Calling the exported proxy while nothing is captured
  leaves the guard set, and nothing is forwarded after that
  (`ProxyWithoutTargetJams`).
- Each incoming event is not forwarded at most once. The proxy does not stop
  the original event's propagation. A move that lands on the shown overlay
  therefore reaches the target twice: once from the overlay's listener and
  once from the window's. A touch move dispatched at the captured element
  comes back to it once more from the window (`OverlayForwarding`,
  `ElementEventForwarded`).
- The overlay is not kept out of hit-testing, because no `pointer-events`
  style is set. Its listeners are never removed: `releaseCapture` removes
  only the window's listeners.
- A second touch can jam capture for the rest of the session. A touch keeps
  as its target the element where it began. Suppose a second finger lands
  on the shown overlay and the first finger's `touchend` then ends capture.
  The overlay is hidden and the target is null, but the second finger's
  `touchmove` still goes to the overlay, whose proxy dispatches at null and
  throws with the guard set (app/webutil.js:214-215, 262-263). After that,
  `setCapture` still shows the overlay, but nothing is ever forwarded again
  (`StrayTouchJams`, `JammedForwardsNothing`).

## Model

| member | source | states |
|---|---|---|
| `CaptureModel.Release` | app/webutil.js:279-295 | With `document.releaseCapture`, only the native capture ends. Otherwise the target is cleared. If the overlay exists it is hidden and exactly the four proxy types leave the window; any other window registration stays. If it does not exist the call throws after clearing the target, and nothing else changes. |
| `CaptureModel.Begin` | app/webutil.js:224-277 | Native path: the element holds the browser's capture, gets `releaseCapture` listeners for `mouseup`/`touchend`, and the emulation state is untouched. Broken TouchEvent constructor: no-op. Emulation: the element is the target, the overlay exists and is shown, and the window carries the four proxies. An existing overlay keeps its listeners; a new one gets the four proxies. |
| `CaptureModel.Proxy` | app/webutil.js:207-222 | With the guard set, the proxy dispatches nothing, changes nothing and does not throw. With no target it throws and leaves the guard set. With a target, the first dispatch it causes is the event itself at the target, and the guard is clear when it returns. It never touches the overlay or its listeners, and only appends to the log. |
| `CaptureModel.DeliverAt` | app/webutil.js:229-275 | An event dispatched at an element is logged there first. Only the element's own `releaseCapture` listeners and the window's proxy act on it (elements have no ancestors here; see "Left out"): with neither registered, only the log changes. The overlay and its listeners are untouched. |
| `CaptureModel.DeliverOverlay` | app/webutil.js:259-267 | Nothing reaches a missing overlay, and the mouse does not reach a hidden one, but a touch does. When an event reaches the overlay's proxy, it is forwarded to the target first; with no target, the guard is left set. The log only grows and the overlay keeps its listeners. |
| `CaptureModel.DeliverWindow` | app/webutil.js:271-275 | A type the window does not listen for changes nothing. A proxied type is forwarded to the target first of all. The log only grows. |
| `CaptureModel.InitialReady` | app/webutil.js:205-206 | The state at module load satisfies the invariant with the recursion guard clear. |
| `CaptureModel.ReleaseKeepsValid` | app/webutil.js:279-295 | `releaseCapture` keeps the invariant. Without the native primitive it leaves no target and a hidden overlay. When it throws, the state is unchanged. |
| `CaptureModel.ReleaseIdempotent` | app/webutil.js:284-293 | Once the overlay exists (or the native primitive is present), `releaseCapture` never throws, applying it twice is the same as once, and it is a no-op when nothing is captured. |
| `CaptureModel.BeginKeepsValid` | app/webutil.js:245-275 | `setCapture` keeps the invariant and never removes the overlay. |
| `CaptureModel.ProxyForwardsOnce` | app/webutil.js:207-222 | While t captures, the proxy appends exactly one dispatch to the log: an event of the same type and payload, at t. The guard is clear afterwards and nothing throws. A `mouseup`/`touchend` then ends capture: no target, overlay hidden, no window proxies. Any other type keeps t as the target. |
| `CaptureModel.ProxyWithoutTargetJams` | app/webutil.js:207-216 | With no target the proxy throws with the guard left set, and every later call returns at once. |
| `CaptureModel.StrayTouchJams` | app/webutil.js:207-295 | Capture element 1, end capture with a `touchend` at element 1 (where that touch began), then a `touchmove` reaches the hidden overlay: the guard stays set with no target, the overlay hidden, and from then on every run of operations forwards nothing. |
| `CaptureModel.JammedForwardsNothing` | app/webutil.js:207-216 | Once the guard is stuck, it stays stuck over any sequence of operations, and the log gains only the events dispatched directly at elements: nothing is forwarded. |
| `CaptureModel.ElementEventForwarded` | app/webutil.js:269-275 | An event dispatched at any element while t captures is logged there and then forwarded to t once more by the window's proxy. |
| `CaptureModel.OverlayForwarding` | app/webutil.js:259-263 | A move on the shown overlay reaches the target twice, through the overlay's proxy and then the window's. A release reaches it once and ends capture. |
| `CaptureModel.WindowForwarding` | app/webutil.js:269-275 | A window-level event of a proxied type is handled by one proxy call. Other types change nothing. |
| `CaptureModel.ApplyKeepsValid` | app/webutil.js:203-295 | Every entry point and every dispatched event, touches on the hidden overlay included, keeps the invariant, keeps the overlay and its listeners, and only appends to the log. A clear guard stays clear except on a touch that reaches the hidden overlay, which sets it and changes nothing else. A set guard stays set, and the log gains only what is dispatched directly. |
| `CaptureModel.RunKeepsValid` | app/webutil.js:203-295 | Over any sequence of operations: the overlay shows exactly while a target is set and exactly while the window carries the proxies; the overlay, once created, stays with the same four listeners; the log only grows. The guard is clear at the end if it was clear at the start and no touch reached the hidden overlay on the way. |
| `CaptureModel.MovesFollowTarget` | app/webutil.js:266-275 | While t captures, every window-level move reaches t, in order, one dispatch per move, and t stays the target. |
| `CaptureModel.OneStepForwardsOnlyToTarget` | app/webutil.js:207-275 | One event on the overlay or at the window forwards only to the current target, and leaves that target or none. |
| `CaptureModel.ForwardsOnlyToTarget` | app/webutil.js:207-295 | Over any run of events on the overlay and at the window (moves, releases, stray touches, unproxied types), every forwarded event goes to the target at the start of the run, and the log only grows. |
| `CaptureModel.SecondCaptureRedirects` | app/webutil.js:266-275 | After `setCapture(e1)` then `setCapture(e2)`, e2 is the target, and every event forwarded later from the overlay or the window is dispatched at e2 only. |
| `CaptureModel.NativeSafetyNet` | app/webutil.js:225-231 | On the native path, a `mouseup`/`touchend` reaching the captured element ends the native capture through its own listener. |
| `Capture.CaptureController.constructor` | app/webutil.js:205-206 | The module's initial state: no target, guard clear, no overlay, no listeners. |
| `Capture.CaptureController.ReleaseCapture` | app/webutil.js:279-295 | Updates the fields exactly as `Release` says, and reports the TypeError. |
| `Capture.CaptureController.SetCapture` | app/webutil.js:224-277 | Updates the fields exactly as `Begin` says. |
| `Capture.CaptureController.CaptureProxy` | app/webutil.js:207-222 | Updates the fields exactly as `Proxy` says: guard, clone dispatched at the target (re-entering through the window), guard cleared, release on `mouseup`/`touchend`. |
| `Capture.CaptureController.DispatchAt` | app/webutil.js:229-231 | Dispatch at a page element: it is logged, the element's `releaseCapture` listeners run, then the window's proxy runs, as `DeliverAt` says. |
| `Capture.CaptureController.DispatchOnOverlay` | app/webutil.js:259-263 | Dispatch on the overlay, shown, or hidden for a touch: its proxy runs, then the window's, as `DeliverOverlay` says. |
| `Capture.CaptureController.DispatchOnWindow` | app/webutil.js:271-275 | Dispatch at the window: its proxy runs, as `DeliverWindow` says. |
| `Capture.CanvasDrag` | app/webutil.js:207-222 | Capture a canvas, then move and release outside the viewport. The canvas receives the move and then the release, with the same payloads, and capture has ended. |
| `UrlVars.LineEnd` | app/webutil.js:29 | The greedy `.*` from i reaches the next line terminator or the end, and no further. |
| `UrlVars.Backtrack` | app/webutil.js:29-30 | Backtracking `.*` from j down to i finds the rightmost key in that range, or reports that there is none. |
| `UrlVars.Search` | app/webutil.js:29-30 | Returns the leftmost start and its key. Before that start there is no key. The key is on the start's line, with no later key before the line ends. `None` only when no key exists. |
| `UrlVars.Value` | app/webutil.js:29 | The captured group is the longest prefix after `=` that holds no stop character. |
| `UrlVars.ChosenUnique` | app/webutil.js:29-30 | At most one occurrence satisfies `Chosen`. |
| `UrlVars.SearchFindsChosen` | app/webutil.js:29-30 | The search finds nothing exactly when no key occurs. Otherwise it finds the chosen key: the rightmost key on the first line that holds a key. |
| `UrlVars.ChosenExists` | app/webutil.js:29-30 | Whenever a key occurs, one occurrence is the chosen one, so the two clauses of `Lookup` cover every input. |
| `UrlVars.Lookup` | app/webutil.js:27-50 | A match exists exactly when a key occurs, and its value is the one after the chosen key. |
| `UrlVars.GetQueryVar` | app/webutil.js:27-37 | `getQueryVar` returns the text after the chosen `?NAME=`/`&NAME=` up to the first `&` or `#`. It returns the default (null when absent) when no key occurs. |
| `UrlVars.GetHashVar` | app/webutil.js:40-50 | `getHashVar` returns the text after the chosen `#NAME=`/`&NAME=` up to the first `&`, and the default when no key occurs. |
| `UrlVars.GetConfigVar` | app/webutil.js:54-61 | A key in the fragment wins whatever the query holds. With none, `getConfigVar` returns `getQueryVar` with the caller's default. |
| `Cookies.Split` | app/webutil.js:91 | `split(';')` yields at least one piece, and no piece holds the separator. |
| `Cookies.JoinSplit` | app/webutil.js:91 | Joining the pieces gives back the cookie string. |
| `Cookies.SplitJoin` | app/webutil.js:91 | Splitting joined separator-free pieces gives back the pieces. |
| `Cookies.TrimLeadingSpaces` | app/webutil.js:95 | The result is a suffix of the piece, the part dropped is all spaces, and the result does not start with a space. |
| `Cookies.StripSpaces` | app/webutil.js:95 | The source's space-stripping loop computes `TrimLeadingSpaces`. |
| `Cookies.AnswerFound` | app/webutil.js:93-96 | The rest of the first piece that names the cookie is the only answer when some piece names it. |
| `Cookies.AnswerDefault` | app/webutil.js:98 | When no piece names the cookie, the default is the answer. |
| `Cookies.ReadCookie` | app/webutil.js:88-99 | For the first piece that starts with `name=` once trimmed, the result is the rest of that piece. When no piece does, the result is the default (null when undefined). |

## Left out

- `decodeURIComponent` (app/webutil.js:33, 46) is foreign library behaviour. The URL readers return the raw captured text, and the URIError it throws on malformed escapes is not modelled.
- `name` is taken literally in the URL patterns (app/webutil.js:29, 42). The model assumes names hold no regular-expression metacharacters.
- Defaults are modelled as optional strings. `undefined` and `null` both become `None`, and the module returns null for both.
- `createCookie`, `eraseCookie`, the settings functions, `init_logging` and `injectParamIfMissing` are not modelled. They depend on `Date`, `document.cookie` writes, asynchronous extension storage, `localStorage`, the logging module and the browser's URL normalisation.
- Real DOM work is abstract: creating the overlay element, its CSS, event cloning through `e.constructor`, and the browser's own `setCapture`/`releaseCapture` (a field that records which element holds native capture).
- The checks for `elem.setCapture` and `window.TouchEvent` are modelled once per browser (`Platform`), not per element.
- `DeliverAt`: elements have no ancestors and are always in the document. A `mouseup`/`touchend` at a descendant of the natively captured element, which would bubble up to its `releaseCapture` listener (app/webutil.js:230-231), and an event at a detached element, which never reaches the window's listeners (app/webutil.js:271-275), are not modelled.
- Listeners other than the module's own are not modelled: the application's handlers on the target and on its ancestors. A handler that calls `releaseCapture` during a forwarded dispatch is therefore not modelled.
- Which touch began where is not tracked. Any `touchmove` or `touchend` on the hidden overlay is taken to be the tail of a touch that began on it while it was shown. `StrayTouch` names that case.
- The overlay is assumed to stay in the document once inserted. Removal by other code is not modelled.
