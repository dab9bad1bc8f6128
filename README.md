# Portfolio scene controller: a verified model

A Dafny model of the logic in `main.js` of a Three.js portfolio scene. A
loaded character ("Shoes") steps one tile at a time on W/A/S/D or the arrow
keys. A lock stops a new step while the tween of the last one runs. Each step
turns the character to a fixed heading, taken the short way round. The
pointer picks allow-listed scene nodes. A click on the picked node either
opens a direct link or fills the modal from a content table.

Modules, one concern each:

- `Angles` (angles.dfy): `normalizeRotation` as a method with its two loops, proved equal to a closed form `WrapDelta`.
- `Content` (content.dfy): the tables `directLinks`, `modelContent` and `intersectObjectsNames`, and their lookups with JavaScript's truthiness.
- `Ui` (ui.dfy): the DOM as a record (modal visibility, title, text, visit button, cursor, opened windows), with `openModal` as an update of that record.
- `Input` (input.dfy): the key-to-step table of `onKeyDown` and the pointer mapping of `handlePointerMove`.
- `Picking` (picking.dfy): the load-time name filter, the hover rule of `animate` and the decision `onClick` takes.
- `Portfolio` (portfolio.dfy): the module-level state as two classes. `Character` holds `instance`, its transform, `isMoving` and the running timeline. `Experience` holds the page record, the pointer, `intersectObject` and `intersectObjects`. Their methods are the event handlers.

Modelling choices:

- `Math.PI` is the real number 3.141592653589793. Arithmetic is exact.
- A gsap timeline is a pending `Move`: the target position and the target heading. `OnMoveComplete` is its `onComplete`. It puts the character at the end values and releases the lock. The hop goes up and comes back (yoyo), so it ends at the starting y, which is the target's y.
- When no character is loaded, `character.instance.position` throws a TypeError in `onKeyDown` (main.js:283). The handler stops there. The model returns at that point, after the Escape check has already run.
- The raycaster's result is an input: a list of hits, each with a distance and the name of the hit object's parent.
- `main.js` has no physics and no exponential smoothing. A step tweens the position and the heading together over `moveDuration` (main.js:249-261), the heading towards the wrapped target. The model keeps only the end values.
- `intersectObject` is the parent name of the first hit, and the raycaster sorts hits nearest first. The lemma `HoveredIsNearest` shows that the first hit is then a nearest one.
- `normalizeRotation` yields (-π, π] when the difference starts above π and [-π, π) when it starts below -π. `WrapDelta` states both cases.
- `onClick` listens on `window` (main.js:315), so a click on one of the modal's buttons runs the button's own handler and then `onClick`. `OnExitClick` and `OnVisitClick` model both, in that order.

## Model

| member | source | states |
|---|---|---|
| Angles.TurnsRemoved | main.js:226-231 | turns come off exactly when the difference is above π and are added exactly when it is below -π; none when it lies in [-π, π] |
| Angles.WrapDelta | main.js:224-233 | the wrapped difference lies in [-π, π]; in (-π, π] when it started above π and in [-π, π) when it started below -π; unchanged when already in range |
| Angles.WrapDeltaSameHeading | main.js:226-231 | wrapping changes the difference only by whole turns, so the heading is the same |
| Angles.WrapDeltaUnique | main.js:222-234 | strictly inside (-π, π) there is one representative of a heading, and it is the one the wrap returns |
| Angles.TurnsTakenOff | main.js:226-228 | whole turns taken off a difference above π that land it in (-π, π] are exactly the turns of the wrap |
| Angles.TurnsAdded | main.js:229-231 | whole turns added to a difference below -π that land it in [-π, π) are exactly the turns of the wrap |
| Angles.ThreeQuarterTurnGoesBack | main.js:222-234 | a difference of 3π/2 is taken the short way, as -π/2 |
| Angles.NormalizeRotation | main.js:222-234 | the two loops return current + WrapDelta(target - current): within π of the current heading, the same heading as the target, and the target itself when it was already within π |
| Content.DirectLink | main.js:10-12 | a direct link exists exactly for a name in the table whose URL is non-empty, and it is that URL |
| Content.Lookup | main.js:16-37 | a modal entry exists exactly for the names of the content table |
| Ui.OpenModal | main.js:44-65 | a name without an entry changes nothing; otherwise the modal is shown with the entry's title and text, and the visit button is shown exactly when the entry has a link, which it then opens; cursor and opened windows untouched |
| Ui.HideModal | main.js:66-68 | adds the hidden class and changes nothing else |
| Ui.OpenWindow | main.js:215 | appends the URL to the opened windows, modal and cursor untouched |
| Ui.ClickVisit | main.js:59-61 | a visit button that is displayed in a shown modal and has a link opens that link; otherwise nothing happens |
| Ui.OpenModalIdempotent | main.js:44-65 | opening the same name twice equals opening it once |
| Ui.VisitOpensEntryLink | main.js:57-61 | after opening an entry with a link, the visit button opens exactly that link |
| Ui.NoVisitWithoutLink | main.js:62-64 | after opening an entry without a link, the visit button opens nothing, whatever link an earlier entry installed |
| Ui.NoVisitWhenHidden | main.js:59-68 | once the modal is hidden again, the visit button opens nothing, even for an entry with a link |
| Ui.ModalExamples | main.js:22-36 | "Project_1" shows "Project One" with the visit button; "Shoes" shows "About Me" without it; "Text002" has no entry and changes nothing |
| Input.LowerChar | main.js:286 | A-Z become a-z; every other character stays |
| Input.ToLower | main.js:286 | lower-cases a key character by character, same length |
| Input.ToLowerIdempotent | main.js:286 | lower-casing twice equals lower-casing once |
| Input.StepFor | main.js:286-309 | a key moves the character exactly when its lower-cased form is one of the eight movement keys; every move changes exactly one of x and z, by ±moveDistance, and faces -π/2, π/2, 0 or π |
| Input.Target | main.js:283-306 | the target position is the current one moved by the step in x and z; y is never touched |
| Input.StepForCaseInsensitive | main.js:286 | a key and its lower-cased form give the same move |
| Input.KeyTable | main.js:286-309 | w/ArrowUp: x += 10 facing -π/2; s/ArrowDown: x -= 10 facing π/2; a/ArrowLeft: z -= 10 facing 0; d/ArrowRight: z += 10 facing π; upper case alike; Escape and space do not move |
| Input.OppositeKeysCancel | main.js:287-306 | w then s, and a then d, return to the starting position, and their headings differ by π |
| Input.NdcAxis | main.js:205-206 | 0 maps to -1, the size to 1, and a coordinate maps below 0 exactly when it lies left of (above) the middle |
| Input.LeftHalf | main.js:205-206 | a coordinate is under half the size exactly when its fraction of the size is under one half |
| Input.PointerToNdc | main.js:204-208 | x maps [0, width] linearly onto [-1, 1]; y is the same mapping of clientY, negated |
| Input.NdcAxisInRange | main.js:205-206 | a coordinate maps into [-1, 1] exactly when it lies in [0, size] |
| Input.NdcRoundTrip | main.js:205-206 | the pointer mapping and its inverse undo each other |
| Input.NdcCorners | main.js:204-208 | the top-left corner maps to (-1, 1), the bottom-right to (1, -1), the centre to (0, 0) |
| Picking.AllowListed | main.js:108-111 | the registered nodes are at most the traversed ones and all carry allow-listed names |
| Picking.AllowListedAppend | main.js:108-111 | filtering a traversal split in two filters the parts in order, so traversal order is kept |
| Picking.AllowListedMembers | main.js:109-110 | a node is registered exactly when it was traversed and its name is allow-listed |
| Picking.AllowListedCounts | main.js:109-110 | an allow-listed node is registered as often as it was traversed, any other node never |
| Picking.AllowListedIdempotent | main.js:109-110 | filtering the registered nodes again changes nothing |
| Picking.CharacterIndex | main.js:113-115 | the character is the last traversed node named "Shoes", and there is none exactly when no node has that name |
| Picking.Hovered | main.js:330-332 | nothing is hovered exactly when nothing is hit; otherwise the first hit's parent name |
| Picking.CursorFor | main.js:323-328 | the cursor is the pointer exactly when something is hit |
| Picking.CursorShowsHover | main.js:323-332 | the cursor is the pointer exactly when a name is hovered, and the default exactly when none is |
| Picking.HoveredIsFirstHit | main.js:330-332 | only the first hit decides the hovered name, however many hits follow |
| Picking.HoveredIsNearest | main.js:321-332 | with hits sorted nearest first, the hovered name belongs to a hit no farther than any other |
| Picking.ClickOutcome | main.js:210-219 | nothing hovered: ignore; a direct link: open it; otherwise show the entry, or nothing when there is none |
| Picking.Perform | main.js:210-219 | ignoring changes nothing; opening a link appends it with the pointer cursor and leaves the modal; showing info is openModal |
| Picking.ClickWithoutTargetIsInert | main.js:210-219 | with nothing hovered, or a name in neither table, a click changes nothing |
| Picking.DirectLinkBypassesModal | main.js:213-215 | a direct-link name opens its URL with the pointer cursor and leaves the modal untouched |
| Picking.ClickShowsInfoIff | main.js:213-218 | the modal opens on a click exactly when the name is no direct link and has an entry, and then shows that entry's title |
| Picking.HoverThenClickExamples | main.js:210-219 | hovering "Project_1" then clicking shows "Project One"; "Scene" opens its URL without the modal; "Text002" does nothing |
| Picking.ExitButtonClick | main.js:66-68 | after the exit button's listener and then onClick (main.js:210-219), which runs too because it listens on window (main.js:315), the modal is shown exactly when the hovered name opens the modal; the only window opened is a hovered direct link |
| Picking.VisitButtonClick | main.js:59-61 | the visit button opens its link when it can be clicked, then onClick (main.js:210-219, reached through the window listener of main.js:315) opens a hovered direct link, in that order |
| Picking.ExitClickReopensBehind | main.js:210-219 | with nothing hovered the exit button closes the modal; with "Project_1" hovered behind it the modal opens again at once showing "Project One"; with "Text002" the modal just closes |
| Picking.VisitClickOverDirectLinkOpensTwo | main.js:213-215 | a visit click over the "Scene" node opens two windows: the entry's link, then the direct link |
| Portfolio.Character.constructor | main.js:97-103 | no character instance, not moving, no timeline |
| Portfolio.Character.SetInstance | main.js:113-115 | the node becomes the instance and its transform the one moved; the lock is untouched |
| Portfolio.Character.MoveCharacter | main.js:236-247 | takes the lock and starts a timeline to the target with the heading wrapped to within π of the current one and the same as the target heading; nothing moves yet |
| Portfolio.Character.FinishMove | main.js:243-246 | the timeline's completion puts the character at the target position and heading and releases the lock |
| Portfolio.Experience.constructor | main.js:72-73 | nothing hovered, nothing registered, no character |
| Portfolio.Experience.Load | main.js:108-115 | registers exactly the allow-listed nodes in traversal order and makes the last "Shoes" node the character; nothing else changes |
| Portfolio.Experience.HandlePointerMove | main.js:204-208 | the pointer becomes the mapped coordinates, inside [-1, 1] exactly when the event lies on the window |
| Portfolio.Experience.Animate | main.js:318-332 | the cursor follows whether anything is hit, and the hovered name is the first hit's parent name or none |
| Portfolio.Experience.OnClick | main.js:210-220 | the page changes as the click decision says: nothing, a direct link, or the modal |
| Portfolio.Experience.OnKeyDown | main.js:276-311 | Escape hides the modal even while moving; a held lock, a missing character or another key start nothing; a movement key starts a move one step along its axis, heading wrapped; position and heading do not change until the tween ends |
| Portfolio.Experience.OnMoveComplete | main.js:244-246 | the lock is released and the character stands at the end of the move |
| Portfolio.Experience.OnExitClick | main.js:66-68 | the exit button hides the modal, then onClick (main.js:210-219, on window at main.js:315) acts on the hovered name; nothing else changes |
| Portfolio.Experience.OnVisitClick | main.js:59-61 | the visit button runs the handler openModal installed, then onClick (main.js:210-219, on window at main.js:315) acts on the hovered name; nothing else changes |

## Left out

- Renderer, lights, shadow helpers, the orthographic camera, OrbitControls and `handleResize` (main.js:88-94, 155-202): graphics configuration with nothing to state.
- Material and shadow settings in the traversal (main.js:117-145): cosmetic data. `Load` models only the name pass.
- GLTF loading and its error callback (main.js:105-153): asynchronous I/O. `Load` takes the traversal as a sequence of nodes in traversal order. A failed load never calls it, so no character exists.
- The gsap interpolation, the hop height `jumpHeight` and `moveDuration` (main.js:243-273): time-based animation by an external library. Only the start of a timeline and its end state at `onComplete` are modelled.
- Raycasting (main.js:319-321): library geometry. The hit list is an input.
- The DOM, `classList`, `style`, `window.open` and `console.log`: a record of the fields main.js writes, and a list of opened URLs.
- Floating point: angles and coordinates are reals, and `Math.PI` is its decimal value.
- Input.ToLower, Input.LowerChar: map only A-Z. Full Unicode lower-casing is not modelled. No other character lower-cases into one of the movement key names.
- Content.DirectLink, Content.Lookup: keys inherited from `Object.prototype` (such as "constructor") are not modelled. JavaScript would find them truthy in `directLinks` and `modelContent`.
- Portfolio.Experience.Load: stores a copy of each registered node's value in `intersectObjects`, and keeps the character's transform in `Character`. The source registers the very object the character moves (main.js:110, 114), so the model does not capture that the registered "Shoes" node moves with the character. Picking reads only names, which never change.
- Portfolio.Experience.HandlePointerMove: requires a window of positive size. With a zero size the source divides by zero, giving Infinity or NaN.
- Portfolio.Character.MoveCharacter: requires the lock to be free. Its only caller checks this, so two overlapping timelines are not modelled.
- Touch buttons, jumping with gravity, capsule collision and respawn: not in this source.
