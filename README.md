# Contact form validator and home-page scroll effects

A Dafny model of the client-side scripts of a small business website.

- `contact.dfy`, module `Contact`, models the contact form's submit handler (`contacto.js`).
  - The handler trims the name, e-mail and inquiry fields.
  - It checks, in this order, that the three fields are complete, that the e-mail has the shape `^[^\s@]+@[^\s@]+\.[^\s@]+$`, and that the privacy box is checked. The first failed check decides.
  - It writes one of four fixed messages, each with a leading space, and the class `error` or `success` to the feedback element.
  - On success only, it resets the form and starts a 5000 ms timer whose callback hides the feedback element.
  - The guard chain is the pure function `Validate`. The feedback element and the form are the classes `Feedback` and `ContactForm`. `ContactForm.Submit` applies the outcome. `Feedback.HideTimerFires` is the timer callback.
  - Whitespace is the exact set that both `String.prototype.trim` and the class `\s` use: the WhiteSpace and LineTerminator productions of ECMA-262 (sections 12.2 and 12.3 of the 2023 edition), with the Zs code points of current Unicode.
  - `EmailShapeOk` reads the pattern literally: a run of `[^\s@]`, `@`, a run, `.`, a run. `ShapeByRules` states the same shape as rules, and `EmailShapeOkIffRules` proves the two agree. The rules are: no whitespace, exactly one `@`, a non-empty local part, and a domain with a `.` that is neither its first nor its last character.
- `home.dfy`, module `Home`, models the decision rules of the home page's scroll effects (`home.js`).
  - `Parallax` holds the `ticking` flag of the animation-frame throttle. A ghost count of pending frames stands for the browser's frame queue. The invariant `Valid()` holds that `ticking` is true exactly when one frame is pending.
  - `UpdateParallax` writes the video's shift and opacity only while the offset is below the hero's height.
  - `Header.OnScroll` picks the header variant with the threshold at 100.
  - `Viewport.OnCtaClick` scrolls to the target's `offsetTop` minus 160.
  - `SectionObserver` conceals the sections at load and reveals them one way.
  - Offsets and the opacity are exact `real`s.

Three behaviours of the code worth stating:
- At a scroll offset equal to the hero height the code writes nothing, because its test is `scrollPosition < heroHeight` (home.js:22). So `UpdateParallax` leaves the video untouched at that offset.
- For non-negative offsets inside the hero, `1 - (scroll/heroHeight)·0.7` is always above 0.3. The `Math.max(…, 0.3)` floor therefore never takes effect (`ParallaxOpacity`, `OpacityCoversRange`): the written opacities are exactly those in (0.3, 1].
- Each of the four feedback texts begins with a space (contacto.js:14, 20, 26, 31).

## Model

| member | source | states |
|---|---|---|
| `Contact.TrimStart` | contacto.js:5-7 | the leading half of `String.prototype.trim`; characterised by `TrimStartSpec` |
| `Contact.TrimEnd` | contacto.js:5-7 | the trailing half of `String.prototype.trim`; characterised by `TrimEndSpec` |
| `Contact.Trim` | contacto.js:5-7 | `String.prototype.trim` on each field; characterised by `TrimInfix`, `TrimEnds` and `TrimEmptyIffBlank` |
| `Contact.TrimStartSpec` | contacto.js:5-7 | leading trim removes exactly a whitespace-only prefix and leaves a result that does not start with whitespace |
| `Contact.TrimEndSpec` | contacto.js:5-7 | trailing trim removes exactly a whitespace-only suffix and leaves a result that does not end with whitespace |
| `Contact.TrimInfix` | contacto.js:5-7 | the trimmed value is an infix of the raw value with only whitespace before and after it |
| `Contact.TrimEnds` | contacto.js:5-7 | a non-empty trimmed value neither starts nor ends with whitespace |
| `Contact.TrimEmptyIffBlank` | contacto.js:5-7 | the trimmed value is empty (falsy) exactly when the raw value is whitespace only |
| `Contact.TrimIdempotent` | contacto.js:5-7 | trimming twice equals trimming once |
| `Contact.TrimOfTrimmed` | contacto.js:5-7 | a value without whitespace at either end is left unchanged by trim |
| `Contact.TrimPadded` | contacto.js:6 | a single space around an e-mail is removed and nothing else |
| `Contact.EmailShapeOk` | contacto.js:11-19 | the test of the e-mail pattern, read literally as three `[^\s@]` runs around an `@` and a `.`; characterised by `EmailShapeOkIffRules` and `SplitEmail` |
| `Contact.PatternImpliesRules` | contacto.js:11 | a match of the pattern has no whitespace, exactly one '@', a non-empty local part and an inner '.' in the domain |
| `Contact.RulesImplyPattern` | contacto.js:11 | every string meeting those four rules matches the pattern |
| `Contact.EmailShapeOkIffRules` | contacto.js:11 | the pattern matches exactly the strings meeting the four rules (both directions) |
| `Contact.EmailOfParts` | contacto.js:11 | local + "@" + domain + "." + top matches when the three parts are non-empty runs without whitespace or '@' |
| `Contact.SplitEmail` | contacto.js:11 | every match splits into such local, domain and top parts, where the domain may hold dots |
| `Contact.EmailExampleShort` | contacto.js:11 | "a@b.c" matches |
| `Contact.EmailExampleScenario` | contacto.js:11 | "ana@test.com" matches |
| `Contact.EmailExampleNoDot` | contacto.js:11 | "a@b" is refused |
| `Contact.EmailExamplesRefused` | contacto.js:11 | an inner space, a doubled '@' and an empty local part are each refused |
| `Contact.Message` | contacto.js:13-32 | every one of the four feedback texts begins with a space |
| `Contact.StyleClass` | contacto.js:13-32 | the class is 'success' exactly for an accepted form and 'error' for the three refusals |
| `Contact.Validate` | contacto.js:5-29 | the missing-fields error iff a trimmed field is empty; else the e-mail error iff the shape fails; else the consent error iff the box is unchecked; otherwise accepted |
| `Contact.ValidateByRules` | contacto.js:5-29 | the same four outcomes stated on the raw values: a field counts as missing exactly when it is whitespace only |
| `Contact.BlankFieldIsMissing` | contacto.js:13-17 | an empty or whitespace-only field gives the missing-fields error with class 'error', whatever the e-mail and the consent |
| `Contact.EmailCheckedBeforeConsent` | contacto.js:19-29 | with complete fields, a badly shaped e-mail gives the e-mail error whether or not consent is given |
| `Contact.ConsentDecidesLast` | contacto.js:25-32 | with complete fields and a well-shaped e-mail, an unchecked box gives the consent error and a checked one acceptance |
| `Contact.ScenarioAccepted` | contacto.js:5-32 | Ana / ana@test.com / Hola / consent is accepted with class 'success' |
| `Contact.ScenarioMissingName` | contacto.js:13-15 | an empty name gives the missing-fields error with class 'error' |
| `Contact.ScenarioPaddedNoConsent` | contacto.js:5-29 | " a@b.c " is trimmed, passes the shape check and is refused only for the missing consent |
| `Contact.ScenarioBadShapeNoConsent` | contacto.js:19-29 | "a@b" without consent is refused for its shape, not for the consent |
| `Contact.Feedback.HideTimerFires` | contacto.js:35-37 | the timer callback sets display to 'none' and leaves the text and class alone |
| `Contact.ContactForm.Submit` | contacto.js:2-38 | writes exactly the outcome's message and class; never writes display; only on success resets the fields to empty/unchecked and schedules one hide timer; on every error leaves the fields as they were |
| `Contact.HiddenStaysHidden` | contacto.js:31-37 | once the hide timer has fired, a later submission leaves the feedback element hidden |
| `Home.ParallaxOpacity` | home.js:22-32 | inside the hero the opacity is the linear fade, lies in (0.3, 1] and is 1 at offset 0; its division is by a positive height |
| `Home.OpacityFades` | home.js:31-32 | a larger offset inside the hero never gives a higher opacity, and a strictly larger one gives a strictly lower opacity |
| `Home.OpacityCoversRange` | home.js:31-32 | every opacity in (0.3, 1] is reached at some offset inside the hero |
| `Home.Parallax.constructor` | home.js:11 | the throttle starts with `ticking` false, no pending frame and no inline style on the video |
| `Home.Parallax.Valid` | home.js:11-44 | the throttle invariant: `ticking` is true exactly when one frame is pending, so never more than one is; kept by every method of `Parallax` |
| `Home.Parallax.RequestTick` | home.js:39-44 | while ticking nothing is scheduled; otherwise exactly one frame is scheduled and ticking set; `ticking` iff one frame is pending is kept |
| `Home.Parallax.UpdateParallax` | home.js:17-36 | below the hero height writes shift 0.5·offset and the fade opacity; from the hero height on leaves transform and opacity exactly as they were; always ends with ticking false and no frame pending |
| `Home.ScrollBurst` | home.js:39-47 | any number n ≥ 1 of scroll events before a frame leaves exactly one frame pending and the video untouched |
| `Home.ScrollBurstThenFrame` | home.js:17-47 | a burst of scroll events followed by its frame leaves no frame pending and `ticking` false |
| `Home.HeaderVariantFor` | home.js:181-189 | the header is solid exactly when the offset exceeds 100, semi-transparent otherwise |
| `Home.HeaderVariantMonotone` | home.js:181 | once solid at an offset, the header is solid at every larger offset |
| `Home.HeaderExamples` | home.js:181-189 | offsets 0 and 100 give semi-transparent, 101 and 10000 give solid |
| `Home.Header.OnScroll` | home.js:177-192 | the new variant is a function of the current offset alone |
| `Home.HeaderRestyleIdempotent` | home.js:177-192 | restyling twice for the same offset leaves the header as one restyle does |
| `Home.CtaScrollTop` | home.js:157-160 | there is a scroll target exactly when the element exists, and the target is 160 above its offsetTop |
| `Home.Viewport.OnCtaClick` | home.js:152-167 | a click scrolls to offsetTop − 160 when the target exists and requests nothing otherwise |
| `Home.SectionObserver.ObserveSections` | home.js:198-219 | every section gets opacity 0, a 30px downward shift and its transition, and is observed |
| `Home.SectionObserver.OnEntries` | home.js:205-212 | a target reported intersecting becomes opacity 1 and shift 0; every other target keeps its style; a revealed section stays revealed |

The constructors of `Contact.Feedback`, `Contact.ContactForm`, `Home.Header`, `Home.Viewport`, `Home.Section` and `Home.SectionObserver` only set up the initial state (an unstyled element, the field values read at submit time) and have no row of their own.

## Left out

- The map initialiser (contacto.js:41-54): it only calls the Leaflet library and the OpenStreetMap tile service, both foreign code.
- Video playback (home.js:53-99): the playback rate, the `play()` promise with its autoplay-rejection branch, the pause/resume observer and the load/error listeners. These are asynchronous browser media calls.
- The replacement play button and its hover styling (home.js:106-144): presentation only.
- The observers' geometry (thresholds 0.25 and 0.1, the -100px root margin) and the 5000 ms delay. The callbacks and the timer are methods that the environment calls (`OnEntries`, `HideTimerFires`, `UpdateParallax`). The hide timers appear only as a count of pending ones.
- The concrete CSS strings: the header gradients and shadows are the variants `Solid` and `SemiTransparent`; the transform strings are their pixel offsets; the transition string is a flag.
- The smooth-scroll animation itself: `OnCtaClick` records only the requested top.
- `e.preventDefault()` in both handlers: the model has no page navigation for it to suppress.
- The `lastScroll` variable (home.js:175, 191): it is written but never read.
- Console logging.
- IEEE-754 rounding in the opacity and shift arithmetic: these are exact reals.
- DOM lookups that may return null and would throw (`video`, `heroSection`, `header`): the model assumes they exist. The CTA target is the optional `offsetTop` of the element its href names.
- `Home.Parallax.UpdateParallax`: assumes the video exists. The code treats it as optional elsewhere (home.js:53), but writes `video.style.transform` unguarded (home.js:28). Without a video, a frame at an offset inside the hero throws before `ticking = false` (home.js:35), so `ticking` stays true and no frame is ever requested again. The model's `!ticking` after every frame does not cover that case.
- `Home.Parallax.UpdateParallax`: assumes a non-negative scroll offset (type `Offset`) and an integer hero height. A negative overscroll offset passes `scrollPosition < heroHeight` (home.js:22). The code then writes a negative shift and, for a positive height, an opacity above 1 (home.js:25-32); over a zero-height hero it divides by zero. None of these cases is modelled.
- `Contact.ContactForm.Submit`: `reset()` restores the fields' HTML default values. The model takes those defaults to be empty fields and an unchecked box.
- Strings are sequences of Unicode scalar values, while the code's strings and its non-`u` pattern work on UTF-16 code units. Outcomes agree on every well-formed string, because every whitespace code point is in the Basic Multilingual Plane and a surrogate pair counts as a `[^\s@]` run in both readings. A lone surrogate cannot be represented.
