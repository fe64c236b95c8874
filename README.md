# Portfolio page: viewport and navigation state, in Dafny

This project models the decision logic of a one-page portfolio site's main
React component (`src/Portfolio.tsx`). Nearly all of that component is
markup. Its handlers contain the logic modelled here:

- the **scroll progress** shown by the progress bar, a clamped percentage of
  the scrollable distance;
- the **active section** highlighted in the navigation. Each of `hero`,
  `skills`, `projects` and `contact` is scored by how many of its pixel rows
  lie in the band from 114 px (a 64 px navigation bar plus 50 px) down to the
  window bottom. The strictly largest score wins. Then come a near-top
  override (`hero`) and a near-bottom override (`contact`);
- the **reveal-once set** of element ids that the intersection observer has
  seen, which only grows;
- **scroll-to-top**. The handler first tries a native smooth scroll and polls
  the offset to see whether it moves. When the offset is stalled, it falls
  back to an 800 ms ease-in-out-quad animation;
- the small **state machines**: the contact form (`idle` → `sending` →
  `success` with cleared fields → `idle`), the dark/light theme, the mobile
  menu, and `scrollToSection`'s optimistic highlight.

Browser readings are parameters: offsets, heights, bounding boxes,
observer entries, sampled positions and animation-frame times. Each callback
firing is one call. Pixel values are `int`. Ratios and percentages are exact
`real` values, which stand in for JavaScript doubles.

Files:

- `geometry.dfy` (module `Geometry`): reading the offset, the two
  document-height measures, `Progress`.
- `sections.dfy` (module `Sections`): `Overlap`, the scan, the overrides,
  `SelectActiveSection`.
- `visibility.dfy` (module `Visibility`): the observer callback and the
  reveal-once set.
- `scroll_to_top.dfy` (module `ScrollToTop`): the polling step, the stall
  detection, easing, the manual animation.
- `page.dfy` (module `Page`): class `PageState`, which holds the component's
  state fields, with one method per handler.

Where the code and what one would expect of the page differ, the model
follows the code:

- At offset 0 the active section is not always `hero`. The near-bottom check
  comes last and wins, so on a page whose top is already within 100 px of
  its end, `contact` is chosen (`Sections.BottomOverrideBeatsTop`).
- Both overrides run only for a section whose element exists. With no
  section element at all, the default `hero` stands.
- The near-bottom check measures the document with two readings (the two
  scroll heights). The progress bar uses five. It compares
  `offset + windowHeight` with that height minus 100.
- Equal scores do not keep the previously active section. They go to the
  earlier section in page order, and all-zero scores give `hero`.
- `scrollToSection` highlights the target only when its element exists.
  It closes the mobile menu in every case.

## Model

| member | source | states |
|---|---|---|
| `Geometry.ReadScrollY` | src/Portfolio.tsx:65 | the offset is the first non-zero of `pageYOffset`, root `scrollTop` and body `scrollTop`; it is 0 exactly when all three are 0 |
| `Geometry.DocumentHeight` | src/Portfolio.tsx:69-75 | the progress height is at least each of the five readings and equals one of them |
| `Geometry.BottomCheckHeight` | src/Portfolio.tsx:130-133 | the near-bottom height is at least each of the two scroll heights and equals one of them |
| `Geometry.BottomCheckHeightAtMostDocumentHeight` | src/Portfolio.tsx:130-133 | the two-reading height never exceeds the five-reading one |
| `Geometry.Progress` | src/Portfolio.tsx:77-83 | progress always lies in [0, 100], and is 0 whenever the scrollable height or the offset is not positive |
| `Geometry.ProgressExact` | src/Portfolio.tsx:80-83 | for 0 <= offset <= scrollable, progress is exactly offset / scrollable * 100 |
| `Geometry.ProgressFull` | src/Portfolio.tsx:82 | at or beyond the scrollable height, progress is exactly 100 |
| `Geometry.ProgressPositive` | src/Portfolio.tsx:81-82 | a positive offset on a scrollable page gives positive progress |
| `Geometry.ProgressMonotone` | src/Portfolio.tsx:80-83 | with the document fixed, progress never decreases as the offset grows |
| `Sections.Overlap` | src/Portfolio.tsx:113-116 | a section's visible height is never negative, is bounded by the band height and the box height, and is positive exactly when box and band intersect |
| `Sections.OverlapCountsCoveredRows` | src/Portfolio.tsx:113-116 | the visible height equals a row-by-row count of the box's pixel rows inside [114, windowHeight) |
| `Sections.CoveredRowsFrom` | src/Portfolio.tsx:114-116 | the row-by-row count from any row equals the clamped interval length |
| `Sections.ScanPrefix` | src/Portfolio.tsx:104-122 | after any prefix of the sections, the choice's score is the largest so far, and every earlier section scores strictly less |
| `Sections.OverlapWinnerIsEarliestMaximum` | src/Portfolio.tsx:104-122 | the overlap winner has maximal score and every earlier section scores strictly less: ties go to the earlier section, all-zero gives `hero` |
| `Sections.EarliestMaximumIsUnique` | src/Portfolio.tsx:118-122 | at most one section is the earliest maximum, so the strict comparison determines the winner |
| `Sections.AllZeroGivesHero` | src/Portfolio.tsx:104-105 | when every section scores zero or is missing, `hero` is chosen |
| `Sections.ActiveSectionCases` | src/Portfolio.tsx:124-136 | with no section element the result is `hero`; otherwise near-bottom gives `contact`, else offset < 100 gives `hero`, else (in all cases) the earliest section of maximal score |
| `Sections.BottomOverrideBeatsTop` | src/Portfolio.tsx:124-136 | the bottom override wins over the top one, even at offset 0 |
| `Sections.SelectActiveSection` | src/Portfolio.tsx:98-140 | the debounced loop, with overrides applied after every existing section, yields exactly the specified active section |
| `Visibility.IntersectingIdsMembership` | src/Portfolio.tsx:33-39 | an id is collected from a batch exactly when some intersecting entry carries it |
| `Visibility.RevealGrows` | src/Portfolio.tsx:36 | a callback batch never removes an id |
| `Visibility.NonIntersectingLeavesSet` | src/Portfolio.tsx:34-35 | a batch with no intersecting entry leaves the set unchanged |
| `Visibility.RevealIdempotent` | src/Portfolio.tsx:36 | delivering the same batch twice gives the same set as once |
| `Visibility.RevealAlreadyPresent` | src/Portfolio.tsx:36 | re-inserting ids that are already revealed changes nothing |
| `Visibility.CollectRevealed` | src/Portfolio.tsx:33-39 | the callback loop's result contains exactly the old ids and the ids of intersecting entries |
| `Visibility.RevealAllGrows` | src/Portfolio.tsx:33-39 | over any sequence of batches, an id once revealed stays revealed |
| `ScrollToTop.PollTick` | src/Portfolio.tsx:256-273 | one tick reports arrival exactly at offset 0, gives up exactly past tick 20 off the top, and falls back exactly at ticks 4..20 with the offset still at its start |
| `ScrollToTop.PollFrom` | src/Portfolio.tsx:254-274 | polling consumes at most the available samples, and keeps running only when it consumed them all |
| `ScrollToTop.PollShape` | src/Portfolio.tsx:254-273 | polling stops at the first tick whose step is not "keep polling", and that step decides the outcome |
| `ScrollToTop.PollStopsByLimit` | src/Portfolio.tsx:260-266 | given 21 samples, polling has always stopped, by tick 21 at the latest |
| `ScrollToTop.FallBackMeansStalled` | src/Portfolio.tsx:268-273 | fallback happens only at ticks 4..20, with the sampled offset equal to a non-zero start |
| `ScrollToTop.ArrivedMeansTop` | src/Portfolio.tsx:260-265 | "completed" is reported only when the sampled offset is 0 |
| `ScrollToTop.StalledScrollFallsBack` | src/Portfolio.tsx:268-273 | a native scroll that never moves triggers the fallback on the fourth tick |
| `ScrollToTop.RunPolling` | src/Portfolio.tsx:254-274 | the interval loop with its counter returns exactly the specified polling outcome and tick count |
| `ScrollToTop.EaseEndpoints` | src/Portfolio.tsx:287-289 | the easing gives 0 at 0 and 1 at 1, and both halves give 0.5 at 0.5 |
| `ScrollToTop.EaseSymmetric` | src/Portfolio.tsx:287-289 | the easing curve is point-symmetric: ease(1 - t) = 1 - ease(t) |
| `ScrollToTop.EaseMonotone` | src/Portfolio.tsx:287-289 | on [0, 1] the easing never decreases |
| `ScrollToTop.EaseRange` | src/Portfolio.tsx:287-289 | on [0, 1] the easing stays within [0, 1] |
| `ScrollToTop.AnimationFraction` | src/Portfolio.tsx:292-293 | the time fraction is at most 1, is 1 exactly from 800 ms on, and is non-negative for non-negative elapsed time |
| `ScrollToTop.AnimationStartsAtStart` | src/Portfolio.tsx:291-295 | the animation's position at 0 ms is the start offset |
| `ScrollToTop.AnimationReachesTop` | src/Portfolio.tsx:293-295 | from 800 ms on, the animation's position is exactly 0 |
| `ScrollToTop.AnimationMonotone` | src/Portfolio.tsx:291-295 | for a non-negative start the position only moves towards 0 and stays within [0, start] |
| `ScrollToTop.AnimateFrames` | src/Portfolio.tsx:283-310 | each frame writes the eased position; the loop stops at the first frame at or past 800 ms, whose position is 0 |
| `ScrollToTop.ScrollToTop` | src/Portfolio.tsx:235-314 | start 0 does nothing; otherwise the manual animation runs exactly when polling reports a stall, writes the eased position each frame, and stops at the first frame at or past 800 ms, whose position is 0 |
| `Page.Flip` | src/Portfolio.tsx:232 | toggling always changes the theme |
| `Page.FlipTwice` | src/Portfolio.tsx:231-233 | toggling twice restores the original theme |
| `Page.KeepMonitoring` | src/Portfolio.tsx:197-200 | the monitor continues exactly while the target's top is more than 10 px above or below the viewport top |
| `Page.PageState.constructor` | src/Portfolio.tsx:8-21 | the initial state: offset 0, progress 0, `hero`, nothing revealed, menu closed, empty fields, `idle`, `dark` |
| `Page.PageState.OnScroll` | src/Portfolio.tsx:63-94 | stores the read offset and its progress; nothing else changes |
| `Page.PageState.OnSectionCheck` | src/Portfolio.tsx:98-141 | sets the active section to the specified choice, with the offset captured by the scheduling scroll event and the two-reading height |
| `Page.PageState.OnIntersect` | src/Portfolio.tsx:33-39 | the revealed set grows by the batch's intersecting ids and loses nothing |
| `Page.PageState.ScrollToSection` | src/Portfolio.tsx:164-206 | highlights the target only when its element exists; always closes the menu |
| `Page.PageState.MonitorFrame` | src/Portfolio.tsx:176-201 | refreshes offset and progress as the scroll handler does, and continues exactly while the target is more than 10 px away |
| `Page.PageState.ToggleMenu` | src/Portfolio.tsx:592 | the menu button inverts the menu's state |
| `Page.PageState.EditName` | src/Portfolio.tsx:942 | typing replaces the name field only |
| `Page.PageState.EditEmail` | src/Portfolio.tsx:953 | typing replaces the email field only |
| `Page.PageState.EditMessage` | src/Portfolio.tsx:964 | typing replaces the message field only |
| `Page.PageState.SubmitContact` | src/Portfolio.tsx:209-211 | submitting sets the status to `sending` |
| `Page.PageState.SendCompleted` | src/Portfolio.tsx:213-215 | the simulated send sets `success` and clears name, email and message |
| `Page.PageState.ConfirmationExpired` | src/Portfolio.tsx:216 | the confirmation timer returns the status to `idle` |
| `Page.PageState.ToggleTheme` | src/Portfolio.tsx:231-233 | the theme becomes the other theme |
| `Page.ContactRoundTrip` | src/Portfolio.tsx:209-218 | submit, completion and expiry end `idle` with empty fields and every other field unchanged, and no handler ever sets `error`; the pass through `sending` and `success` is carried by the contracts of `SubmitContact` and `SendCompleted` |

## Left out

- Timer and animation-frame scheduling are not modelled: the 50 ms
  debounce, the 16 ms polling interval, `requestAnimationFrame`, the 500 ms,
  1000 ms, 2000 ms and 3000 ms timeouts, and the cleanup on unmount. Each
  callback firing is one method call, and the caller picks the order.
  Timeouts that are cleared and superseded are not modelled either.
- Browser APIs are parameters: `getBoundingClientRect`, `scrollIntoView`,
  `window.scrollTo`, `performance.now`, `window.innerHeight` and the
  height readings. `ScrollToTop.ScrollToTop` returns the positions it would
  write instead of scrolling.
- The observer's threshold (10 %) and bottom margin (-50 px) are not
  modelled. Each entry arrives already marked as intersecting or not.
- The `try`/`catch` around the native smooth scroll, whose `catch` path also
  starts the manual animation, is not modelled. It depends on a browser
  throwing.
- Pointer tracking (`handleMouseMove`), the parallax and glow effects, the
  `isLoaded` fade-in timer, the CV download through a temporary anchor,
  external links, `console.log` output, all JSX, styling, icons and UI
  library components are presentation or foreign code.
- `vite.config.ts` is build configuration and is not part of this model.
- Pixel readings are integers, although browsers may report fractional
  offsets and boxes. Doubles are exact reals, so rounding is not modelled.
- Offsets are not clamped at zero. A negative rubber-band offset gives
  progress 0 and counts as "near the top".
- `Page.ContactRoundTrip` ignores a second submission while `sending`. The
  submit button is disabled then, but the handler does not check for it,
  and the interleaving of two pending timers is not modelled.
