# Om Computer Hub page behaviour, in Dafny

A model of the three pieces of logic in the page script `script.js` of the
Om Computer Hub marketing site:

- the **hero slider** (`SlideIndex`, `HeroSlider`): a current slide index over
  the `.slide` elements and their `.dot` indicators, each carrying an `active`
  flag; next/previous buttons, dot clicks and an auto-advance interval that is
  cleared and restarted on every manual move;
- the **business-hours indicator** (`BusinessHours`): whether the shop is open
  at a given local day of the week and hour (Sunday 10:00–13:00, Monday to
  Saturday 9:00–20:00), and the "Open"/"Closed" label and colour written to
  the status element;
- the **hours dropdown** (`HoursDropdown`): the opening-hours list shown or
  hidden by its toggle, with the toggle icon turned in step, and hidden by a
  click elsewhere on the page.

The slider is a class over two `array<bool>` (the `active` flags of slides and
dots), updated in place as the page updates the elements' classes. The browser's
interval timers become a table of live handles inside the slider: `setInterval`
hands out a handle never used before, `clearInterval` removes it, and only a
live interval fires (`Slider.Fire`).

The index is normalised as the code writes it, `(index + N) % N` with
JavaScript's truncating `%` (`SlideIndex.JsRem`), where `N` is the number of
slides. For `index >= -N` this is a valid index congruent to `index` modulo
`N` (`SlideIndex.Wrap`); every caller meets that bound (`currentSlide - 1 >= -1`,
dot positions `>= 0`), so `GoToSlide` requires it. For `-2N < index < -N` the
result is negative (`SlideIndex.UnguardedIndexIsNegative`). A dot beyond the
last slide wraps to `i % N`: the model allows `dots.Length >= slides.Length`
(`Slider.Shape`).

The day and hour come in as parameters in place of the clock. The dropdown's
"click outside" test comes in as a flag.

## Model

| member | source | states |
|---|---|---|
| SlideIndex.JsRem | script.js:158 | JavaScript `%`: the remainder is below the divisor in magnitude, takes the dividend's sign, and is the dividend minus a truncated multiple of the divisor |
| SlideIndex.Wrap | script.js:158 | for `index >= -N` the page's expression yields a valid slide index equal to `index` modulo `N`, and leaves an in-range index unchanged |
| SlideIndex.UnguardedIndexIsNegative | script.js:158 | just below `-N` the expression yields a negative (invalid) index, which is why every caller stays at or above `-N` |
| SlideIndex.NextIndex | script.js:164 | `nextSlide` moves to the following slide, and from the last slide to the first |
| SlideIndex.PrevIndex | script.js:165 | `prevSlide` moves to the preceding slide, and from the first slide to the last |
| SlideIndex.PrevNextInverse | script.js:164-165 | next then previous, and previous then next, return to the starting slide |
| SlideIndex.Advance | script.js:164-168 | any number of auto-advances from a valid index stays a valid index |
| SlideIndex.AdvanceIsRotation | script.js:164-168 | `k` advances from `c` land on `(c + k) mod N` |
| SlideIndex.FullCycle | script.js:164-168 | `N` advances over `N` slides come back to the starting slide |
| HeroSlider.Slider.constructor | script.js:150-193 | page load with slides: index 0, one fresh live interval, and exactly one active slide and dot when the markup marks the first ones |
| HeroSlider.SetUpSlider | script.js:150-193 | the slider (state, handlers, interval) exists exactly when there is at least one slide |
| HeroSlider.Slider.GoToSlide | script.js:154-162 | the new index is the wrapped target; only the old and new positions of the two flag arrays change (old cleared, new set); exactly one active slide and dot at the current index is preserved |
| HeroSlider.Slider.NextSlide | script.js:164 | the index advances by one around the cycle, with the same flag updates and invariant as `GoToSlide` |
| HeroSlider.Slider.PrevSlide | script.js:165 | the index goes back by one around the cycle, with the same flag updates and invariant as `GoToSlide` |
| HeroSlider.Slider.StartSlider | script.js:167-169 | one interval with a never-used handle is added to the live table and kept in `slideInterval` |
| HeroSlider.Slider.ResetSlider | script.js:171-174 | the old interval is cleared before a fresh one starts, so exactly one interval, a new one, is live |
| HeroSlider.Slider.Fire | script.js:168 | a live interval advances the slider by one, clearing the old position and setting the new one in both flag arrays; a cleared interval changes nothing |
| HeroSlider.Slider.ClickNext | script.js:176-179 | next click: advance by one, clear the old position and set the new one in both flag arrays (so one active slide and dot is kept), replace the live interval by a fresh one |
| HeroSlider.Slider.ClickPrev | script.js:181-184 | previous click: go back by one, clear the old position and set the new one in both flag arrays (so one active slide and dot is kept), replace the live interval by a fresh one |
| HeroSlider.Slider.ClickDot | script.js:186-191 | click on dot `i`: the index becomes `i` (wrapped when `i >= N`), the old position is cleared and the new one set in both flag arrays (so one active slide and dot is kept), the live interval is replaced by a fresh one |
| BusinessHours.IsOpen | script.js:85-98 | open exactly within the day's schedule: Sunday from 10 up to but not including 13, other days from 9 up to but not including 20 |
| BusinessHours.Evaluate | script.js:100-106 | the label is "Open" exactly when open, else "Closed"; green `#188038` goes with "Open", red `#d93025` with "Closed" |
| BusinessHours.Boundaries | script.js:87-98 | every day: the hour before opening is closed, the opening hour open, the last hour open, the closing hour closed |
| BusinessHours.CheckBusinessStatus | script.js:77-107 | without a status element nothing happens; otherwise the element shows the evaluation for the given day and hour |
| HoursDropdown.Toggled | script.js:120-121 | a toggle writes `block` when the list was not shown and `none` when it was, so visibility flips |
| HoursDropdown.ToggleTwice | script.js:120-121 | two toggles restore the visibility, and the `display` value once a click has written it |
| HoursDropdown.Dropdown.ClickToggle | script.js:118-125 | the list's visibility flips; with an icon, the icon is turned 180° when the list becomes shown and 0° when it becomes hidden; icon and list end in lockstep |
| HoursDropdown.Dropdown.ClickDocument | script.js:128-135 | a click outside toggle and list hides the list and turns the icon to 0°; a click inside changes nothing; lockstep is kept |

## Left out

- Reveal animations on scroll (script.js:2-17): browser observer callbacks with fractional thresholds, no logic to state.
- The enquiry form submission (script.js:20-39): a timed `alert` and form reset, with no logic to state.
- The navbar shrink on scroll (script.js:42-53): style strings chosen by a floating-point scroll offset.
- Smooth anchor scrolling (script.js:61-74): element lookup and a call to the browser's `scrollIntoView`.
- Marquee duplication (script.js:139-142): a one-line `innerHTML` append.
- The clock: `new Date()`, `getDay` and `getHours` (script.js:81-83) are replaced by the `day` and `hour` parameters, limited to the ranges those calls return.
- Timing: the 5000 ms and 60000 ms periods (script.js:110,168) are not modelled. Intervals are live or cleared, and `Slider.Fire` is any one firing. The polling of `checkBusinessStatus` is any sequence of `CheckBusinessStatus` calls.
- Element lookup: `getElementById`/`querySelector` and the guards on their results (script.js:78-79,113-117,145-148) are modelled only in part. Modelled: the missing status element (script.js:78-79, `CheckBusinessStatus`), the missing icon (`hasIcon`) and the empty slide list (`SetUpSlider`). Not modelled: the `hoursToggle && hoursList` guard (script.js:117), without which no dropdown handler is attached; `Dropdown` assumes both elements exist. The page dereferences `nextBtn` and `prevBtn` unchecked; the model assumes both buttons exist.
- Event propagation: `stopPropagation` and `contains` (script.js:119,129) become the `outside` flag of `ClickDocument`. A click on the toggle is `ClickToggle` alone.
- The initial `active` classes come from the page markup, not from the script. `OneActive` therefore holds after page load only when the markup marks the first slide and dot, as the constructor's contract states.
- Fewer dots than slides: `Slider.Shape` requires `dots.Length >= slides.Length`. With fewer dots, the page throws a TypeError at script.js:161 once `currentSlide` reaches `dots.length`; every later move then throws at script.js:156 before changing the index, and the slider is left with no active slide. This error path is not modelled.
