# Clicker arena and contact form, modelled in Dafny

This project models the two stateful parts of a personal portfolio site.

- **Clicker arena.** This is a click-counting minigame. A player enters a name and starts a game. Clicks on a big button are counted. An optional "digital life" mode adds simulated background clicks on a timer and also counts every click anywhere on the page. The player's rank against a fixed leaderboard is recomputed as the count changes. A countdown to local midnight is shown as `HH:MM:SS`.
- **Contact form.** The form keeps four text fields. Each input's change handler writes one field. Submitting clears them all.

Modules:

- `Countdown` (countdown.dfy): splits the millisecond difference to midnight into hours, minutes and seconds. Each part is printed in decimal and zero-padded to two characters. A parser reads the text back.
- `Leaderboard` (leaderboard.dfy): the leaderboard entries, the mock board the arena loads, and the rank. The rank is one plus the number of entries with strictly more clicks.
- `ClickerArena` (session.dfy): the session state as a `Session` value. Each handler is a function from the old session to the new one. The rank effect is one more function, applied after every handler that changes the click count or the active flag. `Event`, `Enabled` and `Run` describe any series of events the page can deliver. `Inv` states what holds in every reachable session. Class `Arena` holds the same state in fields, and its methods are proved to follow the handler functions.
- `ContactForm` (contact.dfy): the form as a map from an input's name attribute to its text, plus class `Contact` with the two handlers.

Timers and listeners are not modelled as such. The caller delivers every timer tick and every document click as an event. The random choices of a tick (which activity, how many clicks) are arguments with their stated ranges. The wall-clock difference to midnight is an input of the countdown.

Three behaviours of the code a reader might not expect:

- `resetGame` does not zero the background counter and does not turn digital-life mode off. Only `startGame` zeroes the background counter (`ResetSpec`).
- At exactly local midnight the countdown reads `24:00:00`, because `setHours(24)` then names the following midnight. It reads `00:00:00` only during the last second before midnight (`FullDayReadings`, `LastSecondReading`).
- In digital-life mode, a press of the arena's own click button is counted twice: once by its handler, and once by the document listener the click bubbles up to (`ButtonPressCount`).

## Model

| member | source | states |
|---|---|---|
| `Countdown.Split` | src/components/ClickerArena.tsx:33-36 | minutes and seconds are below 60, and hours*3600 + minutes*60 + seconds equals the whole seconds in the difference. Within a day the hours are at most 24, and below 24 for less than a day |
| `Countdown.Decimal` | src/components/ClickerArena.tsx:38 | a number's `toString` text is a non-empty run of decimal digits |
| `Countdown.DecimalRoundTrip` | src/components/ClickerArena.tsx:38 | the decimal text reads back as the number. It is one digit exactly for numbers below 10, and at most two exactly for numbers below 100 |
| `Countdown.FieldRoundTrip` | src/components/ClickerArena.tsx:38 | `padStart(2, '0')` gives at least two digits that read back as the number. The text is exactly two characters iff the number is below 100, and starts with '0' iff it is below 10 |
| `Countdown.FormatRoundTrip` | src/components/ClickerArena.tsx:33-38 | for every difference, the display parses back as three ':'-separated fields equal to the split reading. It is exactly eight characters iff less than 100 hours remain |
| `Countdown.WithinADay` | src/components/ClickerArena.tsx:33-38 | for at most one day, the display is `DD:DD:DD` with every field exactly two digits |
| `Countdown.LastSecondReading` | src/components/ClickerArena.tsx:33-38 | in the last second before midnight the display is `00:00:00` |
| `Countdown.FullDayReadings` | src/components/ClickerArena.tsx:29-38 | one millisecond short of a day the display is `23:59:59`. A full day ahead, which is the reading taken at midnight, it is `24:00:00` |
| `Leaderboard.Above` | src/components/ClickerArena.tsx:108 | the filter keeps, as a multiset, exactly the entries with strictly more clicks, each as often as on the board |
| `Leaderboard.Rank` | src/components/ClickerArena.tsx:108 | the rank lies in 1..(board size + 1) |
| `Leaderboard.RankMonotone` | src/components/ClickerArena.tsx:108 | on a fixed board, more clicks never give a larger rank |
| `Leaderboard.FirstPlace` | src/components/ClickerArena.tsx:108 | the rank is 1 iff no entry has more clicks than the player |
| `Leaderboard.LastPlace` | src/components/ClickerArena.tsx:108 | the rank is board size + 1 iff every entry has more clicks than the player |
| `Leaderboard.MockRankAt10000` | src/components/ClickerArena.tsx:52-58 | against the mock board, 10000 clicks rank 4th |
| `ClickerArena.TrimStart` | src/components/ClickerArena.tsx:122 | the result is a suffix that does not start with JavaScript white space, and everything dropped was white space |
| `ClickerArena.TrimEnd` | src/components/ClickerArena.tsx:122 | the result is a prefix that does not end with white space, and everything dropped was white space |
| `ClickerArena.TrimEmptyIffBlank` | src/components/ClickerArena.tsx:122 | `playerName.trim()` is empty iff the name is all white space |
| `ClickerArena.ActivityClicks` | src/components/ClickerArena.tsx:69-77 | every activity adds between 1 and 9 clicks |
| `ClickerArena.EveryIncrementOccurs` | src/components/ClickerArena.tsx:69-76 | every increment from 1 to 9 is produced by some activity and roll |
| `ClickerArena.StartGameSpec` | src/components/ClickerArena.tsx:121-128 | startGame does nothing for a blank name. Otherwise it sets the game active and both counters to zero, and keeps the name, the mode and the shown rank |
| `ClickerArena.HandleClickSpec` | src/components/ClickerArena.tsx:113-119 | while no game is on a click changes nothing. While one is on it adds exactly one click and the rank becomes that of the new count. Only the click count and the rank can change, so the background count, the name, the mode and the active flag stay |
| `ClickerArena.GlobalClickSpec` | src/components/ClickerArena.tsx:91-103 | a document click adds one iff a game is on in digital-life mode. Only the click count and the rank can change, so the background count never does |
| `ClickerArena.TickSpec` | src/components/ClickerArena.tsx:64-80 | a tick changes the background count iff a game is on in digital-life mode. It then adds the same n to both counters, so their difference is kept. Only the two counters and the rank can change |
| `ClickerArena.ResetSpec` | src/components/ClickerArena.tsx:134-139 | from any state, reset leaves an idle arena satisfying the invariant, with no name, no clicks and rank 0. The background count and the mode are unchanged |
| `ClickerArena.StartAfterResetRefused` | src/components/ClickerArena.tsx:121-139 | reset clears the name, so an immediate start is refused |
| `ClickerArena.RankChangesOnlyWhenPlaying` | src/components/ClickerArena.tsx:106-111 | the shown rank changes only in two cases: a reset sets it to 0, or a running game with clicks > 0 gets the rank of the new count |
| `ClickerArena.StepPreservesInv` | src/components/ClickerArena.tsx:64-139 | with the corrected tick, every event the page can deliver keeps the session invariant |
| `ClickerArena.RunPreservesInv` | src/components/ClickerArena.tsx:64-139 | with the corrected tick, any series of events keeps the invariant |
| `ClickerArena.Reachable` | src/components/ClickerArena.tsx:14-139 | with the corrected tick, every session reachable from the initial state has four properties. A running game has a non-blank name, no more background clicks than clicks, and the rank of its clicks. An idle arena counts no clicks |
| `ClickerArena.ClickAccounting` | src/components/ClickerArena.tsx:94-119 | with the corrected tick, during a game clicks grow by the number of button clicks. In digital-life mode they also grow by the document clicks and the tick increments. The background count grows by exactly the tick increments, and only in that mode |
| `ClickerArena.ButtonPressCount` | src/components/ClickerArena.tsx:94-119 | pressing the arena button counts 2 in digital-life mode and 1 otherwise |
| `ClickerArena.RearmedTickIgnoresMode` | src/components/ClickerArena.tsx:83-87 | as written, a re-armed tick still adds background clicks after the mode was switched off. The intended tick does nothing there |
| `ClickerArena.RearmedTickOutlivesReset` | src/components/ClickerArena.tsx:83-87 | as written, a re-armed tick after a retreat leaves an idle arena with clicks. That breaks the invariant every intended event keeps |
| `ClickerArena.Arena.constructor` | src/components/ClickerArena.tsx:15-24 | the arena starts idle, with zero counters, no name, rank 0, the mode off and the given board |
| `ClickerArena.Arena.UpdateRank` | src/components/ClickerArena.tsx:106-111 | the rank effect recomputes the rank only in a running game with clicks |
| `ClickerArena.Arena.SetPlayerName` | src/components/ClickerArena.tsx:184 | typing sets the name and keeps the invariant |
| `ClickerArena.Arena.StartGame` | src/components/ClickerArena.tsx:121-128 | the new state is `Started` of the old one, and the invariant is kept |
| `ClickerArena.Arena.HandleClick` | src/components/ClickerArena.tsx:113-119 | the new state is `Clicked` of the old one, and the invariant is kept |
| `ClickerArena.Arena.HandleGlobalClick` | src/components/ClickerArena.tsx:94-98 | the new state is `GlobalClicked` of the old one, and the invariant is kept |
| `ClickerArena.Arena.SimulateDigitalLife` | src/components/ClickerArena.tsx:66-80 | the new state is `Ticked` (the corrected tick) by the chosen activity's clicks, and the invariant is kept |
| `ClickerArena.Arena.ToggleDigitalLifeMode` | src/components/ClickerArena.tsx:130-132 | only the mode flips, and the invariant is kept |
| `ClickerArena.Arena.ResetGame` | src/components/ClickerArena.tsx:134-139 | the new state is `Reset` of the old one, and the invariant is kept |
| `ContactForm.EmptyFormFields` | src/components/Contact.tsx:10-15 | the initial form has exactly the four fields, all empty |
| `ContactForm.ChangeUpdatesOneField` | src/components/Contact.tsx:28-33 | a change from one of the four inputs sets that field to the value. It leaves every other field as it was and keeps the field set |
| `ContactForm.ChangeFromOtherNameAddsField` | src/components/Contact.tsx:29-32 | a target name outside the four would add a fifth entry, so the field set is kept only because every input uses one of the four names |
| `ContactForm.SubmitClears` | src/components/Contact.tsx:25 | submitting empties all four fields whatever they held, and a second submit changes nothing |
| `ContactForm.Contact.constructor` | src/components/Contact.tsx:10-15 | the form starts as the empty form |
| `ContactForm.Contact.HandleChange` | src/components/Contact.tsx:28-33 | the new form is the old one with the target's entry replaced, and it still has exactly the four fields |
| `ContactForm.Contact.HandleSubmit` | src/components/Contact.tsx:18-26 | the new form is the empty form |

## Findings

| source | as written | input that shows it | evidently intended | confidence | as-written member | corrected member |
|---|---|---|---|---|---|---|
| src/components/ClickerArena.tsx:83-87 | Each digital-life tick re-arms itself with a `setTimeout` whose id is dropped. The effect's cleanup clears only the first timeout, so once the first tick has fired the chain never stops. | Ada starts a game, turns the mode on, and the first tick fires (3 clicks). She turns the mode off. The next tick still adds 5 background clicks, and after a retreat it adds clicks to an idle arena. | Ticks stop when the mode is switched off or the game ends. | high; not executed | `ClickerArena.RearmedTickIgnoresMode` | `ClickerArena.TickSpec` |

The rest of the model uses the corrected tick (`Ticked`, `Arena.SimulateDigitalLife`). The as-written behaviour is `RearmedTickAsWritten`.

## Left out

- Timer and listener scheduling (`setInterval`, `setTimeout`, `addEventListener`, their cleanups) is not modelled. Each tick or document click is an event the caller delivers, and the first 2-second delay of the digital-life timer is not modelled.
- `Math.random` is replaced by its outcomes. The tick takes the activity and the floored roll as arguments. The 3-8 s delay between ticks is not modelled.
- `Date` and the local time zone are not modelled. The countdown takes the millisecond difference to the next midnight as its input, and daylight-saving days are covered only because that difference is unbounded.
- The clicks-per-minute figure is floating point and reads the wall clock, so it is not modelled.
- The 100 ms click-animation flag, the never-read session start time and the never-shown `backgroundClickRef` counter are not modelled.
- Clicks on the arena's other buttons (mode toggle, retreat) also bubble to the document. Whether the document listener sees the old or the new state then depends on when React re-runs its effects, so the model does not say.
- React renders between a state update and the rank effect (one render with the old rank) are not modelled. The model is the state after effects settle.
- Counters are unbounded naturals, so loss of precision of JavaScript numbers above 2^53 is not modelled.
- A leaderboard entry's `lastClick` time is never read by the rank, so it is left out.
- All rendering is left out: JSX, CSS, icons, the hours label and the contact form's notification toast. The navigation menu, the hero, about, skills, projects, blog and footer sections are static content or DOM scrolling.
- The browser's form validation is not modelled. The four contact inputs are `required` and the email input has `type="email"` (src/components/Contact.tsx:165-219), so the submit handler runs only on a filled-in form with a well-formed address. `SubmitClears` covers every form, including ones that never reach it.
- `ClickerArena.Arena.SetPlayerName` requires that no game is on, because the name input is rendered only while the arena is idle (src/components/ClickerArena.tsx:175-186).
