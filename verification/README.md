# Birthday quiz and gift-pack pages, modelled in Dafny

The repository renders two small greeting pages, chosen by the URL hash:

- **Birthy**, a birthday quiz. The user goes through four riddles. A right answer moves on to the next question, or to the final screen after the last one. A wrong answer locks the form for 3599 seconds, shown as a 59:59 countdown. Progress, the completed flag, the remaining lockout and the "started" flag sit in local storage, so a reload resumes the quiz. The intro title and subtitle and each question are typed out one character at a time. The lockout modal, the final screen and the button labels appear at once.
- **AnnaSpecializzazione**, a gift page. Three closed packs (A, B, C) are shown. Tapping one reveals it and stores the choice, a reload shows the same pack, and a reset button clears it.

This project models the logic of both pages as pure functions over immutable states. Local storage is a `map<string, string>`. Each transition returns the page as it stands once the handler and the React effects watching the changed state have run.

| file | module | models |
|---|---|---|
| `wrappers.dfy` | `Wrappers` | `Option` |
| `storage.dfy` | `Storage` | local storage as a map, `getItem` |
| `text.dfy` | `Text` | `toLowerCase` and `trim` on answers |
| `decimal.dfy` | `Decimal` | `toString`, `parseInt(s, 10)` and `padStart` on naturals |
| `display.dfy` | `Display` | `formatTime`, the four countdown cards |
| `questions.dfy` | `QuizData` | the `questions` table and the answer check |
| `quiz.dfy` | `QuizPage` | quiz state, the submit handler, the one-second lockout tick, `handleStart`, loading from and writing to storage |
| `typing.dfy` | `Typing` | the `TypingAnimation` stepper |
| `giftpack.dfy` | `GiftPack` | the pack choice: load, pick, reset, `packCopy` |
| `scenarios.dfy` | `Scenarios` | a worked run of the quiz |

The lockout is a relative counter: 3599 is stored under `blockTimer`, and every second the count drops by one and is written back. A reload therefore resumes with the time that was left when the page closed, however long it stayed closed. No absolute deadline is kept. The pages also do not listen for changes made to storage by other tabs. The model does what the code does on both points.

## Model

| member | source | states |
|---|---|---|
| Storage.Get | src/birthy/Birthy.tsx:289 | `getItem` gives a value iff the key is stored, and then the stored value |
| Text.Lower | src/birthy/Birthy.tsx:362 | `toLowerCase` keeps the length and lower-cases each character in place |
| Text.Trim | src/birthy/Birthy.tsx:362-364 | `trim` never lengthens a string |
| Text.TrimEmpty | src/birthy/Birthy.tsx:362-364 | `trim` gives the empty string iff the input is all white space |
| Text.Normalize | src/birthy/Birthy.tsx:362-364 | the normal form of an answer is no longer than the answer |
| Text.NormalForm | src/birthy/Birthy.tsx:362-364 | the normal form has no white space at either end and no ASCII capital, and it is empty iff the answer is blank |
| Text.LowerChar | src/birthy/Birthy.tsx:362-364 | lower-casing never turns a non-space into white space or the reverse, and leaves no ASCII capital |
| Text.TrimStart | src/birthy/Birthy.tsx:362-364 | the result is a suffix of the input; everything dropped is white space; the result does not start with white space |
| Text.TrimEnd | src/birthy/Birthy.tsx:362-364 | the result is a prefix of the input; everything dropped is white space; the result does not end with white space |
| Text.TrimSplits | src/birthy/Birthy.tsx:362-364 | `trim` returns the slice between a leading and a trailing run of white space, and that slice has no white space at either end |
| Text.TrimOfPadded | src/birthy/Birthy.tsx:362-364 | `trim` is determined by its result: white space + trimmed middle + white space trims to the middle |
| Text.TrimDropsPadding | src/birthy/Birthy.tsx:362-364 | extra white space around any string does not change what `trim` returns |
| Text.LowerConcat | src/birthy/Birthy.tsx:362 | lower-casing distributes over concatenation |
| Text.NormalizeIdempotent | src/birthy/Birthy.tsx:362-364 | lower-casing and trimming twice is the same as once, so normalised text is a fixed point |
| Decimal.ToString | src/birthy/Birthy.tsx:320 | `toString` of a natural is a non-empty digit string with no leading zero |
| Decimal.ParseInt | src/birthy/Birthy.tsx:290 | `parseInt` of an n-digit string is below 10^n |
| Decimal.ParseToString | src/birthy/Birthy.tsx:287-302 | what `toString` writes (index at 320, timer at 339 and 391), `parseInt` reads back as the same natural (at 290 and 302) |
| Decimal.ToStringOfParse | src/birthy/Birthy.tsx:290 | conversely, a digit string with no leading zero is the `toString` of what `parseInt` reads from it |
| Decimal.ToStringInjective | src/birthy/Birthy.tsx:320 | two naturals are stored as the same text exactly when they are equal |
| Decimal.ParsePadStart | src/birthy/Birthy.tsx:353-354 | padding with zeros keeps a digit string's value |
| Decimal.PadStart | src/birthy/Birthy.tsx:353-354 | `padStart(width, '0')` keeps the string as its suffix, fills only with zeros, and reaches the width |
| Display.FormatTime | src/birthy/Birthy.tsx:352-356 | the cards are digits, at least four of them; under 6000 s exactly four, d0 d1 d2 d3, with 60·(10·d0+d1) + 10·d2+d3 = seconds and d2 ≤ 5 |
| Display.FormatTimeReadsBack | src/birthy/Birthy.tsx:352-356 | for any count, the cards before the last two read as minutes and the last two as seconds under 60; together they give back the count |
| Display.FullLockoutShows5959 | src/birthy/Birthy.tsx:389 | a fresh lockout of 3599 s shows as the cards 5 9 5 9 |
| QuizData.OnePromptPerQuestion | src/birthy/Birthy.tsx:19-42 | the table holds four questions, each with one prompt and one list of accepted answers |
| QuizData.Accepts | src/birthy/Birthy.tsx:362-365 | for any list of accepted answers, an answer matches iff some accepted answer has the same lower-cased, trimmed form |
| QuizData.IsCorrect | src/birthy/Birthy.tsx:362-365 | an answer is right iff, after lower-casing and trimming, it equals some accepted answer of the question after lower-casing and trimming |
| QuizData.JudgedOnNormalForm | src/birthy/Birthy.tsx:362-365 | answers with the same normal form get the same verdict |
| QuizData.PaddingDoesNotMatter | src/birthy/Birthy.tsx:362-365 | white space around an answer never changes the verdict |
| QuizData.AnswersAreNormal | src/birthy/Birthy.tsx:19-42 | every accepted answer in the table is lower-case, trimmed and non-empty |
| QuizData.BlankIsWrong | src/birthy/Birthy.tsx:19-42 | an empty or all-white-space answer is wrong for every question |
| QuizData.FirstQuestionExamples | src/birthy/Birthy.tsx:19-24 | question 0 accepts " Cento " and "100" and rejects "" |
| QuizPage.KeysDistinct | src/birthy/Birthy.tsx:289-310 | the four storage keys (current question, completed, started, lockout timer) are distinct strings, so writing one leaves the others unchanged |
| QuizPage.DecodeNumber | src/birthy/Birthy.tsx:289-290 | a missing key reads as 0; a present digit string reads as its `parseInt` value |
| QuizPage.QuestionChanged | src/birthy/Birthy.tsx:316-321 | when the question changes, the typing flag is cleared, the index is stored as text that reads back as the index, and nothing else changes |
| QuizPage.FinalShown | src/birthy/Birthy.tsx:323-330 | with the final screen shown, "true" is stored under the completed key, otherwise storage is untouched; only storage changes |
| QuizPage.TimerChanged | src/birthy/Birthy.tsx:332-350 | after the timer effect the form is blocked exactly while the timer is positive; question, completed flag, timer, input and typing flag are untouched; with time left storage and the blocked image stay, at 0 the blocked image is cleared and the timer key removed |
| QuizPage.Load | src/birthy/Birthy.tsx:287-311 | mounting restores the stored index and timer (0 when absent); completed iff the stored value is exactly "true"; the intro shows iff neither started nor completed is "true"; blocked iff time remains; the answer box starts empty |
| QuizPage.LoadPersists | src/birthy/Birthy.tsx:316-350 | after mounting from any well-formed storage, the page keeps its invariant and agrees with what the mount effects leave in storage |
| QuizPage.PersistedIsWellFormed | src/birthy/Birthy.tsx:287-303 | storage that agrees with a page can be loaded again |
| QuizPage.ReloadResumes | src/birthy/Birthy.tsx:287-350 | reloading at any moment gives the same question, completed flag, lockout time and intro state, and leaves storage unchanged; only the typed answer, the typing flag and the blocked image are lost |
| QuizPage.Advance | src/birthy/Birthy.tsx:373-383 | below the last question: index + 1, an empty answer box, the typing flag cleared and the new index stored; at the last question: completed set, index, answer and typing flag unchanged, "true" stored; the lockout state is untouched |
| QuizPage.Lock | src/birthy/Birthy.tsx:384-391 | a wrong answer blocks, shows a blocked image and sets the timer to 3599, stored as "3599"; question, completed flag and typed answer stay |
| QuizPage.LockoutText | src/birthy/Birthy.tsx:389-391 | the lockout of 3599 is written to storage as the text "3599" |
| QuizPage.Respond | src/birthy/Birthy.tsx:358-394 | meets `SubmitOutcome` for any verdict: while blocked, or with the form absent or disabled, nothing changes; right below the last question: next question, empty answer, typing flag cleared, new index stored; right at the last: completed and "true" stored, answer kept; a right answer keeps the timer and the blocked image; wrong: locked on the same question with timer 3599 stored as "3599"; the started flag is never touched |
| QuizPage.Submit | src/birthy/Birthy.tsx:358-394 | meets `SubmitOutcome` with the answer check's verdict on the typed answer: nothing while blocked or disabled; a right answer moves to the next question with an empty answer box and the typing flag cleared, or completes at the last, keeping the timer and the blocked image; a wrong one locks on the same question with timer 3599 stored as "3599"; the index stays within the four questions; the started flag is never touched |
| QuizPage.Tick | src/birthy/Birthy.tsx:336-348 | only a positive timer ticks; the timer drops by exactly 1 and is stored while positive; on reaching 0 the page unblocks, clears the blocked image and removes the key; question, completed flag, input and intro never change |
| QuizPage.Edit | src/birthy/Birthy.tsx:529-536 | while the form is enabled the answer box holds exactly the typed text; while disabled nothing changes; typing never enables or disables the form and keeps storage in agreement with the page |
| QuizPage.QuestionTyped | src/birthy/Birthy.tsx:512-517 | when the question has typed out, answering becomes possible exactly when no lockout runs; on the intro or final screen nothing changes; only the typing flag changes, and storage stays in agreement |
| QuizPage.Start | src/birthy/Birthy.tsx:396-400 | leaving the intro hides it and stores "true" under the started key; nothing else changes, and after the intro it does nothing |
| QuizPage.SubmitPersists | src/birthy/Birthy.tsx:358-394 | submitting keeps the invariant and keeps storage in agreement with the page |
| QuizPage.AdvancePersists | src/birthy/Birthy.tsx:373-383 | advancing keeps the invariant and storage agreement |
| QuizPage.LockPersists | src/birthy/Birthy.tsx:384-391 | locking keeps the invariant and storage agreement |
| QuizPage.TickPersists | src/birthy/Birthy.tsx:332-350 | a tick keeps the invariant and storage agreement |
| QuizPage.StartPersists | src/birthy/Birthy.tsx:396-400 | starting keeps the invariant and storage agreement |
| QuizPage.TicksCountDown | src/birthy/Birthy.tsx:332-350 | n ticks (n ≤ timer) leave timer − n, blocked iff that is positive, and the same question, completed flag, intro and input |
| QuizPage.TicksAtZero | src/birthy/Birthy.tsx:334-348 | with the timer at 0 no interval runs and further ticks change nothing |
| QuizPage.TicksPersist | src/birthy/Birthy.tsx:332-350 | any number of ticks keeps the invariant and storage agreement |
| QuizPage.TicksSplit | src/birthy/Birthy.tsx:336-342 | m + n ticks are m ticks followed by n ticks |
| QuizPage.CountingDown | src/birthy/Birthy.tsx:332-350 | for n ticks up to the timer, the page stays consistent with storage, the timer drops by exactly n, the form is blocked until n reaches the timer, and at that point no timer is stored |
| QuizPage.BlockedWhileTimeRemains | src/birthy/Birthy.tsx:332-350 | after n ticks the form is blocked iff n is below the timer; once n reaches it, the timer is 0, the key is gone, and the quiz is where it was |
| QuizPage.LockoutLastsExactly | src/birthy/Birthy.tsx:384-391 | a wrong answer blocks for exactly 3599 ticks on the same question; from then on the form is usable and no timer is stored |
| QuizPage.CompletedIsFinal | src/birthy/Birthy.tsx:323-330 | once completed, submitting does nothing, ticks keep it completed, and a reload is possible and shows the final screen again |
| QuizPage.IntroNeverReturns | src/birthy/Birthy.tsx:307-311 | once the intro is left, no transition shows it again, and a reload is possible and keeps it hidden |
| QuizPage.FirstVisit | src/birthy/Birthy.tsx:287-311 | storage holding none of the four quiz keys is loadable and shows the intro on question 0, not completed and not blocked |
| Typing.Restart | src/birthy/Birthy.tsx:249-254 | a new text starts from an empty display, index 0, not completed, no callback made |
| Typing.Step | src/birthy/Birthy.tsx:256-272 | a step keeps the text, does nothing once completed, and adds at most one callback |
| Typing.StepKeepsValid | src/birthy/Birthy.tsx:256-272 | each step keeps display = text[..index] with index ≤ |text|; it keeps completion only at the end and at most one `onComplete` call |
| Typing.StepsAdvance | src/birthy/Birthy.tsx:256-272 | n steps from a valid state reach index min(index + n, |text|); the animation completes iff a step is left after the last character |
| Typing.TypesOutOnce | src/birthy/Birthy.tsx:235-272 | from a restart, n steps show text[..min(n, |text|)]; it completes iff n > |text|, then showing the whole text; `onComplete` is called exactly once |
| GiftPack.ParsePack | src/anna/AnnaSpecializzazione.tsx:109-110 | a stored value names a pack iff it is exactly "A", "B" or "C", and then it is that pack's name |
| GiftPack.NameRoundTrip | src/anna/AnnaSpecializzazione.tsx:109-115 | a pack's stored name reads back as that pack, and only its name does |
| GiftPack.Load | src/anna/AnnaSpecializzazione.tsx:106-111 | mounting picks a pack iff storage holds exactly "A", "B" or "C", that pack; storage is unchanged |
| GiftPack.Pick | src/anna/AnnaSpecializzazione.tsx:113-115 | picking sets the choice and stores the pack's name under the key; no other key is added, removed or changed |
| GiftPack.Tap | src/anna/AnnaSpecializzazione.tsx:174-201 | the cards exist only while nothing is picked: a tap picks from the unchosen state and never replaces a choice |
| GiftPack.Reset | src/anna/AnnaSpecializzazione.tsx:236-239 | reset leaves nothing picked and removes the key; no other key is added, removed or changed |
| GiftPack.PickThenLoad | src/anna/AnnaSpecializzazione.tsx:108-115 | a picked pack is restored by a reload |
| GiftPack.ResetThenLoad | src/anna/AnnaSpecializzazione.tsx:236-239 | after a reset a reload stays unchosen |
| GiftPack.ReloadResumes | src/anna/AnnaSpecializzazione.tsx:108-115 | loading agrees with storage and is idempotent; tapping and resetting keep storage in agreement, so a reload always shows the same choice |
| GiftPack.ChoiceIsFinal | src/anna/AnnaSpecializzazione.tsx:174-207 | once a pack is picked, any sequence of taps leaves the page unchanged |
| GiftPack.FirstTapWins | src/anna/AnnaSpecializzazione.tsx:174-207 | from the unchosen state the first tap decides the pack; later taps are ignored |
| GiftPack.PackCopy | src/anna/AnnaSpecializzazione.tsx:120-141 | there is copy text iff a pack is picked |
| GiftPack.TitlesDistinct | src/anna/AnnaSpecializzazione.tsx:120-141 | the three packs have three different, non-empty titles |
| GiftPack.TitleNamesPack | src/anna/AnnaSpecializzazione.tsx:125-135 | each title has the pack's letter as its seventh character ("Pacco A", ...) |
| Scenarios.CentoIsRight | src/birthy/Birthy.tsx:19-24 | "cento" answers question 0 |
| Scenarios.DueIsRight | src/birthy/Birthy.tsx:25-31 | "due" answers question 1 |
| Scenarios.XyzIsWrong | src/birthy/Birthy.tsx:25-31 | "xyz" does not answer question 1 |
| Scenarios.NotAnAnswer | src/birthy/Birthy.tsx:362-365 | text in normal form that is none of the accepted answers is wrong |
| Scenarios.FirstAnswer | src/birthy/Birthy.tsx:287-400 | first visit (none of the quiz keys stored): start, read question 0, answer "cento", and question 1 is on screen |
| Scenarios.WrongAnswer | src/birthy/Birthy.tsx:384-391 | answering "xyz" on question 1 locks it for 3599 s; "due" is ignored meanwhile; a reload comes back locked with the same time left |
| Scenarios.AfterLockout | src/birthy/Birthy.tsx:332-350 | the lockout blocks exactly 3599 ticks; after that "due" moves on to question 2 |
| Scenarios.FirstRun | src/birthy/Birthy.tsx:358-394 | the run from storage holding none of the quiz keys up to the lockout, ending in a page that `AfterLockout` applies to |

## Left out

- Confetti, the success confetti, the floating icons, the random memoji pickers and all framer-motion animation are decoration. They are driven by `Math.random` and floating point. A wrong answer's random blocked image is modelled only as "an image is set".
- The progress-bar width is a floating-point percentage.
- Timer scheduling is abstracted. The 1500 ms delay before a right answer takes effect is one atomic step, so a second submission inside that window is not modelled. The one-second lockout interval is the explicit `Tick` step, and the typing timeout is the explicit `Step`. The 530 ms cursor blink is not modelled.
- `Text.LowerChar` maps only ASCII and Latin-1 capitals. JavaScript's `toLowerCase` covers all of Unicode, but every accepted answer is plain ASCII. Beyond Latin-1, an answer could only match after a Unicode lower-case mapping, and that mapping is not modelled.
- Decimal: numbers are unbounded naturals, while JavaScript numbers are doubles. `parseInt` is exact only below 2^53, and `toString` switches to exponent form from 10^21 (a stored "99999999999999999999999" would tick down to "1e+23", which reads back as 1). The model is exact throughout, so it matches the page only for the values the page writes, all of them at most 3599.
- Text.Trim and Text.Normalize: their own contracts state only that the result is no longer than the input. That the result is trimmed, is the slice between the white-space runs, and is empty exactly for blank input is stated by `Text.TrimSplits`, `Text.TrimEmpty` and `Text.NormalForm`. As `ensures` those facts would make every answer comparison unfold the white-space test.
- Load: storage the page could not have written is excluded by `QuizPage.WellFormed`, its precondition. The page only ever writes digit strings under the question and timer keys (lines 320, 339 and 391): question numbers below 4 and timers of at most 3599. Other values, such as "12abc", a negative number, a question number of 4 or more, or a digit string too long for a JavaScript number, are outside the model; the code reads them with `parseInt`'s own rules, which are not modelled.
- The transient flags of the quiz page are not kept: `isWrongAnswer` (the shake), `showCheckMark`, `successImage` and `currentDisplayImage`. They drive only what is drawn.
- Start: the intro's `showSubtitle` and `showButton` are not kept. `showButton` also gates clicks: while it is false, the start button's style turns off mouse events (line 447), so the model lets `Start` happen before the intro has finished typing, earlier than the page allows.
- Typing: the text is a sequence of characters, while JavaScript indexes strings by UTF-16 code units. A character outside the Basic Multilingual Plane, such as an emoji, is typed in one step here and in two halves on the page.
- Typing: if `text` changes on a mounted `TypingAnimation`, the reset effect and the stepping effect run in the same commit. The model takes the reset as one step, `Typing.Restart`. In this app each animation keeps one text for its lifetime: a new question remounts it through its `key`.
- `Scenarios.FirstRun` stops at the start of the lockout, and the lockout itself is covered by `Scenarios.AfterLockout`.
- GiftPack.Tap: the pack cards leave with an exit animation (`AnimatePresence`, lines 173-181), and while it runs they are still on screen with their `onPick` handlers. A tap in that window would call `onPick` again and could replace the choice just made. The model treats the cards as gone the moment a pack is picked, so it ignores such a tap.
- The hash routing in `src/App.js` is not modelled. It is a one-line substring test on `window.location.hash`.
- Cross-tab synchronisation and an absolute-deadline lockout are not modelled, because the code has neither.
