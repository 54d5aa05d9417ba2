# PathoLens AI front-end behaviour, modelled in Dafny

This project models the interactive behaviour of the PathoLens AI landing page,
which is one browser script, `scripts.js`. It covers four parts of that script.

- **Mobile navigation** (`nav.dfy`). The menu is a two-state toggle. Its button's
  `aria-expanded` attribute reports the state. Every menu link closes the menu.
- **Tabs** (`tabs.dfy`). A click on a tab button walks the buttons and then the
  panels. Only the clicked button becomes active (`active` class and `aria-selected`).
  Exactly the panels whose id equals the button's `data-tab` are shown. The buttons
  and panels are arrays of records, and `Activate` updates them in place.
- **One-shot reveal of counters and bars** (`observe.dfy`). Two intersection
  observers watch the counters and every `.progress .bar`. A counter's sibling
  bar is one of those bars, so both observers can reveal it, which gives the
  same width as one reveal (`Observe.RevealIdempotent`). The first
  intersecting entry for a watched element runs its callback and then unobserves
  the element, so the callback runs at most once for each element. A bar's
  revealed width is its `data-width` followed by `%`, and only when that attribute
  is non-empty. The observer is a class. Its `watched` set is what the host still
  observes, and a ghost map counts how often each element was handled.
- **Contact form validation** (`contact_form.dfy`, `email.dfy`, `text.dfy`). Each
  submission checks three rules: the trimmed name is non-empty; the trimmed e-mail
  is non-empty and matches `^\S+@\S+\.\S+$`; the trimmed message is at least 10
  long. Every field is judged on every submission. A failing field gets its error
  text and `aria-invalid`, and a passing field has both cleared. Then one of three
  things happens:
  - An invalid submission is cancelled and the status is cleared.
  - A valid submission on a form marked `data-netlify` is let through with status
    "Sending...".
  - Any other valid submission is cancelled, thanked and reset.

`text.dfy` gives JavaScript's `trim` and its `\s` class. Both use one character
set: ECMAScript WhiteSpace plus LineTerminator. `email.dfy` gives two readings of
the e-mail pattern and proves they agree on every string:
- `Shaped`: the string splits into three non-empty runs of non-whitespace, joined
  by "@" and ".".
- `Matches`: a decision procedure that takes the first '@' at index 1 or later and
  the last '.' before the final character.

The `\S` class includes '@' and '.', so the pattern accepts an address with two
'@' characters (`Email.AcceptsSecondAt`). A stricter reading of the form's rule would
require exactly one '@'. The model follows the regular expression as written.

A tab button without `data-tab` is modelled as `None`. The comparison with each
panel id then fails, so every panel is hidden (`Tabs.NoMatchHidesAll`).

## Model

| member | source | states |
|---|---|---|
| Text.SkipSpaces | scripts.js:117 | the scan for the start of the trimmed value stops at the first non-whitespace index, and everything it skipped is whitespace |
| Text.SkipSpacesBack | scripts.js:117 | the scan for the end of the trimmed value stops just after the last non-whitespace character, and everything it skipped is whitespace |
| Text.Trim | scripts.js:117 | `trim()` is empty exactly when the value is all whitespace; otherwise it starts and ends with non-whitespace |
| Text.TrimBounds | scripts.js:123 | the trimmed value is the slice between the leading and the trailing whitespace run |
| Text.TrimOf | scripts.js:130 | whitespace around a value with no whitespace at either end is exactly what `trim()` removes |
| Text.TrimIdempotent | scripts.js:130 | trimming a trimmed value changes nothing |
| Email.IndexFrom | scripts.js:124 | the index returned holds the character, and no earlier index at or after the start does (the '@' search) |
| Email.LastIndexBelow | scripts.js:124 | the index returned holds the character, and no later index below the bound does (the '.' search) |
| Email.Matches | scripts.js:124 | `.test(emailVal)`: a decision procedure whose meaning `Email.MatchesIffShaped` states |
| Email.MatchesIffShaped | scripts.js:124 | both directions: the scan accepts a string exactly when it is `\S+` "@" `\S+` "." `\S+` in full |
| Email.RejectsNoAt | scripts.js:124 | "foo" has no '@' and does not match |
| Email.RejectsNoDot | scripts.js:124 | "foo@bar" has no '.' after the '@' and does not match |
| Email.RejectsNoLocalPart | scripts.js:124 | "@bar.com" has nothing before the '@' and does not match |
| Email.AcceptsPlainAddress | scripts.js:124 | "foo@bar.com" matches and the scan accepts it |
| Email.AcceptsSecondAt | scripts.js:124 | "a@b@c.d" matches, because `\S` includes '@' |
| ContactForm.NameValid | scripts.js:117-120 | the name passes exactly when it holds a non-whitespace character |
| ContactForm.EmailValid | scripts.js:123-127 | the e-mail passes exactly when its trimmed value has the shape of the pattern |
| ContactForm.MessageValid | scripts.js:130-133 | the message passes exactly when two non-whitespace characters stand at least 9 places apart, so the trimmed length is 10 or more |
| ContactForm.MessageSpan | scripts.js:130 | both directions: a trimmed length of at least 10 is the same as two non-whitespace characters 9 or more apart |
| ContactForm.SetError | scripts.js:154-159 | `setError`: the effect `ContactForm.JudgeEffects` states for a failing field |
| ContactForm.ClearError | scripts.js:160-165 | `clearError`: the effect `ContactForm.JudgeEffects` states for a passing field |
| ContactForm.Reset | scripts.js:149 | `form.reset()` on one input: the value returns to its default, as `ContactForm.ContactForm.Submit` states for a simulated success |
| ContactForm.Settled | scripts.js:116-149 | a field at the end of a submission, judged and then reset only after a simulated success; `ContactForm.ContactForm.Submit` states it for each field |
| ContactForm.Judge | scripts.js:117-133 | the `if (…) setError(…) else clearError(…)` step of each rule, whose effect `ContactForm.JudgeEffects` states |
| ContactForm.ContactForm.Acceptable | scripts.js:114-135 | the final value of the `valid` flag: all three rules hold; `ContactForm.ContactForm.Submit` states that it decides cancellation, status and reset |
| ContactForm.JudgeEffects | scripts.js:154-165 | after judging, `aria-invalid` is set exactly on failure; the error element (when present) shows the message on failure and is empty on success; the value is untouched |
| ContactForm.ContactForm.Submit | scripts.js:108-152 | every field is judged by its own rule; the submission is cancelled exactly when it is invalid or the form is not marked for the host; the status is "", "Sending..." or the thanks text; only a simulated success resets the values |
| ContactForm.ContactForm.constructor | scripts.js:106-112 | the form as loaded: its three fields, its status text and whether it is marked `data-netlify` |
| ContactForm.EmailUntrimmed | scripts.js:123-124 | a value with no whitespace at either end passes the e-mail rule exactly when it has the pattern's shape |
| ContactForm.AddressValid | scripts.js:123-127 | "a@b.com" passes the e-mail rule |
| ContactForm.TenCharsValid | scripts.js:130-133 | "1234567890" passes the message rule |
| ContactForm.EmailExamples | scripts.js:123-127 | "foo", "foo@bar" and "@bar.com" fail the e-mail rule |
| ContactForm.PlainAddressValid | scripts.js:123-127 | "foo@bar.com" passes the e-mail rule, also when surrounded by whitespace, since the value is trimmed first |
| ContactForm.NineCharsPadded | scripts.js:130 | "  123456789 " trims to its nine digits |
| ContactForm.TenCharsPadded | scripts.js:130 | " 1234567890\n" trims to its ten digits |
| ContactForm.MessageBoundary | scripts.js:130-133 | a trimmed length of 9 fails and 10 passes; the surrounding whitespace does not count |
| ContactForm.BlankNameScenario | scripts.js:116-138 | only the blank name is flagged: it alone shows its error text and `aria-invalid`, the other two have empty error text and no `aria-invalid`; the submission is cancelled and the status is empty |
| ContactForm.MessageIffLength | scripts.js:130-133 | the message passes exactly when its trimmed value is at least 10 long |
| ContactForm.HandOffScenario | scripts.js:141-144 | a valid submission on a form marked for the host goes through with status "Sending..." |
| ContactForm.SimulatedScenario | scripts.js:145-149 | a valid submission without the marker is cancelled, thanked, and the inputs are emptied |
| Text.IsSpace | scripts.js:124 | the `\s` class and the set `trim()` strips: ECMAScript WhiteSpace and LineTerminator; `Text.TrimOf` and `Email.MatchesIffShaped` are stated over it |
| Tabs.Selected | scripts.js:42-43 | the button loop's body; `Tabs.SelectionExclusive` states its effect over the list |
| Tabs.Shown | scripts.js:47-49 | the panel loop's body; `Tabs.PanelsFollowTarget` states its effect over the list |
| Tabs.SelectButtons | scripts.js:41-44 | what the button loop computes, as `Tabs.Activate` states; `Tabs.SelectionExclusive` and `Tabs.ActivateTwice` give its meaning |
| Tabs.ShowPanels | scripts.js:46-50 | what the panel loop computes, as `Tabs.Activate` states; `Tabs.PanelsFollowTarget`, `Tabs.ExactlyOneVisible` and `Tabs.NoMatchHidesAll` give its meaning |
| Tabs.Activate | scripts.js:37-51 | the buttons become the selection of the clicked one and the panels follow its `data-tab`, element by element, in place |
| Tabs.SelectionExclusive | scripts.js:41-44 | the clicked button is the only active one; its `aria-selected` is "true" and all others are "false"; `data-tab` is untouched |
| Tabs.PanelsFollowTarget | scripts.js:46-50 | a panel is hidden exactly when its id is not the target, and active exactly when shown |
| Tabs.VisibleIsMatching | scripts.js:46-50 | the number of visible panels equals the number of panels whose id is the target |
| Tabs.NoMatchCount | scripts.js:47 | a target that names no panel matches none |
| Tabs.SingleMatchCount | scripts.js:47 | with distinct ids, a panel's own id matches exactly one panel |
| Tabs.ExactlyOneVisible | scripts.js:46-50 | with distinct ids and a target naming a panel, exactly one panel is visible: that one |
| Tabs.NoMatchHidesAll | scripts.js:39-50 | a missing `data-tab`, or one naming no panel, hides every panel |
| Tabs.ActivateTwice | scripts.js:39-50 | clicking the same button twice leaves the page as one click does |
| Tabs.SecondTabScenario | scripts.js:37-51 | with three tabs, clicking the second makes it the only active button and shows only its panel |
| Nav.BoolText | scripts.js:21 | `String(isOpen)`; what it means for the attribute is stated through `Nav.NavToggle.Reflects` by `Nav.NavToggle.ClickToggle` and `Nav.NavToggle.ClickLink` |
| Nav.NavToggle.Reflects | scripts.js:20-21 | the invariant that `aria-expanded` is the text of the menu's open state; `Nav.NavToggle.ClickToggle`, `Nav.NavToggle.ClickLink` and `Nav.ToggleTwice` re-establish it |
| Nav.NavToggle.constructor | scripts.js:15-18 | the page as loaded: whether both elements exist, the menu's class and the attribute |
| Nav.NavToggle.ClickToggle | scripts.js:19-22 | with listeners attached, a click flips the menu and `aria-expanded` reports the new state; without them nothing changes |
| Nav.NavToggle.ClickLink | scripts.js:25-30 | with listeners attached, a link click closes the menu from either state and sets `aria-expanded` to "false"; without them nothing changes |
| Nav.ToggleTwice | scripts.js:19-22 | two toggle clicks restore the menu state, with the attribute in step |
| Observe.RevealedWidth | scripts.js:82-83 | the width a reveal leaves (`data-width` plus "%" when it is non-empty, the old width otherwise); `Observe.Reveal`, `Observe.OnBarEntries` and `Observe.RevealIdempotent` state it for the bars |
| Observe.RevealIdempotent | scripts.js:96-97 | revealing a bar twice gives the width one reveal gives |
| Observe.Reveal | scripts.js:96-97 | the bar's width becomes the revealed width of its `data-width` |
| Observe.OneShotObserver.constructor | scripts.js:90 | observing the targets: all are watched and none was handled |
| Observe.OneShotObserver.Notify | scripts.js:60-88 | the callback body runs exactly for an intersecting entry of a watched target, which it then unobserves; no target is handled twice |
| Observe.OnCounterEntry | scripts.js:60-88 | on a counter's first intersection its sibling bar, if any, is revealed and the counter is unobserved; otherwise nothing changes |
| Observe.OnBarEntry | scripts.js:93-101 | on a bar's first intersection it is revealed and unobserved; otherwise nothing changes |
| Observe.OnBarEntries | scripts.js:93-100 | after a batch, the intersecting bars are unobserved; each bar that was watched and intersects is revealed once, and every other bar keeps its width |

## Left out

- The counter animation is not modelled: `easeOutCubic`, the `data-target`/`data-suffix` parsing and the number formatting (scripts.js:58, 64-78). It is floating-point arithmetic driven by `requestAnimationFrame` and `performance.now`.
- Each field owns its own error element. The script finds the element through `input.closest('.form-field').querySelector('.error')` (scripts.js:155-156, 161-162). Two inputs inside one `.form-field` would share it, and a later `clearError` would empty the text an earlier `setError` wrote. The model does not represent that sharing.
- `style.width` is modelled as a plain string. A browser ignores a width it cannot parse, so a `data-width` such as "abc" leaves the real width unchanged, while the model stores "abc%". The revealed width is faithful only for values CSS accepts.
- The observers' 0.35 threshold and the page geometry are not modelled. The browser decides `isIntersecting`, and the model takes it as a parameter.
- The 5-second `setTimeout` that clears the thanks message is not modelled (scripts.js:150). It is a timer.
- The POST to the form host after a "Sending..." submission is not modelled. It is the browser's own network submission, and the model only records that the submission was not cancelled.
- The footer year is not modelled (scripts.js:169-170). It reads the clock.
- `$`/`$$` and the listener registration are not modelled as operations (scripts.js:11-12). The queried elements are the model's fields and array elements, and a handler is a method.
- ContactForm.ContactForm.Submit assumes `#name`, `#email`, `#message`, `#form-status` and each input's `.form-field` exist. When one is missing the script throws, and the model does not represent that failure.
- Lengths and `\s` are taken over Unicode scalar values. JavaScript measures UTF-16 code units, so a message with characters outside the Basic Multilingual Plane can differ in length.
- `form.reset()` is modelled only for the three validated inputs, each returning to its default value.
- Observe.OneShotObserver.Notify treats an entry for a target that is no longer observed as never delivered. A batch that the host queued before `unobserve` and that names one element twice is therefore not modelled.
- Observe.OnCounterEntry handles one counter entry; the counters' callback is its `forEach` over the batch, as Observe.OnBarEntries does for bars.
