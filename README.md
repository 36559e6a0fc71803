# Gym website: gallery filter and contact form

The website is a single page for a fitness centre. Nearly all of it renders fixed data. Two components hold rules,
and this project models and proves those two:

- **Portfolio gallery** (`gallery.dfy`, module `Gallery`). There is a fixed list of eight pictures. Each picture
  carries one tag from the closed set facilities / equipment / classes / transformations. A filter is either `All`
  or one tag (`CategoryFilter = All | Only(Category)`). A click on a filter button only records the selection
  (`activeFilter`). When a render changes the selection, React runs the filter effect. The effect cancels the
  pending transition timer, dims the grid (`isLoading`) and schedules a new transition for the new selection.
  When the timer fires, the visible list (`filteredItems`) is recomputed as an order-preserving filter of the
  fixed list, and the dimming ends. The class `PortfolioGallery` keeps the component's three state fields. It also
  keeps two more fields:
  - `effectFilter`: the dependency value the effect last ran with.
  - `transitionPending`: the scheduled timer.

  The timer is an explicit event, `TransitionFires`. A click, `SelectFilter`, is `HandleFilterChange` followed by
  `RunFilterEffect`. Clicking the filter that is already active therefore changes nothing: React does not re-run an
  effect whose dependency did not change. The object invariant `Valid` says three things:
  - `isLoading` is exactly "a transition is pending".
  - When no transition is pending, the list on screen is the list of the filter the effect last ran with.
  - The list on screen is always the list of some filter.
- **Contact form** (`patterns.dfy`, `contact.dfy`, modules `Patterns` and `Contact`). The form has four required
  text fields: name, phone, email and message. Phone and email also carry a regular expression.
  - `Patterns` writes the two regular expressions `/^[0-9]{9,10}$/` and `/^[A-Z0-9._%+-]+@[A-Z0-9.-]+\.[A-Z]{2,}$/i`
    down as data. It gives them the meaning an anchored `RegExp.test` has: the string splits into one piece per
    repeated bracket expression. Under the `i` flag, case folding is ASCII only. JavaScript's non-Unicode case
    folding never maps a non-ASCII character onto `A-Z`.
  - `Contact` states the phone and email rules a second time, as hand-written predicates: nine or ten digits for
    the phone, and for the email a split at the first `@` and the last dot. It proves them equal to the regular
    expressions. `FieldError` gives the first rule a field fails, `required` before `pattern`, the way
    react-hook-form tries them. `required` fails only on the empty string. `Validate` reports each failing field
    with its first failing rule.
  - The class `ContactForm` is the submit state machine over `isSubmitting`, `submitSuccess` and the field values.
    Its events are `BeginSubmit`, `CompleteOk`, `CompleteErr` and `SuccessTimerFires`, plus `PressSubmit` for a
    click on the button and `Input` for typing. The simulated call in the `try` block always resolves, so the
    current code never reaches its `catch`. `CompleteErr` stands for a real endpoint rejecting the call, not for a
    path the code as written takes.
  - The email input has `type="email"` and the form has no `noValidate`. The browser therefore checks a non-empty
    address against its own rule before any `submit` event fires, and react-hook-form's handler never runs when
    the browser rejects it. `PressSubmit` takes that verdict as its parameter `browserAcceptsEmail`. Nothing cancels the 5-second success timers, so the class counts
    the pending ones in `successTimers`. Its invariant says that the success message is never on screen without a
    pending timer to hide it.
  - Because the timers are never cancelled, a second success within five seconds is hidden when the first success's
    timer fires. The model captures this: any firing timer clears `submitSuccess`.

The timers are not wall-clock time here. Each delay (300 ms, 1000 ms, 5000 ms) becomes an event method that the
environment may call. `TransitionFires` needs the render to be settled (`Settled`: the effect has run for the
current selection). `SelectFilter` needs the same, because React runs the effects of a click's render before it
handles another event or runs a timer.

On one point the code is more precise than a loose reading of "blank" would suggest. A field fails `required` only
when its value is the empty string. A value made of spaces passes `required`, as react-hook-form implements it.
On that point the model follows the code.

## Model

| member | source | states |
|---|---|---|
| `Gallery.GalleryItems` | src/components/PortfolioGallery.tsx:29-86 | no contract of its own: the eight pictures as data, field for field; `Gallery.GalleryCategories` and `Gallery.EveryFilterShowsSomething` give its meaning |
| `Gallery.FilterByCategory` | src/components/PortfolioGallery.tsx:101 | the filtered list is no longer than the input, and every picture in it carries the selected category |
| `Gallery.Visible` | src/components/PortfolioGallery.tsx:98-101 | no contract of its own: the list the timer callback installs for a filter; its meaning is what `Gallery.VisibleMatchesFilter`, `Gallery.FilterIsSubsequence` and `Gallery.FilterCount` prove |
| `Gallery.VisibleMatchesFilter` | src/components/PortfolioGallery.tsx:97-102 | `All` yields the full list unchanged and in order; a category keeps only pictures of that category |
| `Gallery.FilterIsSubsequence` | src/components/PortfolioGallery.tsx:101 | the filtered list is an order-preserving subsequence of the full list |
| `Gallery.FilterCount` | src/components/PortfolioGallery.tsx:101 | each picture of the selected category occurs in the result exactly as often as in the input; other pictures occur 0 times |
| `Gallery.FilterIsComplete` | src/components/PortfolioGallery.tsx:101 | no picture of the selected category is dropped |
| `Gallery.FilterDisjoint` | src/components/PortfolioGallery.tsx:101 | the lists of two different categories share no picture |
| `Gallery.FilterPartition` | src/components/PortfolioGallery.tsx:12-13 | the four category lists together hold every picture of the full list exactly once (as multisets, and so in total length) |
| `Gallery.LayoutFilter` | src/components/PortfolioGallery.tsx:29-86 | in any eight pictures tagged facilities, equipment, classes, transformations twice over, a category's list is its two pictures in order |
| `Gallery.GalleryCategories` | src/components/PortfolioGallery.tsx:29-86 | with the gallery's own data, each category shows exactly its two pictures in declaration order |
| `Gallery.EveryFilterShowsSomething` | src/components/PortfolioGallery.tsx:174-180 | with the gallery's own data, no filter yields an empty list |
| `Gallery.PortfolioGallery.constructor` | src/components/PortfolioGallery.tsx:88-94 | mounting starts with `All`, the full list and the grid dimmed, with a transition for `All` scheduled |
| `Gallery.PortfolioGallery.HandleFilterChange` | src/components/PortfolioGallery.tsx:110-112 | sets `activeFilter` to the clicked filter and changes nothing else (its frame is that one field); the invariant is kept |
| `Gallery.PortfolioGallery.RunFilterEffect` | src/components/PortfolioGallery.tsx:93-107 | after a change of selection: the old timer is cancelled, `isLoading` is set and a transition for the new selection is pending; with an unchanged selection nothing changes; the list on screen is untouched |
| `Gallery.PortfolioGallery.SelectFilter` | src/components/PortfolioGallery.tsx:126-129 | a click on another filter records it and starts the dimmed transition; a click on the active filter changes nothing |
| `Gallery.PortfolioGallery.TransitionFires` | src/components/PortfolioGallery.tsx:97-104 | the list becomes the filter of the full list by the current selection (the full list for `All`, an order-preserving subsequence otherwise), the dimming ends, and no transition stays pending |
| `Gallery.PortfolioGallery.EmptyStateShown` | src/components/PortfolioGallery.tsx:175 | the "no results" panel shows exactly when the list is empty and not loading, and with the gallery's data it never shows |
| `Patterns.Matches` | src/components/ContactForm.tsx:109-110 | no contract of its own: what an anchored `pattern` rule's `test` means (one piece of the string per repeated bracket expression); its case behaviour is `Patterns.MatchesIgnoresCase` |
| `Patterns.PhonePattern` | src/components/ContactForm.tsx:110 | no contract of its own: `/^[0-9]{9,10}$/` as data; `Contact.PhoneRuleIsPattern` proves it equal to the phone rule |
| `Patterns.EmailPattern` | src/components/ContactForm.tsx:136 | no contract of its own: the email expression with its `i` flag as data; `Contact.EmailRuleIsPattern` proves it equal to the email rule |
| `Patterns.MatchesIgnoresCase` | src/components/ContactForm.tsx:136 | under the `i` flag a pattern accepts a string exactly when it accepts the string's upper-case form |
| `Contact.FieldError` | src/components/ContactForm.tsx:107-113 | the required error is reported exactly for the empty value; a pattern error is only reported for phone or email; a field passes exactly when it is non-empty and, for phone and email, its rule holds |
| `Contact.Validate` | src/components/ContactForm.tsx:87-159 | each field's entry in the report is the first rule it fails, and a field that passes has no entry |
| `Contact.NoErrorsIff` | src/components/ContactForm.tsx:87-159 | the report is empty exactly when name and message are non-empty and the phone and email rules hold |
| `Contact.RequiredOnlyRule` | src/components/ContactForm.tsx:87 | name (line 87) and message (line 159): an empty value yields the required error and nothing else; any other value passes |
| `Contact.ValidPhone` | src/components/ContactForm.tsx:110 | no contract of its own: nine or ten ASCII digits; `Contact.PhoneRuleIsPattern` proves it is the phone expression |
| `Contact.ValidDomain` | src/components/ContactForm.tsx:136 | no contract of its own: the part after `@`, split at its last dot; `Contact.DomainRuleIsPattern` proves it is the expression's tail |
| `Contact.ValidEmail` | src/components/ContactForm.tsx:136 | no contract of its own: split at the first `@`; `Contact.EmailRuleIsPattern` proves it is the email expression, `Contact.EmailHasOneAt` and `Contact.EmailRuleIgnoresCase` give its consequences |
| `Contact.PhoneRuleIsPattern` | src/components/ContactForm.tsx:110 | the hand-written phone rule accepts exactly the strings `/^[0-9]{9,10}$/` accepts |
| `Contact.PhoneFieldRule` | src/components/ContactForm.tsx:107-113 | an empty phone yields required and not pattern; a non-empty phone passes iff it has 9 or 10 characters, all in `0`..`9` |
| `Contact.DomainRuleIsPattern` | src/components/ContactForm.tsx:136 | the part after `@` passes the hand-written rule exactly when it matches `[A-Z0-9.-]+\.[A-Z]{2,}$` under the `i` flag |
| `Contact.EmailRuleIsPattern` | src/components/ContactForm.tsx:136 | the hand-written email rule (first `@`, last dot) accepts exactly the strings the email regular expression accepts |
| `Contact.EmailRuleIgnoresCase` | src/components/ContactForm.tsx:136 | the email rule gives the same verdict on an address and on its upper-case form |
| `Contact.EmailHasOneAt` | src/components/ContactForm.tsx:136 | a valid address contains exactly one `@`, with at least one character before it |
| `Contact.EmailFieldRule` | src/components/ContactForm.tsx:133-139 | an empty email yields required; otherwise the email passes iff the regular expression accepts it, whatever the case of its letters |
| `Contact.EmailWithoutAtFails` | src/components/ContactForm.tsx:136 | a non-empty address without `@` gets the pattern error |
| `Contact.ShortPhoneFails` | src/components/ContactForm.tsx:110 | a non-empty phone of fewer than nine characters gets the pattern error |
| `Contact.OnlyEmailFails` | src/components/ContactForm.tsx:133-139 | a form whose only fault is a malformed email reports exactly `{email: pattern}` |
| `Contact.OnlyNameFails` | src/components/ContactForm.tsx:87 | a form whose only fault is an empty name reports exactly `{name: required}` |
| `Contact.OnlyPhoneFails` | src/components/ContactForm.tsx:107-113 | a form whose only fault is a malformed phone reports exactly `{phone: pattern}` |
| `Contact.MalformedEmailSample` | src/components/ContactForm.tsx:133-139 | the address `not-an-email` gets the pattern error |
| `Contact.ValidSample` | src/components/ContactForm.tsx:87-159 | the complete sample form (`Dana`, `0501234567`, `a@b.com`, `hi`) reports no error |
| `Contact.EmptyInputs` | src/components/ContactForm.tsx:37 | no contract of its own: the four empty values before any typing and after `reset()`; `Contact.EmptyFormFailsEveryField` gives its meaning |
| `Contact.EmptyFormFailsEveryField` | src/components/ContactForm.tsx:37 | a reset form fails required on all four fields |
| `Contact.ContactForm.constructor` | src/components/ContactForm.tsx:17-25 | the form starts empty, not submitting, with no success message and no timer |
| `Contact.ContactForm.Input` | src/components/ContactForm.tsx:87-159 | typing into one field sets that field and leaves the other fields, the flags and the invariant unchanged |
| `Contact.ContactForm.SubmitDisabled` | src/components/ContactForm.tsx:171 | no contract of its own: the button is disabled exactly while `isSubmitting`; `Contact.ContactForm.PressSubmit` states what a click on it does |
| `Contact.ContactForm.BeginSubmit` | src/components/ContactForm.tsx:28-29 | runs only on an enabled button and a form that validated; raises `isSubmitting` and keeps the invariant |
| `Contact.ContactForm.PressSubmit` | src/components/ContactForm.tsx:171 | while submitting, or when the browser rejects the `type="email"` value (line 128; the form at line 74 has no `noValidate`), a click does nothing and no report is produced (`None`); otherwise the report is `Validate` of the current values and the handler starts exactly when it is empty; the invariant is kept |
| `Contact.ContactForm.CompleteOk` | src/components/ContactForm.tsx:33-47 | success resets all four fields to empty, shows the success message with one more pending timer, and clears `isSubmitting` |
| `Contact.ContactForm.CompleteErr` | src/components/ContactForm.tsx:44-47 | failure only clears `isSubmitting`; the values and the success flag stay as they were |
| `Contact.ContactForm.SuccessTimerFires` | src/components/ContactForm.tsx:41-43 | a timer firing hides the success message, uses up one pending timer, and changes nothing else |

## Left out

- Markup, styling, animation, the Hebrew button labels (`categoryTranslations`) and the decorative image URL: presentation only. The one attribute with behaviour, the email input's `type="email"`, is covered in the next line.
- `Contact.ContactForm.PressSubmit`: the browser's own rule for a valid e-mail address is not modelled. Its verdict enters only as the parameter `browserAcceptsEmail`; the model only requires that an empty value is accepted. The model therefore does not say which addresses the browser rejects even though the email pattern accepts them, such as `a@-b.com` or `a@b..com`. The browser's sanitizing of the email value (removing newlines, trimming leading and trailing whitespace) is not modelled either: `Input` stores the typed text as it is.
- Wall-clock durations of the three timers: every timer is an event method instead.
- react-hook-form internals: how `errors` are stored, shown and re-validated after the first submit. The model keeps the rule semantics, and it keeps the gate that lets `onSubmit` run only on a form with no errors (`BeginSubmit`'s precondition, `PressSubmit`).
- `Contact.ErrorMessage`: the message table has no contract of its own; it is a constant mapping from field and rule to the shown text.
- `console.log` of the submitted data and `console.error` of a failure: output only. The submitted record is therefore not kept.
- Unmounting: the model has no unmount event. `ContactForm` has no unmount handling of its own (an in-flight submission and its success timers are not cancelled). `PortfolioGallery`'s effect cleanup (`clearTimeout`) also runs on unmount and cancels the pending transition; that cancellation on unmount is not modelled either, only the cancellation when the selection changes (`Gallery.PortfolioGallery.RunFilterEffect`).
- The location map, the facilities and services hover state, and the static sections (about, footer, call to action, hero): they hold no rules beyond rendering fixed data.
- `Contact.MalformedEmailSample`: states only the email field's error for `not-an-email`, not the whole report of a form holding it. The whole report for any form whose only fault is its email is `Contact.OnlyEmailFails`.
- Whole-form samples with one bad field (blank name, phone `123`): stated for all such forms by `Contact.OnlyNameFails` and `Contact.OnlyPhoneFails` instead of for one literal form, since the report of a literal form is costly for the verifier to evaluate.
