# Portfolio site: contact pipeline, typing effect and navigation highlighting

A Dafny model of the logic of a personal portfolio site. It covers three parts.

- **The contact form** (`contact.js`, module `ContactForm`):
  - `validateData`, its four ordered rules and the e-mail regular expression `/^[^\s@]+@[^\s@]+\.[^\s@]+$/`;
  - the per-field check `validateField` with its inline error state;
  - `handleSubmit`, which validates, sends, classifies the reply, and sets and resets the submit button.
- **The contact API** (`server.js`, module `ContactServer`):
  - POST `/api/contact` builds a normalised entry and appends it;
  - GET `/api/contacts` lists the entries;
  - DELETE `/api/contacts/:id` filters an entry out and reports a status code that depends on which step failed.

  The `contacts/` directory is a `ContactStore` object. The list file is `Option<seq<Contact>>`, where `None` means missing or unparsable. The per-entry files are a `map` from id to entry. Module `ContactPipeline` joins the form to the server: what the form sends, and what the server stores for data the form accepted.
- **The hero typing effect and the active navigation link** (`script.js`, modules `TypingEffect` and `Navigation`):
  - the `typeEffect` closure is a `TypingText` object whose method performs one step, specified by the pure `Step`;
  - the scroll handler runs the two loops that pick the current section and mark the links.

`JsString` models the JavaScript string built-ins these files use: `trim()`, `toLowerCase()` and `substring()`, plus the whitespace class shared by `trim()` and `\s`. `Wrappers` holds `Option`.

The clock, `Date.now()` ids and the reply of `fetch` are parameters. The DOM is reduced to the state the handlers change: field values, inline errors, the button's `loading` and `disabled` flags, the success modal, the error notifications shown, and the requests sent.

### Behaviour worth knowing

The model follows the code in each case.

- The server does not repeat the form's validation. It only checks that the four fields are truthy. `ContactPipeline.ServerAcceptsWhatFormRejects` gives a submission that the form refuses and the server stores.
- Deleting an id that has no entry file returns 500 ("Internal server error"), not 404. `fs.unlink` fails before the list is read. The 404 happens only when the entry file exists but the list file is missing or cannot be parsed. By then the entry file has already been removed.
- The form's length rules count UTF-16 code units, as JavaScript's `length` does. A name made of one emoji is two units long and passes the two-character rule (`ContactForm.AstralCharacterNamePasses`).
- Ids come from `Date.now()` and are not guaranteed unique. The model takes the id as a parameter and proves nothing about uniqueness.

## Model

| member | source | states |
|---|---|---|
| JsString.TrimBounds | server.js:42-45 | `trim()` removes exactly a whitespace prefix and a whitespace suffix, leaving a slice of the input |
| JsString.TrimStart | server.js:42-45 | `trimStart()` is never longer than its input and does not start with whitespace |
| JsString.TrimEnd | server.js:42-45 | `trimEnd()` is never longer than its input, does not end with whitespace and keeps the first character |
| JsString.Trim | contact.js:77-89 | a trimmed string never starts or ends with whitespace and is never longer than its input |
| JsString.TrimEmptyIff | contact.js:77-89 | `trim()` yields `''` exactly when the input is all whitespace |
| JsString.ToLower | server.js:43 | `toLowerCase()` keeps the length, turns each letter A-Z into a-z and keeps every other character, so no upper-case letter is left |
| JsString.Utf16Length | contact.js:77-89 | `length` counts UTF-16 code units: between the character count and twice it |
| JsString.Utf16LengthOfBmp | script.js:107 | on characters of the Basic Multilingual Plane, `length` is the character count |
| JsString.Substring | script.js:98-101 | `substring(a, b)` is the slice `[a, b)` when the arguments are in range, and never longer than the string |
| ContactForm.IsEmail | contact.js:75 | the computed form of the e-mail test: no whitespace, a first `@` with text before it, no second `@`, and a `.` strictly inside the part after it |
| ContactForm.IndexOf | contact.js:75 | the first `@` of the address: that character is `@` and none comes before it; -1 exactly when there is none |
| ContactForm.IsEmailMatchesRegex | contact.js:75 | the computed e-mail test (no whitespace, exactly one `@` with text before it, a `.` strictly inside the domain) holds iff the string matches `^[^\s@]+@[^\s@]+\.[^\s@]+$` |
| ContactForm.IsEmailImpliesRegex | contact.js:75 | every string the computed test accepts has a split into three runs joined by `@` and `.` |
| ContactForm.RegexImpliesIsEmail | contact.js:75 | every such split gives a string the computed test accepts |
| ContactForm.EmailRuleMatchesRegex | contact.js:81 | the e-mail check passes iff the value is present and matches the regex untrimmed |
| ContactForm.FirstFailure | contact.js:77-93 | an ordered validator is `Valid` iff every check passes; otherwise its message is that of a failing check with all earlier checks passing |
| ContactForm.ValidateData | contact.js:73-93 | a rejection always carries one of the four rule messages |
| ContactForm.ValidateDataIsFirstFailure | contact.js:73-93 | `validateData` is the first-failure validator over the rules name, email, subject, message, in that order |
| ContactForm.ValidateDataIff | contact.js:73-93 | data is valid iff the trimmed name is ≥ 2 UTF-16 code units long, the e-mail matches the regex, the trimmed subject is ≥ 5 and the trimmed message ≥ 10 |
| ContactForm.EarlierFailureWins | contact.js:77-79 | when the name fails, the result is the name error whatever e-mail, subject and message hold |
| ContactForm.EmptyFieldFails | contact.js:77 | a missing, empty or all-whitespace name fails with the name message |
| ContactForm.AstralCharacterNamePasses | contact.js:77 | a name of one character beyond the Basic Multilingual Plane, such as an emoji, passes the name rule, since its `length` is 2 |
| ContactForm.RuleFor | contact.js:111-129 | an unknown field name is valid with no message; the e-mail field is valid iff its value matches the regex. The length rules for name, subject and message (2, 5 and 10 UTF-16 code units) are not in this contract; `FieldAgreesWithData` states them |
| ContactForm.FieldAgreesWithData | contact.js:106-128 | for name, subject and message, the blur check on the trimmed value agrees with the submit check |
| ContactForm.EmailTrimDivergence | contact.js:81-118 | whatever passes the submit e-mail check passes the blur check, and a valid address with surrounding whitespace passes on blur but fails on submit |
| ContactForm.SubmitOutcome | contact.js:38-65 | a submission is rejected iff validation fails, with its message; it succeeds iff valid and the reply has `ok` and `success`; a failed reply reports `result.message` when truthy, else "Failed to send message"; a thrown error reports its own message |
| ContactForm.Reset | contact.js:60 | `form.reset()` keeps which inputs exist and puts every existing input back to its empty default, so the reset form no longer validates |
| ContactForm.ContactFormHandler.constructor | contact.js:2-14 | a new handler has no inline errors, an enabled button, no modal, no notices and no requests |
| ContactForm.ContactFormHandler.Send | contact.js:44-50 | a request is only sent while the button is disabled, and is appended to what was sent |
| ContactForm.ContactFormHandler.ClearFieldError | contact.js:161-170 | removes the field's inline error and nothing else |
| ContactForm.ContactFormHandler.ValidateField | contact.js:105-138 | returns the rule for the field's name on the trimmed value; shows the rule's message only when invalid and the trimmed value is non-empty, otherwise clears the error |
| ContactForm.ContactFormHandler.HandleSubmit | contact.js:16-71 | no request when validation fails, exactly one otherwise; any non-success appends its message to the notices and leaves the form alone; success shows the modal, resets the form and clears inline errors; the button always ends enabled and not loading |
| ContactServer.AllPresent | server.js:32 | the body passes the presence check when all four fields are truthy |
| ContactServer.NewEntry | server.js:40-48 | the stored entry has the given id, the trimmed name, subject and message, the trimmed and lower-cased e-mail, status `new`, and the client's timestamp when truthy, else the current time; so every stored entry is normalised |
| ContactServer.NewEntryIdempotent | server.js:42-45 | normalising an already stored entry again changes nothing |
| ContactServer.RemoveId | server.js:112 | the filter keeps exactly the entries whose id differs and never adds any |
| ContactServer.RemoveIdAppend | server.js:112 | the filter keeps order: it distributes over concatenation |
| ContactServer.RemoveIdAbsent | server.js:112 | a list with no entry for the id is unchanged by the filter |
| ContactServer.RemoveIdIdempotent | server.js:112 | filtering twice by the same id is filtering once |
| ContactServer.DeleteUndoesAppend | server.js:65-112 | filtering by the id of an entry just appended gives back the list from before the append, when the id was new |
| ContactServer.ContactStore.constructor | server.js:16-22 | an empty contacts directory: no list file and no entry files |
| ContactServer.ContactStore.Post | server.js:25-81 | a falsy field gives 400 "All fields are required" with nothing written; a truthy non-string field gives 500 with nothing written; otherwise the entry file for the id is written, the entry is appended to the list (an empty list when there was none), and the reply carries the entry's id; stored entries stay normalised |
| ContactServer.ContactStore.Get | server.js:84-92 | always a 200 success listing the stored entries, or `[]` when there is no list; every listed entry is normalised |
| ContactServer.ContactStore.Delete | server.js:95-121 | no entry file gives 500 with nothing changed; otherwise the file is removed, then a missing list gives 404 and an existing list is filtered by the id with a success reply, matched or not |
| ContactPipeline.AcceptedIff | server.js:29-37 | the server accepts what the form sends iff all four values are non-empty strings |
| ContactPipeline.ValidDataIsAccepted | server.js:32-37 | everything the form's validation lets through passes the server's checks |
| ContactPipeline.ServerAcceptsWhatFormRejects | server.js:32-37 | some submission fails the form's validation and is accepted by the server |
| ContactPipeline.LowerSegment | server.js:43 | lower-casing keeps a run free of whitespace and `@` |
| ContactPipeline.LowerKeepsRegex | server.js:43 | a lower-cased address that matched the regex still matches it |
| ContactPipeline.StoredEntryRevalidates | server.js:40-48 | the entry stored for form-valid data passes the form's validation again and keeps the form's timestamp |
| ContactPipeline.SubmitThenList | server.js:25-92 | a form-valid submission is saved under its id and appears last in the next listing, after every earlier entry |
| ContactPipeline.PostThenDelete | server.js:25-121 | posting with a new id and deleting that id restores the entry files and the list's contents |
| TypingEffect.SitePhrasesNonEmpty | script.js:82-88 | the five phrases the site cycles through are all non-empty |
| TypingEffect.SitePhraseLengths | script.js:82-107 | each of the five phrases has as many UTF-16 code units as characters, so measuring them by characters agrees with `currentPhrase.length` |
| TypingEffect.Shown | script.js:97-103 | the displayed text is the phrase cut at the new character index whenever that index lies within the phrase |
| TypingEffect.Step | script.js:94-117 | one step keeps the phrase index within the phrase list |
| TypingEffect.Advance | script.js:97-114 | the variable update and delay of one step keep the phrase index within the phrase list |
| TypingEffect.StepSpec | script.js:97-114 | every step keeps `0 <= charIndex <= phrase length` and displays the first `charIndex` characters of the current phrase; reaching the phrase end switches to deleting with delay 2000; deleting down to 0 moves to the next phrase mod the count with delay 500; otherwise the delay is 100 while typing and 50 while deleting |
| TypingEffect.Run | script.js:116 | `k` chained steps schedule exactly `k` delays and keep the phrase index in range |
| TypingEffect.RunFirst | script.js:116 | `k > 0` chained steps are one step followed by `k - 1` more, its delay first |
| TypingEffect.RunSplit | script.js:116 | `a + b` steps are `a` steps followed by `b` steps |
| TypingEffect.TypeToEnd | script.js:101-109 | from `c` typed characters, typing reaches the end after `len - c` steps with delays 100, …, 100, 2000 |
| TypingEffect.DeleteToStart | script.js:98-113 | from `c` displayed characters, deleting reaches the next phrase after `c` steps with delays 50, …, 50, 500 |
| TypingEffect.PhraseCycle | script.js:94-117 | starting a phrase of length `n`, `2n` steps type it, hold it, delete it and land on the start of the next phrase, wrapping after the last |
| TypingEffect.TypingText.constructor | script.js:80-119 | `initTypingEffect` starts at phrase 0, character 0, typing, and runs the first step at once: the text shows the first character and the pending `setTimeout` has that step's delay (100 ms for a phrase longer than one character) |
| TypingEffect.TypingText.TypeEffect | script.js:94-117 | one call moves the closure variables by `Step`, schedules `Step`'s delay and displays the first `charIndex` characters of the current phrase |
| Navigation.LastReached | script.js:61-68 | the index of a reached section with no reached section after it, or -1 when none is reached |
| Navigation.CurrentId | script.js:58-68 | `''` when no section is reached; otherwise the id of a reached section after which no section is reached |
| Navigation.LinkTarget | script.js:72 | `href.substring(1)`: everything after the first character, `''` for an empty `href` |
| Navigation.FindCurrent | script.js:58-68 | the loop leaves `current` as the id of the last section with `scrollY >= offsetTop - 200`, or `''` |
| Navigation.HighlightLinks | script.js:70-75 | exactly the links whose `href` minus its first character equals `current` are active |
| Navigation.OnScroll | script.js:57-76 | after a scroll, a link is active iff its target is the id of the last reached section |
| Navigation.ScrollMonotone | script.js:65 | scrolling further down never moves the current section back up the document |
| Navigation.CurrentInSortedPage | script.js:61-68 | with offsets increasing down the page, the current section is the reached one whose successor is not reached |
| Navigation.NothingReachedMarksBareLinks | script.js:58-72 | when no section is reached, `current` stays `''` and a link whose `href` is `#` is marked active |

## Left out

- `particles.js`: floating-point physics, `Math.random` and canvas drawing.
- The stats counter, skill bars, project filters, scroll animations, loader, smooth scrolling and `debounce` in `script.js`: timer- and animation-frame-driven DOM effects with floating-point increments.
- `initContactForm` in `script.js`: a second submit handler with the same `fetch` plumbing. The `contact.js` handler is modelled instead.
- The navbar's `scrolled` class and the mobile-menu toggle in `initNavigation`: plain class toggles with nothing to prove beyond their one comparison.
- Notification and modal rendering, CSS injection and the notification timers (`contact.js:140-264`): the model records only which messages were shown and whether the modal is open.
- HTTP, Express routing, CORS, body parsing and JSON (de)serialisation. A JSON body field is reduced to missing, a string, or a non-string with its truthiness. A non-string `timestamp` is not modelled.
- File-system failures other than the two the handlers distinguish. These are `ensureContactsDir`, a failing `writeFile`, and a list file that parses to something other than an array. POST and DELETE answer each with 500, possibly after partial writes. GET returns a non-array list unchanged, with status 200 and `success: true`. `path.join` with an id holding `..` is also not modelled.
- `GET /api/health` and the `/` route: static replies.
- `ContactServer.ContactStore.Post`: takes the id and the current time as parameters, and does not claim ids are unique. Two POSTs in the same millisecond share a `Date.now()` id.
- Concurrency: concurrent POST and DELETE requests race on the read-modify-write of the list file. Each handler is modelled as one atomic step.
- `ContactForm.ContactFormHandler.HandleSubmit`: the two `await`s (`fetch`, then `response.json()`) are taken as one atomic step. Events handled while a submission is pending are not modelled, such as a `blur` that edits the inline errors.
- `Navigation.HighlightLinks`: every link is taken to have an `href`. A link without one makes `getAttribute('href').substring` throw, which stops the loop.
- `JsString.Substring`: indices are counted in characters, not UTF-16 code units. The typing effect and `LinkTarget` use it this way. `TypingEffect.SitePhraseLengths` shows the two counts agree on the site's phrases. An `href` starting with a character beyond the Basic Multilingual Plane would lose half a surrogate pair in JavaScript, and that is not modelled.
- `JsString.IsWhitespace`: a fixed whitespace set (ASCII whitespace, no-break space, line and paragraph separators, byte-order mark) stands for ECMAScript's full `WhiteSpace` and `LineTerminator` classes. It omits the other Unicode space separators.
- `JsString.ToLower`: lower-cases ASCII letters only, not the full Unicode case mapping.
- `ContactForm.Reset`: takes each input's default value to be empty.
- `Navigation.OnScroll`: `scrollY` is taken as an integer, but `window.scrollY` is a double. Nothing is lost: `offsetTop` is an integer, so comparing it with the floor of `scrollY` gives the same answer.
- The `console.error` logging at `contact.js:64`, `server.js:75` and `server.js:118`: it has no effect on state or replies.
