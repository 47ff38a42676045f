# Exercise-runner store, modelled in Dafny

This project models the browser-side controller of an interactive
coding-exercise runner. It covers two things:

- the central state store (`useStore`, a Zustand store). The store tracks
  the active exercise, the UI language, the exercise list, the build and
  feedback buttons, the feedback panel, a self-clearing status message and
  the resume token. It mirrors the position and the language into the URL
  fragment;
- the reset confirmation, a small modal state machine that sends a `reset`
  event for the current exercise once the user confirms.

Files:

- `wrappers.dfy` holds `Option`. It stands for JavaScript's `undefined` and
  for the failed outcome of a request.
- `js_string.dfy` (module `JsString`) holds the JavaScript primitives the
  store relies on: `split` with a one-character separator, `includes`,
  `findIndex` with its `-1`, array indexing that yields `undefined`, the
  truthiness of a string-or-undefined, and the decimal rendering of an
  integer in a template string.
- `hash_codec.dfy` (module `HashCodec`) holds the pure fragment rewriting of
  `setPosition` and `toggleLanguage`. It also holds a reference decoder,
  `Lookup`: the first `&`-separated item that *includes* a key. The lemmas
  state what each rewrite leaves in the fragment.
- `store.dfy` (module `Store`) holds the class `Store`. Its fields are the
  store's, plus `hash` (the fragment without its `#`) and `pendingClears`
  (the `setStatus` timers that have not fired yet). Every action states
  the whole new state as a field update of the old `State()`, and keeps
  `Valid()`: `numberOfExercises == |exercises|`. Client methods at the end
  show what callers can prove from those contracts.
- `reset_button.dfy` (module `ResetConfirmation`) holds the class
  `ResetButton`. Its fields are `showModal` and the sequence of events sent
  on the compiler socket scope.

Inputs from outside the core are parameters:

- A network reply is an `Option` (`None`: the request or its JSON parsing
  failed).
- `convertMarkdownToHTML` is the function `toHtml`, given to the
  constructor.
- A status timer firing is the call `FireStatusClear`, which only a
  scheduled timer can make (`pendingClears > 0`).

## Behaviour worth noting

- `setPosition` looks up the language item only when the old fragment has
  more than one `&`-separated item (src/utils/store.tsx:183). So a fragment
  holding only `language=es` loses its language
  (`HashCodec.SetPositionDropsLoneLanguage`).
- `storeFeedback` toggles `showFeedback` (src/utils/store.tsx:144). It does
  not set it to true, so stored feedback hides an open panel.
- Every `setStatus` schedules its own clear and nothing cancels one
  (src/utils/store.tsx:112-114). The first timer to fire clears a status
  set after it (`Store.StatusTimerRace`).
- The reset confirmation has two states: `showModal` false or true
  (src/components/client/ResetButton.tsx:7).
- `toggleLanguage` guards its lookup with `if (paramsArray)`, which every
  array passes (src/utils/store.tsx:226). So the position item is always
  looked up, even for a one-item fragment.

## Model

| member | source | states |
|---|---|---|
| JsString.Split | src/utils/store.tsx:181 | `split('&')` yields at least one part, and no part holds the separator |
| JsString.SplitLength | src/utils/store.tsx:181 | there is exactly one more part than there are separators |
| JsString.SplitWithoutSeparator | src/utils/store.tsx:181 | a string without the separator splits into itself alone |
| JsString.SplitConcat | src/utils/store.tsx:151 | a separator splits the text on either side of it independently |
| JsString.SplitPair | src/utils/store.tsx:222 | `a&b`, with neither part holding `&`, splits into exactly `[a, b]` |
| JsString.JoinSplit | src/utils/store.tsx:181 | joining the parts of a split restores the string |
| JsString.SplitJoin | src/utils/store.tsx:181 | separator-free parts survive a join followed by a split |
| JsString.Includes | src/utils/store.tsx:185 | `s.includes(sub)` (also at line 228): `sub` starts the string or is included in its tail, so the empty key is included everywhere; `IncludesIffOccurs` ties it to occurrence at an index |
| JsString.IncludesIffOccurs | src/utils/store.tsx:185 | `includes` holds exactly when the key occurs at some index |
| JsString.IncludesFirstChar | src/utils/store.tsx:185 | a string that includes a non-empty key contains the key's first character |
| JsString.FindIndex | src/utils/store.tsx:185 | `findIndex` gives the first item that includes the key, or -1 when none does |
| JsString.ItemAt | src/utils/store.tsx:187 | indexing is defined exactly inside the array, so index -1 is `undefined` |
| JsString.Truthy | src/utils/store.tsx:190 | `if (x)` on a string-or-undefined (also at line 233): false for `undefined` and for `""` |
| JsString.NatToString | src/utils/store.tsx:189 | a non-negative number renders as a non-empty digit string without a leading zero |
| JsString.NatToStringRoundTrip | src/utils/store.tsx:189 | the decimal value of the rendered digits is the number |
| JsString.IntToString | src/utils/store.tsx:189 | an integer renders as a non-empty string that starts with `-` exactly when it is negative, and every other character is a digit |
| JsString.IntToStringInjective | src/utils/store.tsx:189 | distinct positions render as distinct strings |
| HashCodec.FirstIncluding | src/utils/store.tsx:185-187 | the decoder returns an item that includes the key; it returns nothing exactly when no item includes the key |
| HashCodec.Lookup | src/utils/store.tsx:185-187 | the reference decoder: the item it returns includes the key and is a whole `&`-free item of the fragment |
| HashCodec.SetPositionHash | src/utils/store.tsx:180-192 | the fragment `setPosition` builds: `split('&')`, the language lookup only for more than one item, `currentExercise=<n>`, and `&<item>` when the item is truthy; `SetPositionForm` states its result |
| HashCodec.ToggleLanguageHash | src/utils/store.tsx:221-235 | the fragment `toggleLanguage` builds: `split('&')`, the position lookup for every fragment, `language=<new>`, and `&<item>` when the item is truthy; `ToggleLanguageForm` states its result |
| HashCodec.FindIndexPicksFirst | src/utils/store.tsx:185-187 | `items[findIndex(...)]` equals the first item including the key, and `undefined` when none does |
| HashCodec.PositionItemShape | src/utils/store.tsx:189 | `currentExercise=<n>` includes the position key, does not include "language" and holds no `&` |
| HashCodec.LanguageItemShape | src/utils/store.tsx:232 | `language=<code>` includes the language key, does not include "currentExercise" and holds no `&` |
| HashCodec.IncludedItemIsTruthy | src/utils/store.tsx:190-191 | an item found by a non-empty key is never falsy |
| HashCodec.SetPositionForm | src/utils/store.tsx:180-192 | the new fragment is `currentExercise=<n>&<old language item>` when the old fragment had more than one item and one of them included "language", and exactly `currentExercise=<n>` otherwise |
| HashCodec.SetPositionItems | src/utils/store.tsx:180-193 | the new fragment's items are the position item, then the old language item only when the old fragment had more than one item and one of them included "language" |
| HashCodec.SetPositionWritesPosition | src/utils/store.tsx:189-193 | the new fragment starts with `currentExercise=<n>`, and that is its position item |
| HashCodec.SetPositionKeepsLanguage | src/utils/store.tsx:183-192 | when the old fragment had more than one item, the language item is unchanged |
| HashCodec.SetPositionSingleItem | src/utils/store.tsx:182-192 | when the old fragment had at most one item, the new fragment is exactly `currentExercise=<n>`, with no language item |
| HashCodec.SetPositionDropsLoneLanguage | src/utils/store.tsx:183 | a fragment holding only `language=<code>` loses its language item |
| HashCodec.SetPositionOverBothItems | src/utils/store.tsx:179-194 | from `language=<l>&currentExercise=<m>`, moving to `n` gives exactly `currentExercise=<n>&language=<l>` |
| HashCodec.ToggleLanguageForm | src/utils/store.tsx:221-235 | the new fragment is `language=<new>&<old position item>` when an old item included "currentExercise", and exactly `language=<new>` otherwise |
| HashCodec.ToggleLanguageItems | src/utils/store.tsx:221-236 | the new fragment's items are the language item, then the old position item when one of the old items included "currentExercise" |
| HashCodec.ToggleLanguageKeepsPosition | src/utils/store.tsx:221-236 | the new fragment starts with `language=<new>`, that is its language item, and its position item is unchanged |
| Store.ToggledLanguage | src/utils/store.tsx:217 | the new language is "us" or "es", and it is "es" exactly when the old one was "us" |
| Store.ToggledLanguageTwice | src/utils/store.tsx:217 | toggling "us" or "es" twice restores it |
| Store.EntryPoint | src/utils/store.tsx:151 | `entry.split("/")[1]`: the second `/`-separated segment, or `undefined`; a defined entry point holds no `/` |
| Store.EntryPointDefined | src/utils/store.tsx:151 | `entry.split("/")[1]` is defined exactly when the entry has a `/` |
| Store.EntryPointOfPath | src/utils/store.tsx:151 | for `dir/file` or `dir/file/...`, the entry point is `file` |
| Store.AIFeedbackRequest | src/utils/store.tsx:148-153 | a file request exists exactly when the current exercise exists; it carries that exercise's slug and entry point |
| Store.Store.constructor | src/utils/store.tsx:69-92 | initial state: language "us", position 0, no exercises, count 0, no solved exercises, empty status with no pending clear, hidden empty feedback, empty token, buttons "Run" and "Feedback", the language labels |
| Store.Store.IncreaseSolvedExercises | src/utils/store.tsx:95-99 | raises `solvedExercises` by one and changes nothing else |
| Store.Store.SetBuildButtonText | src/utils/store.tsx:100-102 | replaces the build button's text and class (class defaults to "") and nothing else |
| Store.Store.SetFeedbackButtonProps | src/utils/store.tsx:103-105 | replaces the feedback button's text and class (class defaults to "") and nothing else |
| Store.Store.ToggleFeedback | src/utils/store.tsx:106-109 | negates `showFeedback` and changes nothing else |
| Store.Store.SetStatus | src/utils/store.tsx:110-115 | sets `status` at once and adds one pending clear; no earlier clear is cancelled |
| Store.Store.FireStatusClear | src/utils/store.tsx:112-114 | a pending clear sets `status` to "" unconditionally and is consumed |
| Store.Store.SetToken | src/utils/store.tsx:116-118 | replaces `token` and nothing else |
| Store.Store.CheckLoggedStatus | src/utils/store.tsx:119-129 | a reply sets `token` to its `rigoToken`; any failure sets `token` to "" |
| Store.Store.FetchExercises | src/utils/store.tsx:130-135 | a list sets `exercises` to it and `numberOfExercises` to its length; a failure changes nothing |
| Store.Store.StoreFeedback | src/utils/store.tsx:140-145 | stores the converted feedback and flips, not sets, `showFeedback` |
| Store.Store.GetAIFeedback | src/utils/store.tsx:147-171 | returns the file request; with a current exercise and a reply it stores the converted feedback and flips `showFeedback`; otherwise it changes nothing |
| Store.Store.SetPosition | src/utils/store.tsx:179-195 | moves to the new position and rewrites the fragment by `SetPositionHash`; nothing else changes |
| Store.Store.SetLanguage | src/utils/store.tsx:209-213 | replaces `language` and nothing else |
| Store.Store.ToggleLanguage | src/utils/store.tsx:215-236 | switches the language by `ToggledLanguage` and rewrites the fragment by `ToggleLanguageHash`; nothing else changes |
| Store.ToggleFeedbackTwice | src/utils/store.tsx:106-109 | two toggles restore the whole store |
| Store.StoreThenToggleFeedback | src/utils/store.tsx:140-145 | storing feedback shows a hidden panel, and a following toggle hides it |
| Store.StatusTimerRace | src/utils/store.tsx:110-115 | after `setStatus("Building")`, then `setStatus("Done")`, the first timer leaves the status "" |
| Store.FailedTokenCheck | src/utils/store.tsx:126-128 | a failed token check leaves the token "" whatever it was |
| Store.ToggleLanguageTwice | src/utils/store.tsx:215-236 | two toggles restore a supported language and keep the fragment's position item |
| ResetConfirmation.ResetButton.constructor | src/components/client/ResetButton.tsx:7 | the modal starts hidden and nothing has been emitted |
| ResetConfirmation.ResetButton.ModalRendered | src/components/client/ResetButton.tsx:16 | the modal, with its Reset and Cancel buttons, is on screen exactly while `showModal` holds |
| ResetConfirmation.ResetButton.ToggleModal | src/components/client/ResetButton.tsx:9-12 | negates `showModal` and emits nothing |
| ResetConfirmation.ResetButton.HandleReset | src/components/client/ResetButton.tsx:28-36 | with a current exercise, appends exactly one `reset` event carrying its slug, keeps earlier events and closes the modal; without one, it changes nothing |
| ResetConfirmation.ResetButton.Cancel | src/components/client/ResetButton.tsx:43 | closes the modal and emits nothing |
| ResetConfirmation.ConfirmAfterCancel | src/components/client/ResetButton.tsx:9-43 | opening, cancelling, reopening and confirming sends exactly one event, for the exercise current when confirming, and ends closed |
| ResetConfirmation.ConfirmTwice | src/components/client/ResetButton.tsx:26-43 | two `HandleReset` calls with a cancelled opening between them send exactly two events, both for the current exercise |

`ResetButton.Valid()` says every event sent is named `reset`. Only
`HandleReset` adds events, one per call that finds a current exercise:
`ToggleModal` and `Cancel` promise that `emitted` is unchanged.
`ResetButton.HandleReset` and `ResetButton.Cancel` require
`ModalRendered()`. Their buttons exist only while the modal is rendered
(src/components/client/ResetButton.tsx:16).

## Left out

- The network and the HTTP transport. Each reply is a parameter. The
  response's content type in `getAIFeedback`
  (src/utils/store.tsx:157-163) decides whether the file is read as JSON or
  as text. It only affects what is sent onwards, so it is not modelled.
- Store.Store.CheckLoggedStatus: a reply whose JSON lacks `rigoToken`
  stores `undefined` in the source. Here every successful reply carries a
  string, because the token is a string.
- Store.Store.GetAIFeedback: it does not model what is sent to the feedback
  service (lesson content, code, token). That call is external.
- Store.Store.FetchExercises: a reply that is not a list is not modelled.
- `fetchReadme`, `getLessonTitle` and their fields `currentContent` and
  `lessonTitle` are not part of this model. They are asynchronous follow-ups
  that `fetchExercises`, `setLanguage` and `toggleLanguage` start without
  waiting for them.
- `toggleSidebar`: it only delegates to a sidebar helper outside the store.
- The socket: `Socket.start`, `Socket.createScope` and the DOM `disconnected`
  callback. The `emitted` sequence stands for what `compilerSocket.emit`
  sends.
- The 5000 ms delay of the status timer. Pending clears are a count, and
  the environment fires them. All clears are identical, so their order
  does not matter.
- Interleaving of overlapping asynchronous actions, and stale results.
- Rendering: JSX, CSS classes, the language labels' use in the UI, and
  React's render-time capture of `showModal`.
- JsString.IntToString: JavaScript renders an integer of magnitude 10^21
  or more in exponent form (`${1e21}` is "1e+21"); here every integer
  renders as plain decimal digits.
- Store.Store.SetPosition: the position is an integer. JavaScript numbers
  that are not integers render differently. The browser's percent-encoding
  of an assigned fragment is not modelled.
- src/components/server/Navbar.tsx is markup only and is not part of this
  model.
