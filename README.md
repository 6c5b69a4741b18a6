# SnapFetch lookup controller in Dafny

SnapFetch is a single-page browser application. The user types a numeric user id and fetches
that user's record from a public REST endpoint. The record is shown in a card. A short list of
recent lookups is kept in the browser's local storage. This project models the application's
lookup controller, in `src/App.jsx`, and proves its properties.

- **Input sanitiser** (`sanitizer.dfy`, module `Sanitizer`). Every edit of the id field stores
  the text with everything except the digits `0`-`9` removed.
- **Identifier guard** (`validation.dfy`, module `Validation`). An empty id is refused with the
  "enter an ID" error. Otherwise the id is parsed as a decimal number and refused unless it lies
  in 1..10. A refusal touches no state and issues no request.
- **Recent list** (`history.dfy`, module `History`). A successful lookup *upserts* its record:
  the record goes first, any older entry with the same user id is dropped, and the list is cut
  to 5 entries. Removing a card filters out its user id. The module also gives an independent
  reference for the list's contents after a run of lookups (`LatestFirst`).
- **Controller** (`controller.dfy`, class `Controller.LookupController`). It holds the fields
  `id`, `result`, `recent` and `loading`, plus the storage slot `"recent"`, which mirrors
  `recent` after every change. `fetchResult` is an async function that suspends at the network
  call, so it is modelled as two steps:
  - `Submit`: the guard, then loading on and the shown result cleared.
  - `Settle`: handles the response and turns loading off.
  - `FetchResult` runs both with nothing in between.
  - Typing and removing a card may happen between the two steps, as in the browser. The
    dismiss button is hidden then (`src/App.jsx:258-263`), because no result is shown. The model
    still admits `RemoveResult` between the steps, where it changes nothing.
- `sequences.dfy` (subsequences, `slice(0, n)`) and `wrappers.dfy` (`Option`, `Result`) are
  shared helpers.

The network is an input. A request ends as `Ok(record)`, as `NotOk` (a non-ok status, reported
as "User not found. Please try ID 1-10"), or as `Thrown(message)` (a thrown error, reported with
its message).

The model follows the code in these points:
- Start-up reads the slot with `JSON.parse`, and nothing catches a parse error. So malformed
  stored content makes start-up throw. The model's constructor takes the already decoded slot
  content, or its absence.
- The code never validates what was stored. So the list invariant (at most 5 entries, distinct
  ids) holds after start-up only when it held of the stored list. Every operation preserves it,
  and every successful lookup leaves at most 5 entries.
- A second submission cannot start while a request is in flight: the submit button is disabled
  while loading (`src/App.jsx:225`). So `Submit` requires `!loading`. Nothing in the model
  discards a stale response.
- The request URL uses the id exactly as typed. `"05"` passes the guard as 5 and requests
  `.../users/05`.

## Model

| member | source | states |
|---|---|---|
| `Sanitizer.Sanitize` | src/App.jsx:242 | the stored id consists of digits only and is never longer than the typed text |
| `Sanitizer.SanitizeKeepsExactlyTheDigits` | src/App.jsx:242 | the result is an order-preserving selection from the text that holds each digit exactly as often as the text does and no other character |
| `Sanitizer.SanitizeConcat` | src/App.jsx:242 | sanitising text in two pieces equals sanitising each piece and joining the results |
| `Sanitizer.SanitizeFixesExactlyDigitStrings` | src/App.jsx:242 | a text is unchanged by the handler if and only if it consists of digits only |
| `Sanitizer.SanitizeIdempotent` | src/App.jsx:242 | sanitising twice equals sanitising once |
| `Validation.ParseDecimal` | src/App.jsx:94 | `parseInt` of a k-digit string is a natural number below 10^k |
| `Validation.ParseIgnoresLeadingZeros` | src/App.jsx:94 | leading zeros do not change the parsed value |
| `Validation.Validate` | src/App.jsx:93-95 | the empty id, and only the empty id, gives the missing-id error; an accepted id has a parsed value in 1..10 |
| `Validation.AcceptsExactlyCanonicalIds` | src/App.jsx:93-95 | an id is accepted if and only if, without its leading zeros, it spells one of 1..10 |
| `Validation.ValidateExamples` | src/App.jsx:93-95 | "" gives the missing-id error; "05" is accepted as 5 and "10" as 10; "0", "000" and "11" are out of range |
| `History.WithoutId` | src/App.jsx:88 | no entry with the removed id is left; an entry survives if and only if it was present and has another id; the list never grows |
| `History.WithoutIdKeepsOrder` | src/App.jsx:88 | the surviving entries keep their relative order |
| `History.WithoutAbsentId` | src/App.jsx:88 | removing an id that is absent leaves the list unchanged |
| `History.WithoutIdKeepsUnique` | src/App.jsx:88 | removal keeps the ids of a duplicate-free list distinct |
| `History.Upsert` | src/App.jsx:105 | the new record is at the head, no other entry has its id, and the length is at most 5 and at most one more than before |
| `History.UpsertKeepsNewestOld` | src/App.jsx:105 | the entries after the head keep the old order and are the leading entries of the old list without the new id; the oldest are dropped first, and only when the list would exceed 5 |
| `History.UpsertKeepsUnique` | src/App.jsx:105 | upsert keeps the ids of a duplicate-free list distinct |
| `History.RefetchReplaces` | src/App.jsx:105 | fetching an id again leaves a single entry for it, holding the latest record, at the front, as if the earlier fetch had not happened |
| `History.Replay` | src/App.jsx:105 | the list after any run of successful lookups from an empty list has at most 5 entries |
| `History.LatestFirstUnique` | src/App.jsx:105 | the reference list of lookups holds at most one record per user id |
| `History.LatestFirstShowsLatestRecord` | src/App.jsx:105 | for every user id, the reference list's entry is the record most recently fetched with that id, and ids never fetched have no entry |
| `History.ReplayIsLatestFirst` | src/App.jsx:105 | after any run of successful lookups from an empty list, the recent list equals the first 5 entries of the reference list: most recent lookup first, one entry per id |
| `Controller.LookupController.constructor` | src/App.jsx:7-16 | start-up: empty id, no result, not loading; the list is the stored list, or empty when the slot is absent; the slot is written back; the list invariant holds if and only if it held of the stored list |
| `Controller.LookupController.SetInput` | src/App.jsx:242 | the id field becomes the digits of the typed text |
| `Controller.LookupController.Submit` | src/App.jsx:92-100 | a refused id returns its error with loading, result, list and slot unchanged and no request; an accepted id turns loading on, clears the result and requests the endpoint with the raw id |
| `Controller.LookupController.Settle` | src/App.jsx:99-117 | on success the result is the record and the list is the upsert of the list at that moment; on failure the result stays cleared and the list is unchanged; a non-ok status is reported with the fixed not-found message, a thrown error with its own message; loading ends either way; the slot mirrors the list; the list invariant is preserved |
| `Controller.LookupController.FetchResult` | src/App.jsx:92-118 | the whole lookup: refusal with no state change, success with result and upsert, or failure with no result, the list unchanged and the not-found message or the thrown error's message reported; loading is off at the end |
| `Controller.LookupController.RemoveResult` | src/App.jsx:81-84 | the shown result becomes empty and nothing else changes |
| `Controller.LookupController.RemoveFromRecent` | src/App.jsx:87-90 | the list becomes its filter by the removed id; no entry with that id remains; an absent id leaves the list unchanged; the slot mirrors the list; the result is untouched; the list invariant is preserved |

## Left out

- Markup, styling and the dark-mode toggle (`src/App.jsx:120-341`, `src/App.jsx:162`). They
  are presentation only.
- Notification wording and timing. `Settle` returns the notification kind, `Submit` returns the
  guard's error kind, and the fixed confirmations of `RemoveResult` and `RemoveFromRecent` are
  not modelled.
- The scroll-centering and auto-scroll effects and their timers (`src/App.jsx:18-78`,
  `src/App.jsx:108-112`). They are DOM geometry with floating-point layout.
- HTTP and JSON decoding of the response. The outcome of a request is a parameter (`Response`).
- JSON serialisation of the storage slot. The slot is modelled as a stored list of records. A
  malformed slot makes start-up throw and is not modelled. Failed storage writes (quota) are not
  modelled either.
- Out-of-order completion of overlapping requests. This is concurrency, and the disabled submit
  button prevents it, hence `Submit`'s `requires !loading`.
- Validation.Validate: takes only digit strings. This is the controller invariant, because
  every edit passes through the sanitiser. `parseInt` on other text (a sign, whitespace, a
  non-numeric prefix giving NaN) is not modelled.
- Validation.ParseDecimal: computes the exact value. JavaScript's `parseInt` rounds above 2^53,
  but a rounded value above 10 is still above 10, so the guard's decision is the same.
- React's batched, asynchronous state updates. Each state setter and the storage-mirroring
  effect take effect within the step that calls them. The functional update
  `setRecent(prev => ...)` is modelled by reading the list at the moment of `Settle`.
- History.ReplayIsLatestFirst: covers runs of successful lookups from an empty list. Runs
  starting from a stored list, or with card removals in between, are covered step by step by
  `Settle` and `RemoveFromRecent`, not by this lemma.
- `src/components/ResultCard.jsx`. It only renders the record's fields. Its `stringToColor`
  avatar hue is cosmetic. Its remove button only calls `RemoveFromRecent` with the card's id.
