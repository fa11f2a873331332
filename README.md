# Agenda-ENE front-end core, modelled in Dafny

Agenda-ENE is a scheduling front-end: sign-in forms and a dashboard that
shows a provider's month availability on a calendar. This project models the
three parts of it whose behaviour can be stated precisely, and proves what
they promise:

- **The validation-error mapper** (`getValidationErrors`, module
  `ValidationErrors`). It folds the ordered violations of a schema-validation
  failure into a dictionary from field path to message. The method
  `GetValidationErrors` is the in-place `forEach` loop. It is proved equal to
  the reference fold `Fold`. The lemmas about `Fold` give its keys (exactly
  the violation paths), its size (at most one entry per violation, equality
  when paths are distinct), its values (last write wins) and its incremental
  step.
- **The session store** (`AuthProvider`, module `Auth`). The class
  `AuthProvider` holds a `storage` map standing in for `localStorage` and an
  optional in-memory `Session(token, user)`. The user record is opaque: a
  type parameter, with `JSON.stringify`/`JSON.parse` passed in as a
  `UserCodec`. The backend's reply to `signIn` is a parameter. The class
  invariant `Valid` says the memory is backed by storage. `Restore` is the
  start-up initialiser as a pure function of the storage. The lemmas relate
  sign-in, sign-out and restore. Token and user are one `Option<Session>`,
  so they are always set or cleared together. `Valid` rests on every
  storage write succeeding; see "## Left out" for what a failing write
  leaves behind.
- **The dashboard's availability logic** (module `Dashboard`). `DisabledDays`
  is the filter/map from availability entries to dates of the current month.
  `CalendarDisabled` is the calendar's disabled list: the weekend rule, then
  those dates. `Modifiers` computes the `available`/`disabled` modifiers of a
  day. `DashboardState` holds `selectedDate`, `currentMonth` and
  `monthAvailability`, and its methods are the click and month-change
  handlers. Dates are `(year, month0, day)` triples with a 0-based month, as
  a JS `Date` exposes them.

Three behaviours of the code worth stating:

- Duplicate paths: the code keeps the **last** message for a repeated path
  (each assignment overwrites the one before), not the first.
- A malformed user record: `JSON.parse` in the initialiser is not guarded, so
  it throws instead of falling back to a signed-out state. `Restore` returns
  `Failure(MalformedUser)` there.
- A rejected sign-in: it leaves the state and storage **unchanged**. It does
  not clear an earlier session.

Two consequences of the code as written are proved as lemmas:

- `Auth.EmptyTokenIsNotRestored`: a sign-in whose token is `""` sets the
  in-memory session. A restore from that storage gives the empty state,
  because `""` is falsy.
- `Dashboard.AvailableModifierCoversWeekdays`: a weekday that the backend
  reports unavailable carries both the `available` and the `disabled`
  modifier. `handleDateChange` tests only `available`, so the handler
  selects such a day whenever the calendar passes the click on.

## Model

| member | source | states |
|---|---|---|
| `ValidationErrors.GetValidationErrors` | src/utils/getValidationErrors.ts:7-17 | the loop's dictionary equals the reference fold; empty input gives `{}`; keys are exactly the violation paths; size at most the number of violations, equal when paths are distinct; each path maps to the message of its last violation |
| `ValidationErrors.FoldSnoc` | src/utils/getValidationErrors.ts:12-14 | one more violation updates the dictionary at its path with its message, and every other key keeps its presence and value |
| `ValidationErrors.FoldFromSnoc` | src/utils/getValidationErrors.ts:12-14 | the incremental step holds from any starting dictionary |
| `ValidationErrors.FoldKeys` | src/utils/getValidationErrors.ts:12-14 | the keys of the result are exactly the paths of the violations |
| `ValidationErrors.FoldLastWins` | src/utils/getValidationErrors.ts:12-14 | the value under a path is the message of the last violation naming that path |
| `ValidationErrors.FoldSize` | src/utils/getValidationErrors.ts:12-14 | the result has at most as many entries as violations, and exactly as many when no path repeats |
| `Auth.Restore` | src/hooks/AuthContext.tsx:30-39 | the state is empty exactly when the token or user item is missing or empty; a present, non-empty user text that does not parse throws; otherwise the session holds the stored token and the parsed user |
| `Auth.SignInThenRestore` | src/hooks/AuthContext.tsx:31-50 | after the two sign-in writes, a restore yields the same token and user, for a non-empty token |
| `Auth.EmptyTokenIsNotRestored` | src/hooks/AuthContext.tsx:34-49 | an empty token written by sign-in restores as the empty state |
| `Auth.BackedSessionRestores` | src/hooks/AuthContext.tsx:30-52 | an in-memory session that storage backs is what a restore yields, for a non-empty token |
| `Auth.SignOutProperties` | src/hooks/AuthContext.tsx:55-60 | sign-out removes both keys, keeps every other key, is idempotent, and its storage restores to the empty state |
| `Auth.TokenOnlyWriteMixesSessions` | src/hooks/AuthContext.tsx:49-50 | if only the token write lands, a restore yields the new token with the previous user |
| `Auth.TokenOnlyWriteFromSignedOut` | src/hooks/AuthContext.tsx:34-50 | from a storage with no user text, a token-only write restores to the empty state, so a signed-out provider stays backed by storage |
| `Auth.SignInKeepsOtherKeys` | src/hooks/AuthContext.tsx:49-50 | sign-in's writes leave every key other than the two session keys as it was |
| `Auth.AuthProvider.constructor` | src/hooks/AuthContext.tsx:30-39 | the mounted provider holds the storage it was given and the restored session, and memory is backed by storage |
| `Auth.AuthProvider.User` | src/hooks/AuthContext.tsx:73 | on a valid provider, a set user is what the stored user text parses to, and an unset user means storage restores to the empty state |
| `Auth.AuthProvider.SignIn` | src/hooks/AuthContext.tsx:41-53 | a rejected reply changes neither storage nor memory; an accepted one writes the token and the stringified user and sets the session to that token and user; the exposed user becomes the reply's user after an accepted reply and is unchanged after a rejected one; memory stays backed by storage |
| `Auth.AuthProvider.SignOut` | src/hooks/AuthContext.tsx:55-60 | both keys are removed, nothing else in storage changes, the session and the exposed user are cleared; memory stays backed by storage |
| `Dashboard.DisabledDays` | src/pages/Dashboard/index.tsx:83-93 | no more dates than availability entries, each in the current month's year and month |
| `Dashboard.DisabledDaysMembership` | src/pages/Dashboard/index.tsx:84-90 | a date is disabled exactly when it lies in the current month and some unavailable entry names its day |
| `Dashboard.DisabledDaysAppend` | src/pages/Dashboard/index.tsx:84-86 | input order is kept: the dates of a concatenation are those of its parts in order |
| `Dashboard.DisabledDaysExtremes` | src/pages/Dashboard/index.tsx:84-90 | no date is disabled exactly when all entries are available; every entry gives a date exactly when none is |
| `Dashboard.CalendarDisabled` | src/pages/Dashboard/index.tsx:217-218 | the list starts with the weekend rule and has one more entry than there are disabled dates; it disables a day exactly when the day falls on Sunday or Saturday or is a disabled date |
| `Dashboard.AvailableModifierCoversWeekdays` | src/pages/Dashboard/index.tsx:217-221 | the `available` modifier holds exactly on weekdays 1-5; an unavailable weekday date is both available and disabled |
| `Dashboard.MonthAvailabilityQuery` | src/pages/Dashboard/index.tsx:59-68 | the month query carries the provider id, the year and the 1-based month |
| `Dashboard.AppointmentsQuery` | src/pages/Dashboard/index.tsx:70-81 | the appointments query carries the year, the 1-based month and the day of the month |
| `Dashboard.DashboardState.constructor` | src/pages/Dashboard/index.tsx:44-46 | both dates start at the given day and the availability list is empty |
| `Dashboard.DashboardState.CurrentDisabledDays` | src/pages/Dashboard/index.tsx:83-93 | the memo over the current state: at most one date per entry, all in the current month |
| `Dashboard.DashboardState.HandleDateChange` | src/pages/Dashboard/index.tsx:49-53 | a click selects the day when it carries `available`, and otherwise leaves the selection unchanged |
| `Dashboard.DashboardState.HandleMonthChange` | src/pages/Dashboard/index.tsx:55-57 | the current month becomes the given month unconditionally |
| `Dashboard.DashboardState.ReceiveMonthAvailability` | src/pages/Dashboard/index.tsx:65-67 | the fetched list replaces the availability list |

## Left out

- HTTP calls (`api.post('sessions')`, the two `api.get` effects): network I/O. The sign-in reply and the month-availability list are method parameters. The credentials sent with them are not modelled. Out-of-order replies of overlapping requests are not modelled either.
- `JSON.stringify`/`JSON.parse`: foreign calls. They are the `UserCodec` parameter, assumed (`Lawful`) to round-trip and to produce non-empty text.
- The browser `localStorage` API: modelled as a `map<string, string>`. Writes by other code between operations are not modelled.
- `Auth.AuthProvider.constructor`: requires a successful `Restore`. When the user text does not parse, the source's initialiser throws and no provider is mounted; the model stops at `Restore`'s `Failure(MalformedUser)`.
- Auth.AuthProvider.SignIn: assumes both `setItem` calls succeed. The two writes are not one transaction. If the user write throws (quota exceeded, storage disabled), the token write has already landed and `setData` never runs. Memory keeps the previous session. If a session was stored before, storage holds the new token beside the previous user text and `Valid` fails; `Auth.TokenOnlyWriteMixesSessions` shows that a reload restores the new token with the previous user. From a storage with no user text, only the token is left; it restores to the empty state and `Valid` still holds (`Auth.TokenOnlyWriteFromSignedOut`).
- Auth.AuthProvider.SignOut: assumes both `removeItem` calls succeed. If the second one throws, the user text stays in storage without a token, and the in-memory session is not cleared.
- `useAuth`'s throw: unreachable, because the context default `{}` is truthy.
- The day of the week of a date: it comes from the date library, so it is a parameter of `Modifiers` and the calendar lemmas.
- JS `Date` day-overflow rollover: `new Date(year, month, day)` is kept as the triple. date-fns formatting, `isToday`, `fromMonth` and `new Date()` read the clock or render text; the initial date is a constructor parameter.
- DayPicker rendering, including whether it passes clicks on disabled days to `onDayClick`: library behaviour.
- The `appointments` state: fetched and logged; the page never reads it, because the schedule it shows is hard-coded.
- The form pages (sign-in, sign-up, forgot password): glue over Yup schemas, navigation and toasts.
- The toast queue: the queue logic is not part of this model (`hooks/ToastContext` is not among the files), and `ToastContainer` is animation rendering.
- Avatar and styling components, and `console.log` calls: presentation and logging only.
