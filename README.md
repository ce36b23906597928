# Wedemark Team Open front-end: slot tracker and proxy rewrite

This project models the two pieces of logic in the Wedemark Team Open
front-end and proves their properties in Dafny.

- **The slot-availability tracker** (`src/composables/useTeamSlots.ts`,
  module `TeamSlots`, file `team_slots.dfy`). The tracker holds the number
  of signup slots left out of a fixed capacity of 8. The value is absent
  until the first successful count request. A loading flag is set while a
  request is pending. `fetchSlotsLeft(force)` returns at once while a
  request is in flight. It also returns at once when a value is cached and
  `force` is false. Otherwise it sets the flag and sends one count request.
  On success it stores `8 - total`. On failure it keeps the old value. In
  both cases it clears the flag. The operation has a single `await`, so it
  is split into two uninterrupted steps:
  - `Begin` runs the guards and sets the flag (lines 9-14).
  - `Complete` handles the outcome of the request (lines 16-21).

  A trace is a sequence of `Call(force)` and `Arrive(outcome)` events,
  which stands for any sequential interleaving of these steps. The pure
  functions `BeginStep`, `CompleteStep`, `Run` and `Issued` give the
  meaning of each step and of a whole trace. The class `SlotTracker` holds
  the real state. Its methods are proved to follow those functions, and a
  ghost `history` records the steps taken. The count request is an input
  `Outcome`, either `Success(total)` or `Failure`.
- **The development proxy's path rewrite** (`vite.config.ts` line 21,
  module `ProxyRewrite`, file `proxy_rewrite.dfy`). The rewrite is
  `path.replace(/^\/api/, '/api/wedemarkteamopen/2025')`. It is modelled as
  a function on strings. The anchored literal match is written character by
  character and is proved equal to a sequence prefix test.

Lines 9-14 of `useTeamSlots.ts` contain no `await`, so in a
single-threaded event loop the guards and the setting of the flag run as
one step. `BeginStep` is therefore one transition, and `InFlightBalance`
and `AtMostOneInFlight` prove that two requests are never pending at once.

The code reads the team count from `response.data.total`, and the model
takes that count as the integer input of `Success`.

## Model

| member | source | states |
|---|---|---|
| TeamSlots.BeginStep | src/composables/useTeamSlots.ts:9-14 | a request is sent exactly when nothing is in flight and the call is forced or finds no value; the guards never touch `slotsLeft`; the flag is raised exactly when a request is sent |
| TeamSlots.CompleteStep | src/composables/useTeamSlots.ts:16-21 | after the outcome arrives the flag is cleared; a success sets `slotsLeft` to `8 - total`; a failure keeps the old value |
| TeamSlots.InFlightBalance | src/composables/useTeamSlots.ts:9-21 | on every well-formed trace, requests sent equal outcomes arrived plus one if the flag is up (counting the flag at the start) |
| TeamSlots.AtMostOneInFlight | src/composables/useTeamSlots.ts:9-21 | from program start, at most one request is outstanding at any time, and the flag is up exactly when one is |
| TeamSlots.CallsCoalesce | src/composables/useTeamSlots.ts:9-14 | any run of calls with no arrival sends at most one request; it sends one exactly when nothing was in flight and some call was forced or no value was cached; calls never change `slotsLeft` |
| TeamSlots.CallsWhileLoadingAreNoOps | src/composables/useTeamSlots.ts:9 | while a request is in flight, any number of calls change nothing and send nothing |
| TeamSlots.UnforcedCallsHitCache | src/composables/useTeamSlots.ts:11-12 | with a value cached, any number of unforced calls change nothing and send nothing |
| TeamSlots.SlotsLeftFollowsLastSuccess | src/composables/useTeamSlots.ts:9-22 | after any trace, `slotsLeft` is `8 - total` of the last successful outcome, or the initial value if none succeeded |
| TeamSlots.FailuresKeepStaleValue | src/composables/useTeamSlots.ts:18-19 | a trace in which no request succeeds leaves `slotsLeft` unchanged, whether present or absent |
| TeamSlots.LoadingLifecycle | src/composables/useTeamSlots.ts:14-21 | a call that passes the guards sends one request and raises the flag; the arrival of its outcome, success or failure, lowers it |
| TeamSlots.RefreshExample | src/composables/useTeamSlots.ts:4-21 | a count of 3 gives 5 slots left; a forced refresh that then fails keeps 5, clears the flag, and two requests have been sent |
| TeamSlots.OverbookedGoesNegative | src/composables/useTeamSlots.ts:4-17 | no clamping: a count above 8 gives a negative number of slots left |
| TeamSlots.SlotTracker.constructor | src/composables/useTeamSlots.ts:4-6 | initially `slotsLeft` is absent, the flag is down, and no request has been sent |
| TeamSlots.SlotTracker.Begin | src/composables/useTeamSlots.ts:9-14 | the guards and the flag update on the object, with the same conditions as BeginStep; the request count grows by one exactly when a request is sent |
| TeamSlots.SlotTracker.Complete | src/composables/useTeamSlots.ts:16-21 | for the pending request: success stores `8 - total`, failure keeps the old value, the flag is cleared, and no request is sent |
| TeamSlots.SlotTracker.FetchSlotsLeft | src/composables/useTeamSlots.ts:8-23 | one uninterrupted call of `fetchSlotsLeft`: it sends a request exactly when the guards pass, ends with the flag as it found it, and updates `slotsLeft` only on success |
| TeamSlots.SlotTracker.OneRequestInFlight | src/composables/useTeamSlots.ts:9-21 | on the object, requests sent equal outcomes arrived plus one if the flag is up |
| ProxyRewrite.MatchesAtStartIsPrefix | vite.config.ts:21 | the anchored literal match, done character by character, holds exactly when the pattern is a prefix of the path |
| ProxyRewrite.Rewrite | vite.config.ts:21 | a path starting with "/api" becomes the replacement followed by everything after the first 4 characters; any other path is returned unchanged |
| ProxyRewrite.RewritePrefixed | vite.config.ts:21 | with the prefix present, the output is 22 characters longer, starts with the replacement, and keeps every later character in place, so a later "/api" is not replaced |
| ProxyRewrite.RewriteUnprefixed | vite.config.ts:21 | a path without the prefix is returned unchanged |
| ProxyRewrite.RestoreRewrite | vite.config.ts:21 | the rewrite loses no information: every path is recovered from its output |
| ProxyRewrite.RewriteRestore | vite.config.ts:21 | on outputs that start with the replacement, the rewrite undoes the restore |
| ProxyRewrite.RewriteTwice | vite.config.ts:21 | the rewrite is not idempotent: a second pass inserts the year segment again |
| ProxyRewrite.RewriteExamples | vite.config.ts:21 | "/api/teams/count" becomes "/api/wedemarkteamopen/2025/teams/count"; the match is textual ("/apix") and case-sensitive ("/API/teams" passes through) |

## Left out

- The HTTP request through axios (`useTeamSlots.ts` line 16) is not modelled. Its result is the input `Outcome`.
- The client-wide 30-second timeout in `src/main.ts` is not modelled. A timeout is one more case of `Failure`.
- The JSON payload and its decoding (`response.data.total`) are not modelled. The model takes the integer directly.
- A payload without a numeric `total` is not modelled. In the source, a missing `total` makes line 17 store NaN as a success, and a string `total` is coerced to a number; the model has no such outcome. Only a null or missing `response.data` throws and ends as a failure.
- `console.error` on failure (line 19) is not modelled. It is a diagnostic side effect that changes no state.
- Vue reactivity (`ref`, change notification) is not modelled. Plain fields stand for the refs.
- The `useTeamSlots` accessor (lines 25-30) is not modelled. It only hands out the shared ref and function.
- The JavaScript event loop is not modelled. Traces cover only sequential interleavings of the uninterrupted steps.
- TeamSlots.SlotTracker.Complete: requires a pending request (`loading`). In the source a completion only ever follows a `Begin` that sent the request. `CompleteStep` itself does not check the flag, as the source does not.
- The router table (`src/router/index.ts`) is not modelled. It is declarative configuration matched by the vue-router library.
- Application bootstrap (`src/main.ts`) is not modelled. It is framework wiring.
- The rest of `vite.config.ts` (plugins, port, host, proxy target, alias) is not modelled. It is build configuration, not logic.
