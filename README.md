# Leaderboard edit buffer — a Dafny model

The leaderboard dashboard shows every user's kill and death counts in a table
whose two stat cells are editable, a Points column, and a bar chart of the
three top users as ranked by the server. This project models the only logic
in the `Leaderboard` component that has statable behaviour:

- the **edit buffer** `editedStats`, a table from user id to a partial Stats
  record, and `handleStatChange`, which sets one field of one entry;
- the **cell display rule** `editedStats[id]?.[stat] ?? user.stats[stat]`;
- the **derived values**: Points and chart bars (`kill_count - death_count` of
  the server record) and chart labels (`<rank> <username>`);
- the **blur step** `handleBlur`: with a buffered value it submits exactly that
  value and, on success, re-fetches the full list and then the top list.

Files:

- `types.dfy` (module `Types`): `StatType`, `Stats`, `User` from
  `src/utils/types.ts`, and `Option` for JavaScript's `undefined`. The enum
  file that declares `StatType` is not part of this model; its two values are
  the names of the `Stats` fields, since the code indexes `Stats` with them.
- `decimal.dfy` (module `Decimal`): how a template literal prints the rank
  `index + 1`, and the inverse reading used to state what a label contains.
- `leaderboard.dfy` (module `Leaderboard`): the buffer, the row and chart
  functions, and the class `LeaderboardState` holding `users`, `topUsers` and
  `editedStats`, whose methods `HandleStatChange` and `HandleBlur` update
  them in place.

The network is abstracted as a `ServerOutcome` parameter of `HandleBlur`:
either the PUT failed, or it succeeded and each of the two re-fetches either
returned a list or failed. The fetches in `src/hooks/UseFetchUsers.ts`
(lines 9-29) catch and log their own errors and keep the previous list, so a
re-fetch can fail on its own after a successful PUT; `Refetched` models that.

Two consequences of the code are worth stating. Points and the chart bars
are computed from the server record (`Leaderboard.tsx` lines 78 and 130-133),
not from the displayed cells; so while a kill edit that differs from the
server's kill count is pending and nothing is buffered for deaths, Points is
not the displayed kills minus the displayed deaths (`PointsLagPendingEdit`).
And `handleBlur` never writes `editedStats` (lines 105-122), so after a
submission the cell keeps showing the submitted value whatever the server
returns (`SubmittedValueStaysShown`).

## Model

| member | source | states |
|---|---|---|
| `Types.StatType.WireName` | src/utils/types.ts:2-3 | `KillCount` is sent as "kill_count" and `DeathCount` as "death_count", the Stats field names they index |
| `Types.WireNamesDistinct` | src/utils/types.ts:2-3 | the two selectors name different fields |
| `Decimal.ToDecimal` | src/components/Leaderboard.tsx:126 | a rank prints as a non-empty run of digits with no leading zero unless it is 0 |
| `Decimal.FromToDecimal` | src/components/Leaderboard.tsx:126 | reading the printed rank back gives the rank |
| `Leaderboard.PendingStats.Set` | src/components/Leaderboard.tsx:97-100 | spreading an entry and setting one field sets that field and keeps the other |
| `Leaderboard.WithStatChange` | src/components/Leaderboard.tsx:95-101 | after an edit the cell holds the typed value, the user's other field is kept, the user id is added to the keys and every other user's entry is unchanged |
| `Leaderboard.LeaderboardState.constructor` | src/hooks/UseFetchUsers.ts:6-7 | both lists start empty (these lines) and the buffer starts empty (src/components/Leaderboard.tsx:85-87) |
| `Leaderboard.LeaderboardState.HandleStatChange` | src/components/Leaderboard.tsx:90-102 | the new buffer is the old one with the edit applied; the edited cell holds the value, the other stat and every other user's cells keep their buffered values, and `users` and `topUsers` are untouched |
| `Leaderboard.DisplayValue` | src/components/Leaderboard.tsx:46-49 | a cell shows its buffered value when one exists, and the server's value only when none is buffered |
| `Leaderboard.DisplayAfterChange` | src/components/Leaderboard.tsx:63-66 | after an edit the cell shows the typed value, 0 included, since `??` falls back only on an absent value |
| `Leaderboard.OtherCellsUnchanged` | src/components/Leaderboard.tsx:95-101 | an edit changes the display of no other cell of any user |
| `Leaderboard.RenderRow` | src/components/Leaderboard.tsx:34-80 | a row shows the username, the two displayed stat values and Points equal to the server's kills minus deaths |
| `Leaderboard.RenderTable` | src/components/Leaderboard.tsx:167-175 | the table has one row per user, in the order of `users` |
| `Leaderboard.SyncedRowShowsServer` | src/components/Leaderboard.tsx:43-79 | with nothing buffered for a user, the row shows exactly the server's record |
| `Leaderboard.PointsIgnoreBuffer` | src/components/Leaderboard.tsx:77-79 | Points is the same under any edit buffer |
| `Leaderboard.PointsLagPendingEdit` | src/components/Leaderboard.tsx:46-78 | while a kill edit that differs from the server's kill count is pending and nothing is buffered for deaths, Points is not the displayed kills minus the displayed deaths |
| `Leaderboard.LabelRoundTrip` | src/components/Leaderboard.tsx:126 | a label splits back into its rank and the whole username, spaces in the name included |
| `Leaderboard.ChartLabels` | src/components/Leaderboard.tsx:126 | one label per top user, the i-th being rank i+1, a space, and that user's username, and reading back as that pair |
| `Leaderboard.ChartData` | src/components/Leaderboard.tsx:130-133 | one bar per top user, each the server's kills minus deaths of that user |
| `Leaderboard.ChartBarsMatchPoints` | src/components/Leaderboard.tsx:130-133 | a chart bar equals the Points cell of the same record, whatever is buffered |
| `Leaderboard.SingleUserChart` | src/components/Leaderboard.tsx:125-133 | one top user with 10 kills and 2 deaths gives the label "1 a" and the bar 8 |
| `Leaderboard.BlurRequest` | src/components/Leaderboard.tsx:106-115 | a blur sends a request exactly when a value is buffered for the cell, and that request carries the user id, the stat's field name and the buffered value |
| `Leaderboard.Refetched` | src/hooks/UseFetchUsers.ts:9-29 | a fetch replaces the list with the server's on success and keeps it on failure |
| `Leaderboard.LeaderboardState.HandleBlur` | src/components/Leaderboard.tsx:105-122 | sends the blur request of the old buffer; with nothing buffered or a failed PUT no state changes; after a successful PUT both lists are refetched, each replaced or kept by its own fetch's outcome (the full list first, in the body); the buffer is never changed |
| `Leaderboard.EditThenBlurSubmitsValue` | src/components/Leaderboard.tsx:95-115 | editing a cell and blurring it submits exactly the typed value for that cell |
| `Leaderboard.RequestsForDifferentStatsDiffer` | src/components/Leaderboard.tsx:109-115 | the requests sent for a user's two stats differ, so each names its cell |
| `Leaderboard.KillCountEditExample` | src/components/Leaderboard.tsx:95-115 | typing 15 into user 1's kill count and blurring sends user 1, "kill_count", 15 |
| `Leaderboard.SubmittedValueStaysShown` | src/components/Leaderboard.tsx:105-122 | after a submission the cell still shows the submitted value whatever the server returns, since the buffer is not cleared |

## Left out

- HTTP: the `axios` calls, the base URL from `REACT_APP_API_BASE_URL` and the
  `?top=3` query are replaced by the `ServerOutcome` parameter; ranking is done
  by the server and is not client behaviour.
- Asynchrony: `handleBlur` reads `editedStats` from the render it was created
  in, and overlapping fetches or blur submissions may complete in any order;
  the model runs each step to completion, one at a time. The mount-time fetch
  of `src/hooks/UseFetchUsers.ts` is not modelled.
- `parseInt` yielding `NaN` on empty or non-numeric input: JavaScript number
  semantics; buffered and server values are unbounded integers.
- Rendering and logging: MUI components, the avatar, Chart.js registration and
  colours, headings and `console.error`.
