# Dataloss reconciliation for player progress logs

A Dafny model of the decision logic of `server.js`, the log server that keeps
one progress log per player (numeric `stats` and per-sword `swords` counts) and
watches each new submission for lost progress ("dataloss").

- `detector.dfy` (module `Detector`): `detectDataloss`, the asymmetric rule that
  compares a previous snapshot with a new one. A stat regresses when its
  previous value is strictly greater than the current one; a stat missing from
  the current snapshot compares against `undefined` and never regresses. A
  sword regresses only when its previous count was positive and its current
  count, with a missing sword read as 0, is lower. Keys are looked up as the
  snapshot's own entries only (see "## Left out" for inherited property names).
- `engine.dfy` (module `Engine`): the `POST /log` handler as a pure transition
  over two record maps, the player logs (the baseline) and the dataloss logs
  (the open incident, `{previousData, currentData}`), with the four answers
  "new log created", "log updated", "dataloss detected" and "recovered"; the
  administrative `DELETE /logs/:playerName`; and request sequences run one
  after another. The central invariant (`Consistent`): an open incident sits
  on a baseline equal to its `previousData`.
- `listing.dfy` (module `Listing`): the selection behind `GET /logs`: the
  players with a log whose dataloss status matches the `dataloss` flag,
  sorted newest first.
- `scenarios.dfy` (module `Scenarios`): concrete request sequences.
- `wrappers.dfy` (module `Wrappers`): `Option`, standing in for JavaScript's
  `undefined` on a missing key.

Storage is two in-memory maps keyed by player name, one per kind of log file.
A log's modification time is the integer `now` passed with the submission
that wrote it.

Behaviour of the code worth noting:
- A stat missing from the new snapshot never counts as a regression
  (`x > undefined` is false). It is not read as 0. `Scenarios.OmittedStatIsForgotten`
  shows the consequence: a submission that omits a stat becomes the baseline,
  and a later drop of that stat goes through as a plain update.
- The handler first compares against the baseline and only then against the
  open incident's `previousData`. `Engine.SubmitIncidentFirst` consults the
  open incident before the baseline; `Engine.SubmitMatchesIncidentFirst`
  proves it agrees with the handler whenever `Consistent` holds.
- Deleting a player answers success whether or not the player had any
  records. Both files are simply removed if present.

## Model

| member | source | states |
|---|---|---|
| Detector.ScanForDataloss | server.js:15-37 | Walking the previous snapshot's stats and then its swords, the loops report dataloss exactly when `DetectDataloss` holds, and they log exactly the regressed stats and regressed swords |
| Detector.DatalossIffMismatches | server.js:16-36 | The result is true iff the set of flagged stats or the set of flagged swords is non-empty |
| Detector.DatalossIffNotCovered | server.js:19-34 | Dataloss holds iff the new snapshot fails to cover the old one, in both directions. Covering means every stat present in both did not go down, and every held sword is still present with at least its old count |
| Detector.NoDatalossWhenProgressKept | server.js:19-34 | Monotonicity: if no shared stat decreased and every positively held sword is present with at least its old count, there is no dataloss |
| Detector.NoSelfDataloss | server.js:20-30 | Reflexivity: a snapshot never regresses against itself, and no stat or sword is flagged, since both comparisons are strict |
| Detector.UnknownKeysIgnored | server.js:19-28 | Only keys of the previous snapshot are examined. Giving any value to a stat or sword that the previous snapshot lacks leaves the verdict unchanged |
| Detector.OmittedStatNeverFlags | server.js:20 | A stat absent from the current snapshot is never flagged. Dropping it from the previous snapshot does not change the verdict |
| Detector.UnheldSwordNeverFlags | server.js:28-30 | A sword whose previous count is zero or less is never flagged, whatever its current count |
| Detector.LostHeldSwordFlags | server.js:28-31 | A sword held with a positive count and missing from the current snapshot is flagged (read as 0), so dataloss is reported |
| Engine.Submit | server.js:39-88 | A submission preserves the baseline/incident invariant and leaves every other player's records exactly as they were |
| Engine.Delete | server.js:91-112 | After a delete, the player has neither a log nor a dataloss log. Other players are untouched and the invariant is preserved |
| Engine.SubmitWithoutBaseline | server.js:83-87 | With no player log, the submission is stored as the baseline and the answer is "new log created". The dataloss records are unchanged |
| Engine.SubmitRegression | server.js:49-62 | A regressing submission never moves the baseline. It writes `{previousData: baseline, currentData: submission}` only when no incident is open, and otherwise the store is unchanged |
| Engine.SubmitAccepted | server.js:63-82 | A non-regressing submission becomes the baseline. The incident is removed ("recovered") exactly when one is open and the submission does not regress against its `previousData`. Otherwise the answer is "log updated" and the incident stays as it was |
| Engine.PlainUpdateOnlyWithoutIncident | server.js:63-81 | Under the invariant, "log updated" is never answered to a player with an open incident. With an incident open, the answer is always "dataloss detected" or "recovered" |
| Engine.SubmitMatchesIncidentFirst | server.js:47-82 | Under the invariant, the handler's baseline-first order gives the same store and answer as consulting the open incident's frozen baseline first |
| Engine.StillRegressingChangesNothing | server.js:49-62 | With an incident open, a submission that still regresses against its `previousData` leaves the whole store unchanged and answers "dataloss detected" |
| Engine.RecoverWithPreviousData | server.js:65-76 | With an incident open, resubmitting its `previousData` always recovers. The incident is removed and that snapshot becomes the baseline |
| Engine.SubmitAfterDelete | server.js:91-112 | After a delete, the player's next submission creates a new log and leaves no incident open |
| Engine.Step | server.js:39-112 | One request preserves the invariant and touches only its own player's records |
| Engine.Run | server.js:39-112 | A sequence of requests preserves the invariant. Players no request names keep their records |
| Engine.ReachableConsistent | server.js:39-112 | Every store reachable from an empty log directory satisfies the invariant |
| Engine.IncidentPinned | server.js:55-61 | An open incident is never overwritten. As long as the player's submissions keep regressing against its `previousData`, the incident (including the first regressed snapshot) and the baseline stay exactly as first recorded |
| Listing.InsertByTime | server.js:145 | Inserting into a newest-first sequence keeps it newest first and adds exactly the one entry |
| Listing.SortNewestFirst | server.js:145 | The result is a permutation of the input with non-increasing times |
| Listing.CollectEntries | server.js:118-143 | Exactly the players with a log whose dataloss status equals the flag are collected, each once, each with its log's time and status |
| Listing.ListLogs | server.js:114-145 | The listing holds exactly the players whose dataloss status equals `showDataloss`, each once, with its log time, in non-increasing time order |
| Listing.DatalossViewIsIncidents | server.js:116-136 | Under the invariant, the dataloss view lists exactly the players with an open incident |
| Listing.ViewsPartitionPlayers | server.js:129-136 | The two views are disjoint and together cover every player with a log |
| Scenarios.AliceLosesAndRecovers | server.js:39-88 | Gold 100, 150, 50, 90, 150 gives created, updated, dataloss (pinned to 150/50), dataloss (store unchanged) and recovered (baseline 150, no incident) |
| Scenarios.ZeroSwordNeverRegresses | server.js:28-30 | A player whose only sword count is 0 is created and then updated, never flagged |
| Scenarios.OmittedStatIsForgotten | server.js:20 | Omitting a stat lets it be lowered later with no incident, although the direct comparison of the two values is a regression |

## Left out

- HTTP routing, status codes and response strings. Only the four answers of `POST /log` are kept, as `Outcome`.
- File-system calls and the `logs` directory setup. Storage is two maps. The file names `<name>.json` and `<name>-dataloss.json` are not modelled. So the collision between a player named `x-dataloss` and the dataloss log of `x` is not modelled. Neither is the listing's exclusion of such names.
- The `./logger` module (reading and writing logs, restore scripts) is not part of this model. Writes are taken to store exactly what was passed.
- The order in which the directory lists files. `CollectEntries` walks the player names in an unspecified order, and the contracts hold for every order.
- HTML rendering, the per-player page, and the client-side scripts (password prompt, filter, clipboard).
- `console.log` diagnostics. The logged mismatches are modelled as the returned sets.
- JavaScript number semantics: floats, `NaN` and non-numeric values. Values are `int`.
- A submission missing its `stats` or `swords` object. Both maps are always present in the model. In `server.js` such a submission throws only when a baseline exists with at least one stat (or sword). With no baseline it is stored as the new baseline. After that, the key walk over the missing object visits nothing, so that field can never regress.
- Keys are looked up as own entries only. In `server.js` a sword named after an inherited object property (`toString`, `constructor`, `valueOf`, `hasOwnProperty`, `__proto__`) that is missing from the new snapshot reads as that inherited value rather than 0. The comparison with it is false, so no dataloss is reported. The model, `Detector.SwordRegressed` and `Detector.LostHeldSwordFlags` included, reads it as 0 and reports dataloss. Stats are unaffected, since the comparison is false either way.
- The 500 answer of a failed delete, and concurrency (the handler is synchronous).
- Engine.Delete: its result carries no answer because the code answers success whether or not the player existed.
