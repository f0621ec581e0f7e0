/** The per-player state machine behind `POST /log` and `DELETE /logs/:playerName`
    in server.js. Each player has at most two records: the player log (the
    baseline) and the dataloss log (the open incident). */
module Engine {
  import opened Wrappers
  import opened Detector

  /** A stored player log: the last accepted snapshot and the time it was written. */
  datatype PlayerLog = PlayerLog(data: Snapshot, mtime: int)

  /** A stored dataloss log: the baseline in force when the loss was first seen,
      and the submission that showed it. */
  datatype DatalossLog = DatalossLog(previousData: Snapshot, currentData: Snapshot)

  /** All records, keyed by player name: one map per kind of log file. */
  datatype Store = Store(logs: map<string, PlayerLog>, datalossLogs: map<string, DatalossLog>)

  /** What `POST /log` answers. */
  datatype Outcome = NewLogCreated | LogUpdated | DatalossDetected | Recovered

  datatype Response = Response(store: Store, outcome: Outcome)

  const Empty: Store := Store(map[], map[])

  /** The invariant: an open incident sits on top of a baseline, and that
      baseline is exactly the incident's `previousData`. */
  predicate Consistent(s: Store)
  {
    forall p :: p in s.datalossLogs ==> p in s.logs && s.logs[p].data == s.datalossLogs[p].previousData
  }

  /** Player `p` has the same records in `a` and in `b`. */
  predicate SameRecords(a: Store, b: Store, p: string)
  {
    Get(a.logs, p) == Get(b.logs, p) && Get(a.datalossLogs, p) == Get(b.datalossLogs, p)
  }

  /** `POST /log` for player `name` submitting `sub` at time `now`. */
  function Submit(s: Store, name: string, sub: Snapshot, now: int): (r: Response)
    ensures Consistent(s) ==> Consistent(r.store)
    ensures forall p :: p != name ==> SameRecords(s, r.store, p)
  {
    match Get(s.logs, name)
    case None =>
      Response(s.(logs := s.logs[name := PlayerLog(sub, now)]), NewLogCreated)
    case Some(existing) =>
      if DetectDataloss(existing.data, sub) then
        var incidents :=
          if name in s.datalossLogs then s.datalossLogs
          else s.datalossLogs[name := DatalossLog(existing.data, sub)];
        Response(s.(datalossLogs := incidents), DatalossDetected)
      else if name in s.datalossLogs && !DetectDataloss(s.datalossLogs[name].previousData, sub) then
        Response(Store(s.logs[name := PlayerLog(sub, now)], s.datalossLogs - {name}), Recovered)
      else
        Response(s.(logs := s.logs[name := PlayerLog(sub, now)]), LogUpdated)
  }

  /** `DELETE /logs/:playerName`: both files go, whichever of them exist. */
  function Delete(s: Store, name: string): (r: Store)
    ensures name !in r.logs && name !in r.datalossLogs
    ensures forall p :: p != name ==> SameRecords(s, r, p)
    ensures Consistent(s) ==> Consistent(r)
  {
    Store(s.logs - {name}, s.datalossLogs - {name})
  }

  /** The first submission for a player is stored as the baseline as it is,
      and any incident record is left alone. */
  lemma SubmitWithoutBaseline(s: Store, name: string, sub: Snapshot, now: int)
    requires name !in s.logs
    ensures Submit(s, name, sub, now).outcome == NewLogCreated
    ensures Submit(s, name, sub, now).store == s.(logs := s.logs[name := PlayerLog(sub, now)])
  {
  }

  /** A regressing submission never moves the baseline; it opens an incident
      pinned to that baseline only if none is open, and an open incident is kept
      exactly as first recorded. */
  lemma SubmitRegression(s: Store, name: string, sub: Snapshot, now: int)
    requires name in s.logs && DetectDataloss(s.logs[name].data, sub)
    ensures Submit(s, name, sub, now).outcome == DatalossDetected
    ensures Submit(s, name, sub, now).store.logs == s.logs
    ensures name in s.datalossLogs ==> Submit(s, name, sub, now).store == s
    ensures name !in s.datalossLogs ==>
              Submit(s, name, sub, now).store.datalossLogs
              == s.datalossLogs[name := DatalossLog(s.logs[name].data, sub)]
  {
  }

  /** A submission that does not regress against the baseline becomes the new
      baseline; the incident is removed exactly when one is open and the
      submission also does not regress against its `previousData`. */
  lemma SubmitAccepted(s: Store, name: string, sub: Snapshot, now: int)
    requires name in s.logs && !DetectDataloss(s.logs[name].data, sub)
    ensures Submit(s, name, sub, now).store.logs == s.logs[name := PlayerLog(sub, now)]
    ensures Submit(s, name, sub, now).outcome == Recovered <==>
              name in s.datalossLogs && !DetectDataloss(s.datalossLogs[name].previousData, sub)
    ensures Submit(s, name, sub, now).outcome == Recovered ==>
              Submit(s, name, sub, now).store.datalossLogs == s.datalossLogs - {name}
    ensures Submit(s, name, sub, now).outcome != Recovered ==>
              Submit(s, name, sub, now).outcome == LogUpdated
              && Submit(s, name, sub, now).store.datalossLogs == s.datalossLogs
  {
  }

  /** While the invariant holds, the plain "Log updated" branch is only taken by
      players with no open incident: with one open, a non-regressing submission
      always recovers. */
  lemma PlainUpdateOnlyWithoutIncident(s: Store, name: string, sub: Snapshot, now: int)
    requires Consistent(s)
    ensures Submit(s, name, sub, now).outcome == LogUpdated ==> name !in s.datalossLogs
    ensures name in s.datalossLogs ==>
              Submit(s, name, sub, now).outcome in {DatalossDetected, Recovered}
  {
  }

  /** The reconciliation written incident-first: with an open incident only its
      frozen baseline is consulted; otherwise the player log is. */
  function SubmitIncidentFirst(s: Store, name: string, sub: Snapshot, now: int): Response
  {
    if name !in s.logs then
      Response(s.(logs := s.logs[name := PlayerLog(sub, now)]), NewLogCreated)
    else if name in s.datalossLogs then
      if DetectDataloss(s.datalossLogs[name].previousData, sub) then Response(s, DatalossDetected)
      else Response(Store(s.logs[name := PlayerLog(sub, now)], s.datalossLogs - {name}), Recovered)
    else if DetectDataloss(s.logs[name].data, sub) then
      Response(s.(datalossLogs := s.datalossLogs[name := DatalossLog(s.logs[name].data, sub)]), DatalossDetected)
    else
      Response(s.(logs := s.logs[name := PlayerLog(sub, now)]), LogUpdated)
  }

  /** Under the invariant, checking the baseline first (as the handler does) and
      checking the open incident first give the same answer and the same store. */
  lemma SubmitMatchesIncidentFirst(s: Store, name: string, sub: Snapshot, now: int)
    requires Consistent(s)
    ensures Submit(s, name, sub, now) == SubmitIncidentFirst(s, name, sub, now)
  {
  }

  /** Resubmitting a snapshot that still regresses against the incident's frozen
      baseline changes nothing at all. */
  lemma StillRegressingChangesNothing(s: Store, name: string, sub: Snapshot, now: int)
    requires Consistent(s)
    requires name in s.datalossLogs && DetectDataloss(s.datalossLogs[name].previousData, sub)
    ensures Submit(s, name, sub, now) == Response(s, DatalossDetected)
  {
  }

  /** Submitting exactly the incident's frozen baseline always recovers, and that
      snapshot becomes the baseline again. */
  lemma RecoverWithPreviousData(s: Store, name: string, now: int)
    requires Consistent(s) && name in s.datalossLogs
    ensures var prev := s.datalossLogs[name].previousData;
            Submit(s, name, prev, now)
            == Response(Store(s.logs[name := PlayerLog(prev, now)], s.datalossLogs - {name}), Recovered)
  {
    NoSelfDataloss(s.datalossLogs[name].previousData);
  }

  /** After a delete the player starts over: the next submission creates a new log. */
  lemma SubmitAfterDelete(s: Store, name: string, sub: Snapshot, now: int)
    ensures Submit(Delete(s, name), name, sub, now).outcome == NewLogCreated
    ensures Submit(Delete(s, name), name, sub, now).store.logs[name] == PlayerLog(sub, now)
    ensures name !in Submit(Delete(s, name), name, sub, now).store.datalossLogs
  {
  }

  /** A request to the two mutating endpoints. */
  datatype Request = Post(name: string, sub: Snapshot, now: int) | Remove(name: string)

  function Step(s: Store, req: Request): (r: Store)
    ensures Consistent(s) ==> Consistent(r)
    ensures forall p :: p != req.name ==> SameRecords(s, r, p)
  {
    match req
    case Post(name, sub, now) => Submit(s, name, sub, now).store
    case Remove(name) => Delete(s, name)
  }

  /** No request in `reqs` is about player `p`. */
  predicate Untouched(reqs: seq<Request>, p: string)
  {
    forall i :: 0 <= i < |reqs| ==> reqs[i].name != p
  }

  /** Requests handled one after another, each to completion. */
  function Run(s: Store, reqs: seq<Request>): (r: Store)
    ensures Consistent(s) ==> Consistent(r)
    ensures forall p :: Untouched(reqs, p) ==> SameRecords(s, r, p)
    decreases |reqs|
  {
    if |reqs| == 0 then s
    else
      assert forall p :: Untouched(reqs, p) ==> reqs[0].name != p && Untouched(reqs[1..], p);
      Run(Step(s, reqs[0]), reqs[1..])
  }

  /** Every store reachable from an empty log directory satisfies the invariant. */
  lemma ReachableConsistent(reqs: seq<Request>)
    ensures Consistent(Run(Empty, reqs))
  {
  }

  /** A request that leaves player `name`'s open incident alone: one for another
      player, or a submission that still regresses against the frozen baseline. */
  predicate KeepsIncident(name: string, prev: Snapshot, req: Request)
  {
    req.name != name || (req.Post? && DetectDataloss(prev, req.sub))
  }

  /** An open incident is pinned: as long as the player's submissions keep
      regressing against its frozen baseline, neither the incident (including
      the first regressed snapshot) nor the baseline changes. */
  lemma {:induction false} IncidentPinned(s: Store, name: string, reqs: seq<Request>)
    requires Consistent(s) && name in s.datalossLogs
    requires forall i :: 0 <= i < |reqs| ==> KeepsIncident(name, s.datalossLogs[name].previousData, reqs[i])
    ensures name in Run(s, reqs).datalossLogs && Run(s, reqs).datalossLogs[name] == s.datalossLogs[name]
    ensures name in Run(s, reqs).logs && Run(s, reqs).logs[name] == s.logs[name]
    decreases |reqs|
  {
    if |reqs| > 0 {
      var s' := Step(s, reqs[0]);
      if reqs[0].name == name {
        StillRegressingChangesNothing(s, name, reqs[0].sub, reqs[0].now);
      } else {
        assert SameRecords(s, s', name);
      }
      assert s'.datalossLogs[name] == s.datalossLogs[name];
      IncidentPinned(s', name, reqs[1..]);
    }
  }
}
