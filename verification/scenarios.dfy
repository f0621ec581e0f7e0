/** Concrete request sequences run through the engine, each stating the outcome
    of every step and the records it leaves behind. */
module Scenarios {
  import opened Detector
  import opened Engine

  function Alice(gold: int): Snapshot
  {
    Snapshot(map["gold" := gold], map["sword1" := 2])
  }

  /** A player whose gold climbs, drops, partly returns and then fully returns:
      created, updated, dataloss opened, dataloss kept as first recorded,
      recovered. */
  lemma AliceLosesAndRecovers()
    ensures var r1 := Submit(Empty, "alice", Alice(100), 1);
            var r2 := Submit(r1.store, "alice", Alice(150), 2);
            var r3 := Submit(r2.store, "alice", Alice(50), 3);
            var r4 := Submit(r3.store, "alice", Alice(90), 4);
            var r5 := Submit(r4.store, "alice", Alice(150), 5);
            && r1.outcome == NewLogCreated
            && r2.outcome == LogUpdated
            && r3.outcome == DatalossDetected
            && r3.store.datalossLogs["alice"] == DatalossLog(Alice(150), Alice(50))
            && r3.store.logs["alice"] == PlayerLog(Alice(150), 2)
            && r4.outcome == DatalossDetected
            && r4.store == r3.store
            && r5.outcome == Recovered
            && r5.store == Store(map["alice" := PlayerLog(Alice(150), 5)], map[])
  {
    var r1 := Submit(Empty, "alice", Alice(100), 1);
    var r2 := Submit(r1.store, "alice", Alice(150), 2);
    assert !DetectDataloss(Alice(100), Alice(150)) by {
      DatalossIffNotCovered(Alice(100), Alice(150));
    }
    var r3 := Submit(r2.store, "alice", Alice(50), 3);
    assert StatRegressed(Alice(150), Alice(50), "gold");
    var r4 := Submit(r3.store, "alice", Alice(90), 4);
    assert StatRegressed(Alice(150), Alice(90), "gold");
    var r5 := Submit(r4.store, "alice", Alice(150), 5);
    NoSelfDataloss(Alice(150));
    assert r5.store.logs == map["alice" := PlayerLog(Alice(150), 5)];
  }

  /** A sword that was never held cannot regress: resubmitting a zero count is a
      plain update. */
  lemma ZeroSwordNeverRegresses()
    ensures var bob := Snapshot(map[], map["sword1" := 0]);
            var r1 := Submit(Empty, "bob", bob, 1);
            var r2 := Submit(r1.store, "bob", bob, 2);
            r1.outcome == NewLogCreated && r2.outcome == LogUpdated && r2.store.datalossLogs == map[]
  {
    var bob := Snapshot(map[], map["sword1" := 0]);
    NoSelfDataloss(bob);
  }

  /** Because an omitted stat is never flagged, a submission that leaves a stat
      out becomes the baseline and the stat's earlier value is forgotten: a
      later drop below it goes through as a plain update. */
  lemma OmittedStatIsForgotten()
    ensures var r1 := Submit(Empty, "carol", Snapshot(map["gold" := 100], map[]), 1);
            var r2 := Submit(r1.store, "carol", Snapshot(map[], map[]), 2);
            var r3 := Submit(r2.store, "carol", Snapshot(map["gold" := 50], map[]), 3);
            && r2.outcome == LogUpdated
            && r3.outcome == LogUpdated
            && r3.store.datalossLogs == map[]
            && DetectDataloss(Snapshot(map["gold" := 100], map[]), Snapshot(map["gold" := 50], map[]))
  {
    var gold100 := Snapshot(map["gold" := 100], map[]);
    var none := Snapshot(map[], map[]);
    var gold50 := Snapshot(map["gold" := 50], map[]);
    OmittedStatNeverFlags(gold100, none, "gold");
    assert gold100.(stats := gold100.stats - {"gold"}).stats == map[];
    assert StatRegressed(gold100, gold50, "gold");
  }
}
