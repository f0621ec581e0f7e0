/** The regression ("dataloss") rule of server.js: an asymmetric comparison of
    a player's previous snapshot with a newly submitted one. */
module Detector {
  import opened Wrappers

  /** One submitted progress record: stat name to value, sword name to count. */
  datatype Snapshot = Snapshot(stats: map<string, int>, swords: map<string, int>)

  /** The stat rule. `detectDataloss` compares `previous > current`; when the stat is
      missing from the current snapshot that comparison is against `undefined`,
      which is false, so an omitted stat is never a regression. */
  predicate StatRegressed(prev: Snapshot, cur: Snapshot, stat: string)
  {
    && stat in prev.stats
    && match Get(cur.stats, stat)
       case Some(v) => prev.stats[stat] > v
       case None => false
  }

  /** The sword rule: only a sword that was held (positive count) can regress,
      and a sword missing from the current snapshot counts as 0. */
  predicate SwordRegressed(prev: Snapshot, cur: Snapshot, sword: string)
  {
    && sword in prev.swords
    && prev.swords[sword] > 0
    && Get(cur.swords, sword).GetOr(0) < prev.swords[sword]
  }

  /** The stats `detectDataloss` logs as mismatched. */
  function RegressedStats(prev: Snapshot, cur: Snapshot): set<string>
  {
    set stat | stat in prev.stats && StatRegressed(prev, cur, stat)
  }

  /** The swords `detectDataloss` logs as mismatched. */
  function RegressedSwords(prev: Snapshot, cur: Snapshot): set<string>
  {
    set sword | sword in prev.swords && SwordRegressed(prev, cur, sword)
  }

  /** `detectDataloss(existingLog, currentLog)`: some stat or some sword regressed. */
  predicate DetectDataloss(prev: Snapshot, cur: Snapshot)
  {
    || (exists stat :: stat in prev.stats && StatRegressed(prev, cur, stat))
    || (exists sword :: sword in prev.swords && SwordRegressed(prev, cur, sword))
  }

  /** An independent statement of "no progress was lost": every stat present in
      both snapshots did not go down, and every held sword is still there with
      at least its previous count. */
  predicate Covers(prev: Snapshot, cur: Snapshot)
  {
    && (forall stat :: stat in prev.stats && stat in cur.stats ==> prev.stats[stat] <= cur.stats[stat])
    && (forall sword :: sword in prev.swords && prev.swords[sword] > 0 ==>
          sword in cur.swords && prev.swords[sword] <= cur.swords[sword])
  }

  /** The two loops of `detectDataloss`, walking the previous snapshot's keys in
      some order and collecting the keys they log as mismatches. */
  method ScanForDataloss(prev: Snapshot, cur: Snapshot)
    returns (dataloss: bool, statMismatches: set<string>, swordMismatches: set<string>)
    ensures dataloss <==> DetectDataloss(prev, cur)
    ensures statMismatches == RegressedStats(prev, cur)
    ensures swordMismatches == RegressedSwords(prev, cur)
  {
    dataloss := false;
    statMismatches := {};
    var pending := prev.stats.Keys;
    while pending != {}
      invariant pending <= prev.stats.Keys
      invariant statMismatches == RegressedStats(prev, cur) - pending
      invariant dataloss <==> statMismatches != {}
      decreases pending
    {
      var stat :| stat in pending;
      if stat in cur.stats && prev.stats[stat] > cur.stats[stat] {
        dataloss := true;
        statMismatches := statMismatches + {stat};
      }
      pending := pending - {stat};
    }

    swordMismatches := {};
    pending := prev.swords.Keys;
    while pending != {}
      invariant pending <= prev.swords.Keys
      invariant statMismatches == RegressedStats(prev, cur)
      invariant swordMismatches == RegressedSwords(prev, cur) - pending
      invariant dataloss <==> statMismatches != {} || swordMismatches != {}
      decreases pending
    {
      var sword :| sword in pending;
      var prevSwordValue := prev.swords[sword];
      var currSwordValue := if sword in cur.swords then cur.swords[sword] else 0;
      if prevSwordValue > 0 && currSwordValue < prevSwordValue {
        dataloss := true;
        swordMismatches := swordMismatches + {sword};
      }
      pending := pending - {sword};
    }
    DatalossIffMismatches(prev, cur);
  }

  /** Dataloss is reported exactly when some stat or sword was flagged. */
  lemma DatalossIffMismatches(prev: Snapshot, cur: Snapshot)
    ensures DetectDataloss(prev, cur) <==> RegressedStats(prev, cur) != {} || RegressedSwords(prev, cur) != {}
  {
    if DetectDataloss(prev, cur) {
      if stat :| stat in prev.stats && StatRegressed(prev, cur, stat) {
        assert stat in RegressedStats(prev, cur);
      } else {
        var sword :| sword in prev.swords && SwordRegressed(prev, cur, sword);
        assert sword in RegressedSwords(prev, cur);
      }
    }
  }

  /** Dataloss is exactly the failure of `Covers`: both directions of the rule. */
  lemma DatalossIffNotCovered(prev: Snapshot, cur: Snapshot)
    ensures DetectDataloss(prev, cur) <==> !Covers(prev, cur)
  {
    if !Covers(prev, cur) {
      if stat :| stat in prev.stats && stat in cur.stats && prev.stats[stat] > cur.stats[stat] {
        assert StatRegressed(prev, cur, stat);
      } else {
        var sword :| sword in prev.swords && prev.swords[sword] > 0
          && !(sword in cur.swords && prev.swords[sword] <= cur.swords[sword]);
        assert SwordRegressed(prev, cur, sword);
      }
    }
  }

  /** Monotonicity: a submission that keeps every stat and every held sword at
      or above its previous value is never a regression. */
  lemma NoDatalossWhenProgressKept(prev: Snapshot, cur: Snapshot)
    requires forall stat :: stat in prev.stats && stat in cur.stats ==> cur.stats[stat] >= prev.stats[stat]
    requires forall sword :: sword in prev.swords && prev.swords[sword] > 0 ==>
               sword in cur.swords && cur.swords[sword] >= prev.swords[sword]
    ensures !DetectDataloss(prev, cur)
  {
    DatalossIffNotCovered(prev, cur);
  }

  /** Reflexivity: both comparisons are strict, so a snapshot never regresses
      against itself. */
  lemma NoSelfDataloss(s: Snapshot)
    ensures !DetectDataloss(s, s)
    ensures RegressedStats(s, s) == {} && RegressedSwords(s, s) == {}
  {
    NoDatalossWhenProgressKept(s, s);
    DatalossIffMismatches(s, s);
  }

  /** Only keys of the previous snapshot are examined: whatever value a stat or
      sword unknown to the previous snapshot takes now, the verdict is the same. */
  lemma UnknownKeysIgnored(prev: Snapshot, cur: Snapshot, key: string, v: int)
    ensures key !in prev.stats ==>
              (DetectDataloss(prev, cur.(stats := cur.stats[key := v])) <==> DetectDataloss(prev, cur))
    ensures key !in prev.swords ==>
              (DetectDataloss(prev, cur.(swords := cur.swords[key := v])) <==> DetectDataloss(prev, cur))
  {
    if key !in prev.stats {
      var cur' := cur.(stats := cur.stats[key := v]);
      forall stat | stat in prev.stats
        ensures StatRegressed(prev, cur', stat) <==> StatRegressed(prev, cur, stat)
      {
        assert stat != key;
      }
      assert forall sword :: SwordRegressed(prev, cur', sword) <==> SwordRegressed(prev, cur, sword);
    }
    if key !in prev.swords {
      var cur' := cur.(swords := cur.swords[key := v]);
      forall sword | sword in prev.swords
        ensures SwordRegressed(prev, cur', sword) <==> SwordRegressed(prev, cur, sword)
      {
        assert sword != key;
      }
      assert forall stat :: StatRegressed(prev, cur', stat) <==> StatRegressed(prev, cur, stat);
    }
  }

  /** A stat missing from the current snapshot is never flagged, whatever its
      previous value; removing it from the submission never creates dataloss. */
  lemma OmittedStatNeverFlags(prev: Snapshot, cur: Snapshot, stat: string)
    requires stat !in cur.stats
    ensures stat !in RegressedStats(prev, cur)
    ensures DetectDataloss(prev, cur) <==> DetectDataloss(prev.(stats := prev.stats - {stat}), cur)
  {
    var prev' := prev.(stats := prev.stats - {stat});
    assert forall s :: StatRegressed(prev', cur, s) <==> StatRegressed(prev, cur, s);
    assert forall w :: SwordRegressed(prev', cur, w) <==> SwordRegressed(prev, cur, w);
  }

  /** A sword whose previous count is not positive is never flagged. */
  lemma UnheldSwordNeverFlags(prev: Snapshot, cur: Snapshot, sword: string)
    requires sword in prev.swords && prev.swords[sword] <= 0
    ensures sword !in RegressedSwords(prev, cur)
  {
  }

  /** A held sword that disappears from the current snapshot is a regression,
      because the missing count is read as 0. */
  lemma LostHeldSwordFlags(prev: Snapshot, cur: Snapshot, sword: string)
    requires sword in prev.swords && prev.swords[sword] > 0
    requires sword !in cur.swords
    ensures sword in RegressedSwords(prev, cur)
    ensures DetectDataloss(prev, cur)
  {
    assert SwordRegressed(prev, cur, sword);
  }
}
