/** The selection behind `GET /logs` in server.js: the players with a log whose
    dataloss status matches the `dataloss` query flag, newest log first. */
module Listing {
  import opened Engine

  /** One row of the listing page. */
  datatype Entry = Entry(name: string, time: int, hasDataloss: bool)

  /** The row the page shows for a player who has a log. */
  function EntryFor(s: Store, p: string): Entry
    requires p in s.logs
  {
    Entry(p, s.logs[p].mtime, p in s.datalossLogs)
  }

  /** The players listed for a given value of the `dataloss` flag. */
  function Selected(s: Store, showDataloss: bool): set<string>
  {
    set p | p in s.logs && (p in s.datalossLogs) == showDataloss
  }

  /** Ordered as `(a, b) => b.time - a.time` orders: never older before newer. */
  predicate NewestFirst(es: seq<Entry>)
  {
    forall i, j :: 0 <= i < j < |es| ==> es[i].time >= es[j].time
  }

  /** Putting an entry at least as new as the head in front keeps the order. */
  lemma NewestFirstCons(x: Entry, es: seq<Entry>)
    requires NewestFirst(es)
    requires |es| == 0 || x.time >= es[0].time
    ensures NewestFirst([x] + es)
  {
    var r := [x] + es;
    forall i, j | 0 <= i < j < |r|
      ensures r[i].time >= r[j].time
    {
      if i > 0 {
        assert r[i] == es[i - 1] && r[j] == es[j - 1];
      } else {
        assert r[j] == es[j - 1];
      }
    }
  }

  /** Places `e` after every entry at least as new, keeping the order of the rest. */
  function InsertByTime(es: seq<Entry>, e: Entry): (r: seq<Entry>)
    requires NewestFirst(es)
    ensures NewestFirst(r)
    ensures multiset(r) == multiset(es) + multiset{e}
    ensures r[0] == e || (|es| > 0 && r[0] == es[0])
  {
    if |es| == 0 then [e]
    else if es[0].time >= e.time then
      assert es == [es[0]] + es[1..];
      var rest := InsertByTime(es[1..], e);
      NewestFirstCons(es[0], rest);
      [es[0]] + rest
    else
      NewestFirstCons(e, es);
      [e] + es
  }

  /** Sorts newest first, as the comparator `(a, b) => b.time - a.time` in server.js does. */
  function SortNewestFirst(es: seq<Entry>): (r: seq<Entry>)
    ensures NewestFirst(r)
    ensures multiset(r) == multiset(es)
  {
    if |es| == 0 then []
    else
      assert es == es[..|es| - 1] + [es[|es| - 1]];
      InsertByTime(SortNewestFirst(es[..|es| - 1]), es[|es| - 1])
  }

  /** The filtering half of the handler: walk the player log files in
      directory order and keep the ones whose dataloss status matches the flag. */
  method CollectEntries(s: Store, showDataloss: bool) returns (logEntries: seq<Entry>)
    ensures forall e :: e in logEntries ==>
              e.name in Selected(s, showDataloss) && e == EntryFor(s, e.name)
    ensures forall p :: p in Selected(s, showDataloss) ==> EntryFor(s, p) in logEntries
    ensures |logEntries| == |Selected(s, showDataloss)|
  {
    logEntries := [];
    ghost var listed: set<string> := {};
    var files := s.logs.Keys;
    while files != {}
      invariant files <= s.logs.Keys
      invariant forall p :: p in listed <==> p in s.logs && p !in files && (p in s.datalossLogs) == showDataloss
      invariant |logEntries| == |listed|
      invariant forall e :: e in logEntries ==> e.name in listed && e == EntryFor(s, e.name)
      invariant forall p :: p in listed ==> EntryFor(s, p) in logEntries
      decreases files
    {
      var playerName :| playerName in files;
      var hasDataloss := playerName in s.datalossLogs;
      if hasDataloss == showDataloss {
        assert playerName !in listed;
        logEntries := logEntries + [Entry(playerName, s.logs[playerName].mtime, hasDataloss)];
        listed := listed + {playerName};
      }
      files := files - {playerName};
    }
    assert listed == Selected(s, showDataloss);
  }

  /** A sequence and a permutation of it hold the same elements. */
  lemma PermutationKeepsElements(a: seq<Entry>, b: seq<Entry>)
    requires multiset(a) == multiset(b)
    ensures |a| == |b|
    ensures forall e :: e in a <==> e in b
  {
    assert |a| == |multiset(a)| == |multiset(b)| == |b|;
    forall e ensures e in a <==> e in b {
      assert e in a <==> e in multiset(a);
      assert e in b <==> e in multiset(b);
    }
  }

  /** `GET /logs`: the matching players' rows, newest first. */
  method ListLogs(s: Store, showDataloss: bool) returns (sorted: seq<Entry>)
    ensures NewestFirst(sorted)
    ensures forall i :: 0 <= i < |sorted| ==>
              sorted[i].name in Selected(s, showDataloss)
              && sorted[i] == EntryFor(s, sorted[i].name)
              && sorted[i].hasDataloss == showDataloss
    ensures forall p :: p in Selected(s, showDataloss) ==> EntryFor(s, p) in sorted
    ensures |sorted| == |Selected(s, showDataloss)|
  {
    var logEntries := CollectEntries(s, showDataloss);
    sorted := SortNewestFirst(logEntries);
    PermutationKeepsElements(sorted, logEntries);
  }

  /** Under the invariant, the dataloss view lists exactly the players with an
      open incident. */
  lemma DatalossViewIsIncidents(s: Store)
    requires Consistent(s)
    ensures Selected(s, true) == s.datalossLogs.Keys
  {
  }

  /** The two views split the players with a log between them. */
  lemma ViewsPartitionPlayers(s: Store)
    ensures Selected(s, true) * Selected(s, false) == {}
    ensures Selected(s, true) + Selected(s, false) == s.logs.Keys
  {
  }
}
