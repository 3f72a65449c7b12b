/** Pruning by rank (src/app/retention.py). A table of runs is the sequence of its
    rows; run ids are numbers, and where two runs of a feed started together the lower
    id ranks first. */
module Retention {

  datatype State = Running | Completed | Failed

  /** A pull run. Signal and risk runs have no endpoint; theirs is empty. */
  datatype Run = Run(id: nat, endpoint: string, state: State, startedAt: int)

  /** The unique key of a staged page, and of any snapshot row. */
  datatype Key = Key(runId: nat, natural: string)

  type Table = map<Key, string>

  ghost predicate IdsDistinct(runs: seq<Run>) {
    forall i, j | 0 <= i < j < |runs| :: runs[i].id != runs[j].id
  }

  /** ORDER BY started_at DESC, a tie going to the lower id. */
  predicate Outranks(a: Run, b: Run) {
    a.startedAt > b.startedAt || (a.startedAt == b.startedAt && a.id < b.id)
  }

  // ----- The two queries -----

  function Ahead(runs: seq<Run>, r: Run): set<Run> {
    set o | o in runs && o.state == Completed && o.endpoint == r.endpoint && Outranks(o, r)
  }

  /** row_number() over the completed runs of the endpoint. */
  function Position(runs: seq<Run>, r: Run): nat { |Ahead(runs, r)| + 1 }

  predicate OlderCompleted(runs: seq<Run>, r: Run, keep: int) {
    r.state == Completed && Position(runs, r) > keep
  }

  predicate OlderFailed(runs: seq<Run>, r: Run) {
    r.state == Failed && exists c | c in runs ::
      c.state == Completed && c.endpoint == r.endpoint && Position(runs, c) == 1 && r.startedAt < c.startedAt
  }

  function StalePullRunIds(runs: seq<Run>, keep: int): set<nat> {
    set r | r in runs && (OlderCompleted(runs, r, keep) || OlderFailed(runs, r)) :: r.id
  }

  function InsertRun(r: Run, ordered: seq<Run>): seq<Run> {
    if ordered == [] || Outranks(r, ordered[0]) then [r] + ordered
    else [ordered[0]] + InsertRun(r, ordered[1..])
  }

  /** The completed runs, newest first. */
  function Ordered(runs: seq<Run>): seq<Run> {
    if runs == [] then []
    else if runs[0].state == Completed then InsertRun(runs[0], Ordered(runs[1..])) else Ordered(runs[1..])
  }

  function Limit(runs: seq<Run>, keep: nat): seq<Run> {
    if |runs| <= keep then runs else runs[..keep]
  }

  function StaleRunIds(runs: seq<Run>, keep: nat): set<nat> {
    var kept := set r | r in Limit(Ordered(runs), keep) :: r.id;
    set r | r in runs && r.state != Running && r.id !in kept :: r.id
  }

  function Without(rows: Table, ids: set<nat>): Table {
    map k | k in rows && k.runId !in ids :: rows[k]
  }

  /** The tables the pruning reads and deletes from. */
  class Store {
    var pulls: seq<Run>
    var staging: Table
    var signalRuns: seq<Run>
    var signals: Table
    var situations: Table
    var riskRuns: seq<Run>
    var risks: Table

    constructor ()
      ensures pulls == [] && signalRuns == [] && riskRuns == []
      ensures staging == map[] && signals == map[] && situations == map[] && risks == map[]
    {
      pulls, signalRuns, riskRuns := [], [], [];
      staging, signals, situations, risks := map[], map[], map[], map[];
    }

    method PruneRawStaging(keep: int) returns (deleted: int)
      modifies this`staging
      ensures staging == Without(old(staging), StalePullRunIds(pulls, keep))
      ensures deleted == |old(staging)| - |staging|
    {
      var before := |staging|;
      staging := Without(staging, StalePullRunIds(pulls, keep));
      deleted := before - |staging|;
    }

    method PruneSignalSnapshots(keep: nat) returns (deleted: int)
      modifies this`signals, this`situations
      ensures signals == Without(old(signals), StaleRunIds(signalRuns, keep))
      ensures situations == Without(old(situations), StaleRunIds(signalRuns, keep))
      ensures deleted == (|old(signals)| - |signals|) + (|old(situations)| - |situations|)
    {
      var before := |signals| + |situations|;
      signals := Without(signals, StaleRunIds(signalRuns, keep));
      situations := Without(situations, StaleRunIds(signalRuns, keep));
      deleted := before - |signals| - |situations|;
    }

    method PruneRiskSnapshots(keep: nat) returns (deleted: int)
      modifies this`risks
      ensures risks == Without(old(risks), StaleRunIds(riskRuns, keep))
      ensures deleted == |old(risks)| - |risks|
    {
      var before := |risks|;
      risks := Without(risks, StaleRunIds(riskRuns, keep));
      deleted := before - |risks|;
    }
  }

  // ----- What is removed -----

  /** The first of the completed runs of an endpoint is newer than, or the same as, any
      other. */
  lemma {:induction false} NewestCompleted(runs: seq<Run>, c: Run) returns (best: Run)
    requires IdsDistinct(runs) && c in runs && c.state == Completed
    ensures best in runs && best.state == Completed && best.endpoint == c.endpoint
    ensures Position(runs, best) == 1 && best.startedAt >= c.startedAt
    decreases Ahead(runs, c)
  {
    if Ahead(runs, c) == {} {
      best := c;
    } else {
      var o :| o in Ahead(runs, c);
      assert Ahead(runs, o) < Ahead(runs, c) by {
        assert o !in Ahead(runs, o);
      }
      best := NewestCompleted(runs, o);
    }
  }

  /** The `keep` newest completed runs of each endpoint stay, the lower id counting as the
      newer of two started together; of the failed ones exactly those older than some
      completed run of theirs go. */
  lemma StaleExactly(runs: seq<Run>, keep: int, r: Run)
    requires IdsDistinct(runs) && r in runs
    ensures r.id in StalePullRunIds(runs, keep) <==>
      match r.state
      case Running => false
      case Completed =>
        |set o | o in runs && o.state == Completed && o.endpoint == r.endpoint
                 && (o.startedAt > r.startedAt || (o.startedAt == r.startedAt && o.id < r.id))| >= keep
      case Failed =>
        exists o | o in runs :: o.state == Completed && o.endpoint == r.endpoint && o.startedAt > r.startedAt
  {
    assert Ahead(runs, r)
        == set o | o in runs && o.state == Completed && o.endpoint == r.endpoint
                   && (o.startedAt > r.startedAt || (o.startedAt == r.startedAt && o.id < r.id));
    StaleIs(runs, keep, r);
    OlderFailedIs(runs, r);
  }

  lemma StaleIs(runs: seq<Run>, keep: int, r: Run)
    requires IdsDistinct(runs) && r in runs
    ensures r.id in StalePullRunIds(runs, keep) <==> OlderCompleted(runs, r, keep) || OlderFailed(runs, r)
  {
    if r.id in StalePullRunIds(runs, keep) {
      var o :| o in runs && (OlderCompleted(runs, o, keep) || OlderFailed(runs, o)) && o.id == r.id;
      assert o == r;
    }
  }

  lemma OlderFailedIs(runs: seq<Run>, r: Run)
    requires IdsDistinct(runs)
    ensures OlderFailed(runs, r) <==>
      r.state == Failed && exists o | o in runs ::
        o.state == Completed && o.endpoint == r.endpoint && o.startedAt > r.startedAt
  {
    if r.state == Failed {
      if o :| o in runs && o.state == Completed && o.endpoint == r.endpoint && o.startedAt > r.startedAt {
        var best := NewestCompleted(runs, o);
      }
    }
  }

  function Min(a: int, b: int): (m: int)
    ensures m == a || m == b
    ensures a >= 0 && b >= 0 ==> m >= 0
  {
    if a < b then a else b
  }

  /** Pruning with a and then with b leaves what pruning once with the smaller does. */
  lemma PrunesCompose(runs: seq<Run>, rows: Table, a: int, b: int)
    ensures Without(Without(rows, StalePullRunIds(runs, a)), StalePullRunIds(runs, b))
         == Without(rows, StalePullRunIds(runs, Min(a, b)))
  {
    assert StalePullRunIds(runs, a) + StalePullRunIds(runs, b) == StalePullRunIds(runs, Min(a, b)) by {
      forall r | r in runs
        ensures OlderCompleted(runs, r, Min(a, b)) <==> OlderCompleted(runs, r, a) || OlderCompleted(runs, r, b)
      {
      }
    }
  }

  // ----- Rank against ORDER BY … LIMIT -----

  ghost predicate Descending(s: seq<Run>) {
    forall i, j | 0 <= i < j < |s| :: Outranks(s[i], s[j])
  }

  lemma {:induction false} InsertRunExact(r: Run, s: seq<Run>)
    requires Descending(s) && forall o | o in s :: o.id != r.id
    ensures Descending(InsertRun(r, s))
    ensures forall x :: x in InsertRun(r, s) <==> x == r || x in s
  {
    if s != [] && !Outranks(r, s[0]) {
      var rest := s[1..];
      assert forall i | 0 <= i < |rest| :: rest[i] == s[i + 1];
      assert s[0].id != r.id && Outranks(s[0], r);
      InsertRunExact(r, rest);
      assert forall x :: x in s <==> x == s[0] || x in rest;
      forall x | x in rest ensures Outranks(s[0], x) {
        var i :| 0 <= i < |rest| && rest[i] == x;
        assert s[i + 1] == x;
      }
    }
  }

  lemma {:induction false} OrderedExact(runs: seq<Run>)
    requires IdsDistinct(runs)
    ensures Descending(Ordered(runs))
    ensures forall x :: x in Ordered(runs) <==> x in runs && x.state == Completed
  {
    if runs != [] {
      var rest := runs[1..];
      assert forall i | 0 <= i < |rest| :: rest[i] == runs[i + 1];
      OrderedExact(rest);
      assert forall x :: x in runs <==> x == runs[0] || x in rest;
      if runs[0].state == Completed {
        forall o | o in rest ensures o.id != runs[0].id {
          var i :| 0 <= i < |rest| && rest[i] == o;
          assert runs[i + 1] == o;
        }
        InsertRunExact(runs[0], Ordered(rest));
      }
    }
  }

  function Members(s: seq<Run>): set<Run> { set r | r in s }

  lemma {:induction false} NoneTwice(s: seq<Run>)
    requires Descending(s)
    ensures |Members(s)| == |s|
  {
    if s != [] {
      var rest, last := s[..|s| - 1], s[|s| - 1];
      NoneTwice(rest);
      assert s == rest + [last];
      assert Members(s) == Members(rest) + {last};
      assert last !in Members(rest);
    }
  }

  lemma RankInOrder(s: seq<Run>, k: nat)
    requires Descending(s) && k < |s|
    ensures |set o | o in s && Outranks(o, s[k])| == k
  {
    NoneTwice(s[..k]);
    var ahead := set o | o in s && Outranks(o, s[k]);
    assert ahead == Members(s[..k]) by {
      forall o | o in ahead ensures o in s[..k] {
        var i :| 0 <= i < |s| && s[i] == o;
        assert i < k;
      }
    }
  }

  /** For runs of one feed, a completed run is within the first `keep` of the ordered
      query exactly when its row number is at most `keep`. */
  lemma RankIsTopK(runs: seq<Run>, keep: nat, r: Run)
    requires IdsDistinct(runs) && r in runs && r.state == Completed
    requires forall o | o in runs :: o.endpoint == r.endpoint
    ensures r in Limit(Ordered(runs), keep) <==> Position(runs, r) <= keep
  {
    var s := Ordered(runs);
    OrderedExact(runs);
    var k :| 0 <= k < |s| && s[k] == r;
    RankInOrder(s, k);
    assert Ahead(runs, r) == set o | o in s && Outranks(o, s[k]);
    if r in Limit(s, keep) {
      var i :| 0 <= i < |Limit(s, keep)| && Limit(s, keep)[i] == r;
      assert s[i] == s[k];
    }
    if k < keep {
      assert Limit(s, keep)[k] == r;
    }
  }

  lemma StaleRunIs(runs: seq<Run>, keep: nat, r: Run)
    requires IdsDistinct(runs) && r in runs
    ensures r.id in StaleRunIds(runs, keep) <==>
              r.state == Failed || (r.state == Completed && r !in Limit(Ordered(runs), keep))
  {
    OrderedExact(runs);
    var kept := set o | o in Limit(Ordered(runs), keep) :: o.id;
    forall o | o in runs ensures o.id in kept <==> o in Limit(Ordered(runs), keep) {
      if o.id in kept {
        var x :| x in Limit(Ordered(runs), keep) && x.id == o.id;
        assert x in Ordered(runs);
        assert x in runs;
      }
      if o in Limit(Ordered(runs), keep) {
        assert o in Ordered(runs);
      }
    }
  }

  /** So on one feed's completed runs the two prunings make the same choice; they part
      on failed runs, which the snapshot pruning always drops. */
  lemma BothFormsAgree(runs: seq<Run>, keep: nat, r: Run)
    requires IdsDistinct(runs) && r in runs
    requires forall o | o in runs :: o.endpoint == r.endpoint
    ensures r.state == Completed ==> (r.id in StaleRunIds(runs, keep) <==> r.id in StalePullRunIds(runs, keep))
    ensures r.state == Failed ==> r.id in StaleRunIds(runs, keep)
    ensures r.state == Running ==> r.id !in StaleRunIds(runs, keep) && r.id !in StalePullRunIds(runs, keep)
  {
    StaleIs(runs, keep, r);
    StaleRunIs(runs, keep, r);
    if r.state == Completed {
      RankIsTopK(runs, keep, r);
    }
  }

  /** Of the snapshot runs, all of one feed, exactly the failed ones and the completed ones
      with `keep` newer completed ones go. */
  lemma SnapshotStaleExactly(runs: seq<Run>, keep: nat, r: Run)
    requires IdsDistinct(runs) && r in runs
    requires forall o | o in runs :: o.endpoint == r.endpoint
    ensures r.id in StaleRunIds(runs, keep) <==>
      match r.state
      case Running => false
      case Completed =>
        |set o | o in runs && o.state == Completed
                 && (o.startedAt > r.startedAt || (o.startedAt == r.startedAt && o.id < r.id))| >= keep
      case Failed => true
  {
    BothFormsAgree(runs, keep, r);
    StaleExactly(runs, keep, r);
    assert (set o | o in runs && o.state == Completed
                    && (o.startedAt > r.startedAt || (o.startedAt == r.startedAt && o.id < r.id)))
        == set o | o in runs && o.state == Completed && o.endpoint == r.endpoint
                   && (o.startedAt > r.startedAt || (o.startedAt == r.startedAt && o.id < r.id));
  }

  lemma LimitNests(s: seq<Run>, a: nat, b: nat, r: Run)
    requires Descending(s)
    ensures r in Limit(s, Min(a, b)) <==> r in Limit(s, a) && r in Limit(s, b)
  {
    if r in Limit(s, a) && r in Limit(s, b) {
      var i :| 0 <= i < |Limit(s, a)| && Limit(s, a)[i] == r;
      var j :| 0 <= j < |Limit(s, b)| && Limit(s, b)[j] == r;
      assert s[i] == s[j];
      assert Limit(s, Min(a, b))[i] == r;
    }
    if r in Limit(s, Min(a, b)) {
      var i :| 0 <= i < |Limit(s, Min(a, b))| && Limit(s, Min(a, b))[i] == r;
      assert Limit(s, a)[i] == r && Limit(s, b)[i] == r;
    }
  }

  /** The snapshot prunings compose the same way. */
  lemma SnapshotPrunesCompose(runs: seq<Run>, rows: Table, a: nat, b: nat)
    requires IdsDistinct(runs)
    ensures Without(Without(rows, StaleRunIds(runs, a)), StaleRunIds(runs, b))
         == Without(rows, StaleRunIds(runs, Min(a, b)))
  {
    OrderedExact(runs);
    forall r | r in runs
      ensures r.id in StaleRunIds(runs, Min(a, b)) <==> r.id in StaleRunIds(runs, a) || r.id in StaleRunIds(runs, b)
    {
      StaleRunIs(runs, a, r);
      StaleRunIs(runs, b, r);
      StaleRunIs(runs, Min(a, b), r);
      LimitNests(Ordered(runs), a, b, r);
    }
    assert StaleRunIds(runs, a) + StaleRunIds(runs, b) == StaleRunIds(runs, Min(a, b));
  }
}
