/** What pruning leaves over whole runs of the pull worker (src/app/retention.py,
    src/app/workers/ingestion.py). `seen` is the history: the last payload captured
    under every key, pruned or not. */
module RetentionRuns {
  import opened Retention

  datatype World = World(runs: seq<Run>, staging: Table, seen: Table)

  datatype Event =
    | Start(id: nat, endpoint: string, at: int)
    | Stage(id: nat, natural: string, payload: string)
    | Complete(id: nat)
    | Fail(id: nat)
    | Resume(id: nat)
    | Prune(keep: int)

  predicate HasRun(runs: seq<Run>, id: nat) { exists i | 0 <= i < |runs| :: runs[i].id == id }

  function InState(runs: seq<Run>, id: nat, state: State): seq<Run> {
    seq(|runs|, i requires 0 <= i < |runs| => if runs[i].id == id then runs[i].(state := state) else runs[i])
  }

  predicate IsRunning(runs: seq<Run>, id: nat) {
    exists i | 0 <= i < |runs| :: runs[i].id == id && runs[i].state == Running
  }

  predicate Unfinished(runs: seq<Run>, id: nat) {
    exists i | 0 <= i < |runs| :: runs[i].id == id && runs[i].state != Completed
  }

  /** A worker's step; one whose run is not in the state it needs changes nothing. */
  function Next(w: World, e: Event): World {
    match e
    case Start(id, endpoint, at) =>
      if HasRun(w.runs, id) then w else w.(runs := w.runs + [Run(id, endpoint, Running, at)])
    case Stage(id, natural, payload) =>
      if IsRunning(w.runs, id) then
        w.(staging := w.staging[Key(id, natural) := payload], seen := w.seen[Key(id, natural) := payload])
      else w
    case Complete(id) => if IsRunning(w.runs, id) then w.(runs := InState(w.runs, id, Completed)) else w
    case Fail(id) => if Unfinished(w.runs, id) then w.(runs := InState(w.runs, id, Failed)) else w
    case Resume(id) => if Unfinished(w.runs, id) then w.(runs := InState(w.runs, id, Running)) else w
    case Prune(keep) => w.(staging := Without(w.staging, StalePullRunIds(w.runs, keep)))
  }

  function RunEvents(w: World, es: seq<Event>): World {
    if es == [] then w else Next(RunEvents(w, es[..|es| - 1]), es[|es| - 1])
  }

  /** Some completed run of its endpoint started later. */
  predicate Outdated(runs: seq<Run>, r: Run) {
    exists i | 0 <= i < |runs| ::
      runs[i].state == Completed && runs[i].endpoint == r.endpoint && runs[i].startedAt > r.startedAt
  }

  /** Running, or first among its endpoint's completed runs, or failed and not outdated. */
  ghost predicate Protected(runs: seq<Run>, r: Run) {
    match r.state
    case Running => true
    case Completed => Ahead(runs, r) == {}
    case Failed => !Outdated(runs, r)
  }

  /** Every page captured for the run is still staged, as last captured. */
  ghost predicate RowsKept(w: World, id: nat) {
    forall k | k in w.seen && k.runId == id :: k in w.staging && w.staging[k] == w.seen[k]
  }

  ghost predicate Kept(w: World) {
    && IdsDistinct(w.runs)
    && (forall k | k in w.seen :: HasRun(w.runs, k.runId))
    && forall i | 0 <= i < |w.runs| && Protected(w.runs, w.runs[i]) :: RowsKept(w, w.runs[i].id)
  }

  /** Pruning keeps at least one run, and a failed run is resumed only while no newer
      pull of its endpoint has completed. */
  ghost predicate Safe(w: World, e: Event) {
    && (e.Prune? ==> e.keep >= 1)
    && (e.Resume? ==> forall i | 0 <= i < |w.runs| && w.runs[i].id == e.id && w.runs[i].state == Failed ::
                        !Outdated(w.runs, w.runs[i]))
  }

  ghost predicate AllSafe(w: World, es: seq<Event>) {
    forall i | 0 <= i < |es| :: Safe(RunEvents(w, es[..i]), es[i])
  }

  lemma AheadEmpty(runs: seq<Run>, r: Run)
    ensures Ahead(runs, r) == {} <==>
      forall i | 0 <= i < |runs| ::
        !(runs[i].state == Completed && runs[i].endpoint == r.endpoint && Outranks(runs[i], r))
  {
    if Ahead(runs, r) == {} {
      forall i | 0 <= i < |runs|
        ensures !(runs[i].state == Completed && runs[i].endpoint == r.endpoint && Outranks(runs[i], r))
      {
        assert runs[i] !in Ahead(runs, r);
      }
    }
  }

  lemma ProtectedNotStale(runs: seq<Run>, keep: int, r: Run)
    requires IdsDistinct(runs) && r in runs && Protected(runs, r) && keep >= 1
    ensures r.id !in StalePullRunIds(runs, keep)
  {
    StaleIs(runs, keep, r);
    OlderFailedIs(runs, r);
  }

  lemma PruneKeeps(w: World, keep: int)
    requires Kept(w) && keep >= 1
    ensures Kept(Next(w, Prune(keep)))
  {
    var now := Next(w, Prune(keep));
    forall i | 0 <= i < |now.runs| && Protected(now.runs, now.runs[i])
      ensures RowsKept(now, now.runs[i].id)
    {
      ProtectedNotStale(w.runs, keep, w.runs[i]);
      assert RowsKept(w, w.runs[i].id);
    }
  }

  lemma StartKeeps(w: World, id: nat, endpoint: string, at: int)
    requires Kept(w) && !HasRun(w.runs, id)
    ensures Kept(Next(w, Start(id, endpoint, at)))
  {
    var now := Next(w, Start(id, endpoint, at));
    forall i | 0 <= i < |now.runs| && Protected(now.runs, now.runs[i])
      ensures RowsKept(now, now.runs[i].id)
    {
      if i < |w.runs| {
        AheadEmpty(w.runs, w.runs[i]);
        AheadEmpty(now.runs, now.runs[i]);
        assert forall j | 0 <= j < |w.runs| :: now.runs[j] == w.runs[j];
        assert Protected(w.runs, w.runs[i]);
        assert RowsKept(w, w.runs[i].id);
      }
    }
    forall k | k in now.seen ensures HasRun(now.runs, k.runId) {
      var j :| 0 <= j < |w.runs| && w.runs[j].id == k.runId;
      assert now.runs[j].id == k.runId;
    }
  }

  lemma StageKeeps(w: World, id: nat, natural: string, payload: string)
    requires Kept(w)
    ensures Kept(Next(w, Stage(id, natural, payload)))
  {
    var now := Next(w, Stage(id, natural, payload));
    forall i | 0 <= i < |now.runs| && Protected(now.runs, now.runs[i])
      ensures RowsKept(now, now.runs[i].id)
    {
      assert RowsKept(w, w.runs[i].id);
    }
    if IsRunning(w.runs, id) {
      assert HasRun(w.runs, id);
    }
  }

  /** A run protected after one run changes state was protected before, provided a run
      that leaves `Failed` was. */
  lemma StillProtected(runs: seq<Run>, id: nat, state: State, i: nat)
    requires IdsDistinct(runs) && i < |runs| && Unfinished(runs, id)
    requires forall j | 0 <= j < |runs| && runs[j].id == id :: Protected(runs, runs[j])
    requires Protected(InState(runs, id, state), InState(runs, id, state)[i])
    ensures Protected(runs, runs[i])
  {
    var now := InState(runs, id, state);
    var u :| 0 <= u < |runs| && runs[u].id == id && runs[u].state != Completed;
    if i != u {
      assert now[i] == runs[i] && now[u] == runs[u].(state := state);
      AheadEmpty(runs, runs[i]);
      AheadEmpty(now, now[i]);
      forall j | 0 <= j < |runs| && runs[j].state == Completed ensures now[j] == runs[j] {
        assert j != u && runs[j].id != runs[u].id;
      }
    }
  }

  lemma ChangeKeeps(w: World, id: nat, state: State)
    requires Kept(w) && Unfinished(w.runs, id)
    requires forall j | 0 <= j < |w.runs| && w.runs[j].id == id :: Protected(w.runs, w.runs[j])
    ensures Kept(w.(runs := InState(w.runs, id, state)))
  {
    var now := w.(runs := InState(w.runs, id, state));
    forall i | 0 <= i < |now.runs| && Protected(now.runs, now.runs[i])
      ensures RowsKept(now, now.runs[i].id)
    {
      StillProtected(w.runs, id, state, i);
      assert RowsKept(w, w.runs[i].id);
    }
    forall k | k in now.seen ensures HasRun(now.runs, k.runId) {
      var j :| 0 <= j < |w.runs| && w.runs[j].id == k.runId;
      assert now.runs[j].id == k.runId;
    }
  }

  lemma FailAgain(w: World, id: nat)
    requires IdsDistinct(w.runs)
    requires forall j | 0 <= j < |w.runs| && w.runs[j].id == id :: w.runs[j].state == Failed
    ensures InState(w.runs, id, Failed) == w.runs
  {
  }

  lemma OnlyRun(runs: seq<Run>, id: nat, u: nat)
    requires IdsDistinct(runs) && u < |runs| && runs[u].id == id
    ensures forall j | 0 <= j < |runs| && runs[j].id == id :: j == u
  {
  }

  lemma StepKeeps(w: World, e: Event)
    requires Kept(w) && Safe(w, e)
    ensures Kept(Next(w, e))
  {
    match e
    case Start(id, endpoint, at) => if !HasRun(w.runs, id) { StartKeeps(w, id, endpoint, at); }
    case Stage(id, natural, payload) => StageKeeps(w, id, natural, payload);
    case Prune(keep) => PruneKeeps(w, keep);
    case Complete(id) =>
      if IsRunning(w.runs, id) {
        var u :| 0 <= u < |w.runs| && w.runs[u].id == id && w.runs[u].state == Running;
        OnlyRun(w.runs, id, u);
        ChangeKeeps(w, id, Completed);
      }
    case Fail(id) =>
      if Unfinished(w.runs, id) {
        var u :| 0 <= u < |w.runs| && w.runs[u].id == id && w.runs[u].state != Completed;
        OnlyRun(w.runs, id, u);
        if w.runs[u].state == Failed { FailAgain(w, id); } else { ChangeKeeps(w, id, Failed); }
      }
    case Resume(id) =>
      if Unfinished(w.runs, id) {
        var u :| 0 <= u < |w.runs| && w.runs[u].id == id && w.runs[u].state != Completed;
        OnlyRun(w.runs, id, u);
        ChangeKeeps(w, id, Running);
      }
  }

  /** Over every safe run of starts, captures, completions, failures, resumes and prunes,
      every running pull and the newest completed pull of every endpoint keep every page
      ever captured for them. */
  lemma {:induction false} RunsKeepRows(w: World, es: seq<Event>)
    requires Kept(w) && AllSafe(w, es)
    ensures Kept(RunEvents(w, es))
  {
    if es != [] {
      var before := es[..|es| - 1];
      forall i | 0 <= i < |before| ensures Safe(RunEvents(w, before[..i]), before[i]) {
        assert before[..i] == es[..i] && before[i] == es[i];
      }
      RunsKeepRows(w, before);
      assert before == es[..|before|] && Safe(RunEvents(w, before), es[|before|]);
      StepKeeps(RunEvents(w, before), es[|es| - 1]);
    }
  }

  ghost predicate SomeRows(w: World, id: nat) { exists k | k in w.seen :: k.runId == id }

  /** Pruning and then resuming a failed pull leaves it its pages exactly when it was not
      outdated, or had none. */
  lemma PruneThenResumeExactly(w: World, i: nat, keep: int)
    requires Kept(w) && i < |w.runs| && w.runs[i].state == Failed && RowsKept(w, w.runs[i].id) && keep >= 1
    ensures RowsKept(Next(Next(w, Prune(keep)), Resume(w.runs[i].id)), w.runs[i].id)
       <==> !Outdated(w.runs, w.runs[i]) || !SomeRows(w, w.runs[i].id)
  {
    var r := w.runs[i];
    StaleIs(w.runs, keep, r);
    OlderFailedIs(w.runs, r);
    if Outdated(w.runs, r) {
      var j :| 0 <= j < |w.runs| && w.runs[j].state == Completed && w.runs[j].endpoint == r.endpoint
               && w.runs[j].startedAt > r.startedAt;
      assert w.runs[j] in w.runs;
      assert r.id in StalePullRunIds(w.runs, keep);
    } else {
      ProtectedNotStale(w.runs, keep, r);
    }
  }

  lemma StepOf(w: World, es: seq<Event>, n: nat)
    requires n < |es|
    ensures RunEvents(w, es[..n + 1]) == Next(RunEvents(w, es[..n]), es[n])
  {
    assert es[..n + 1][..n] == es[..n];
  }

  function FirstHalf(page: string): seq<Event> {
    [Start(1, "clients", 1), Stage(1, "1", page), Fail(1), Start(2, "clients", 2), Complete(2)]
  }

  function Interrupted(page: string): World {
    World([Run(1, "clients", Failed, 1), Run(2, "clients", Completed, 2)],
          map[Key(1, "1") := page], map[Key(1, "1") := page])
  }

  lemma FirstPageFails(page: string)
    ensures Next(Next(Next(World([], map[], map[]), Start(1, "clients", 1)), Stage(1, "1", page)), Fail(1))
         == World([Run(1, "clients", Failed, 1)], map[Key(1, "1") := page], map[Key(1, "1") := page])
  {
    var w := World([Run(1, "clients", Running, 1)], map[], map[]);
    assert Next(World([], map[], map[]), Start(1, "clients", 1)) == w;
    assert w.runs[0].id == 1;
  }

  lemma SecondPullCompletes(page: string)
    ensures Next(Next(World([Run(1, "clients", Failed, 1)], map[Key(1, "1") := page], map[Key(1, "1") := page]),
                      Start(2, "clients", 2)), Complete(2))
         == Interrupted(page)
  {
    var rows := map[Key(1, "1") := page];
    var w := World([Run(1, "clients", Failed, 1), Run(2, "clients", Running, 2)], rows, rows);
    assert Next(World([Run(1, "clients", Failed, 1)], rows, rows), Start(2, "clients", 2)) == w;
    assert w.runs[1].id == 2;
  }

  lemma InterruptedIsReached(page: string)
    ensures RunEvents(World([], map[], map[]), FirstHalf(page)) == Interrupted(page)
  {
    var none, es := World([], map[], map[]), FirstHalf(page);
    FirstPageFails(page);
    SecondPullCompletes(page);
    FiveSteps(none, es);
  }

  lemma FiveSteps(w: World, es: seq<Event>)
    requires |es| == 5
    ensures RunEvents(w, es) == Next(Next(Next(Next(Next(w, es[0]), es[1]), es[2]), es[3]), es[4])
  {
    StepOf(w, es, 0);
    StepOf(w, es, 1);
    StepOf(w, es, 2);
    StepOf(w, es, 3);
    StepOf(w, es, 4);
    assert es[..5] == es && es[..0] == [];
  }

  lemma PrunedAndResumed(page: string, keep: int)
    requires keep >= 1
    ensures Next(Next(Interrupted(page), Prune(keep)), Resume(1))
         == World([Run(1, "clients", Running, 1), Run(2, "clients", Completed, 2)], map[], map[Key(1, "1") := page])
  {
    var w := Interrupted(page);
    StaleIs(w.runs, keep, w.runs[0]);
    OlderFailedIs(w.runs, w.runs[0]);
    assert w.runs[1] in w.runs;
  }

  /** Such a pull is reachable: it fails after a page, a later one of its endpoint
      completes, the page is pruned, and on resuming it completes from its second. */
  lemma ResumedPullLosesAPage(page: string, next: string, keep: int)
    requires keep >= 1
    ensures RunEvents(World([], map[], map[]), FirstHalf(page)) == Interrupted(page)
    ensures var resumed := Next(Next(Interrupted(page), Prune(keep)), Resume(1));
            var w := Next(Next(resumed, Stage(1, "2", next)), Complete(1));
            && w.runs[0] == Run(1, "clients", Completed, 1)
            && Key(1, "1") in w.seen && Key(1, "1") !in w.staging && Key(1, "2") in w.staging
  {
    InterruptedIsReached(page);
    PrunedAndResumed(page, keep);
  }
}
