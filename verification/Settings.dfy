/** The settings provider's override cache, one caller at a time
    (SettingsProvider, src/app/config.py). Settings are a map from names to values; the
    process environment, the clock and what the override loader returns come in as
    arguments. */
module Settings {
  import opened Common

  const OVERRIDE_REFRESH_SECONDS := 10.0

  type Values = map<string, string>

  /** The fields. `checkedAt` is None for minus infinity. */
  datatype Cache = Cache(
    env: Option<Values>, merged: Option<Values>, overrides: Values, hasLoader: bool, checkedAt: Option<real>)

  /** A call reads the clock at `now` and, if it reloads, again at `done`; `load` is None
      when the loader raises. */
  datatype Request =
    | Call(environment: Values, now: real, done: real, load: Option<Values>)
    | CacheClear
    | UseOverrides
    | ReloadOverrides

  const EMPTY := Cache(None, None, map[], false, None)

  /** model_copy(update=…). */
  function Merge(env: Values, overrides: Values): Values { env + overrides }

  predicate Reloads(c: Cache, r: Request) {
    r.Call? && c.hasLoader && (c.checkedAt.None? || r.now - c.checkedAt.value >= OVERRIDE_REFRESH_SECONDS)
  }

  function Opened(c: Cache, environment: Values): Cache {
    if c.env.None? then c.(env := Some(environment), merged := None) else c
  }

  function Reloaded(c: Cache, done: real, load: Option<Values>): Cache {
    var overrides := load.GetOr(c.overrides);
    if overrides != c.overrides then c.(checkedAt := Some(done), overrides := overrides, merged := None)
    else c.(checkedAt := Some(done))
  }

  function Filled(c: Cache): Cache
    requires c.env.Some?
  {
    if c.merged.None? then c.(merged := Some(Merge(c.env.value, c.overrides))) else c
  }

  function After(c: Cache, r: Request): Cache {
    match r
    case Call(environment, now, done, load) =>
      var o := Opened(c, environment);
      Filled(if Reloads(c, r) then Reloaded(o, done, load) else o)
    case CacheClear => c.(env := None, merged := None, checkedAt := None)
    case UseOverrides => c.(hasLoader := true, checkedAt := None)
    case ReloadOverrides => c.(checkedAt := None)
  }

  class SettingsProvider {
    var env: Option<Values>
    var merged: Option<Values>
    var overrides: Values
    var hasLoader: bool
    var checkedAt: Option<real>

    ghost function State(): Cache
      reads this
    {
      Cache(env, merged, overrides, hasLoader, checkedAt)
    }

    constructor ()
      ensures State() == EMPTY
    {
      env, merged, overrides, hasLoader, checkedAt := None, None, map[], false, None;
    }

    method Get(environment: Values, now: real, done: real, load: Option<Values>) returns (settings: Values)
      modifies this
      ensures State() == After(old(State()), Call(environment, now, done, load))
      ensures Some(settings) == merged
      ensures Coherent(old(State())) ==> env.Some? && settings == Merge(env.value, overrides)
    {
      if env.None? {
        env := Some(environment);
        merged := None;
      }
      if hasLoader && (checkedAt.None? || now - checkedAt.value >= OVERRIDE_REFRESH_SECONDS) {
        Reload(done, load);
      }
      if merged.None? {
        merged := Some(Merge(env.value, overrides));
      }
      settings := merged.value;
    }

    method Reload(done: real, load: Option<Values>)
      modifies this
      ensures State() == Reloaded(old(State()), done, load)
    {
      var loaded := load.GetOr(overrides);
      checkedAt := Some(done);
      if loaded != overrides {
        overrides := loaded;
        merged := None;
      }
    }

    method Clear()
      modifies this
      ensures State() == After(old(State()), CacheClear)
    {
      env := None;
      merged := None;
      checkedAt := None;
    }

    method Use()
      modifies this
      ensures State() == After(old(State()), UseOverrides)
    {
      hasLoader := true;
      checkedAt := None;
    }

    method Refresh()
      modifies this
      ensures State() == After(old(State()), ReloadOverrides)
    {
      checkedAt := None;
    }
  }

  // ----- Whole runs -----

  function Run(c: Cache, rs: seq<Request>): Cache {
    if rs == [] then c else After(Run(c, rs[..|rs| - 1]), rs[|rs| - 1])
  }

  /** The environment a call is answered from: the one met by the first call since the
      cache was last cleared. */
  function EnvironmentOf(rs: seq<Request>): Option<Values> {
    if rs == [] then None
    else
      var before, r := EnvironmentOf(rs[..|rs| - 1]), rs[|rs| - 1];
      if r.CacheClear? then None else if r.Call? then before.Or(Some(r.environment)) else before
  }

  /** What the loader returned the last time it was asked and did not raise. */
  function LastLoaded(rs: seq<Request>): Values {
    if rs == [] then map[]
    else
      var r := rs[|rs| - 1];
      if Reloads(Run(EMPTY, rs[..|rs| - 1]), r) && r.load.Some? then r.load.value
      else LastLoaded(rs[..|rs| - 1])
  }

  ghost predicate Coherent(c: Cache) {
    c.merged.Some? ==> c.env.Some? && c.merged.value == Merge(c.env.value, c.overrides)
  }

  lemma StepKeepsCoherent(c: Cache, r: Request)
    requires Coherent(c)
    ensures Coherent(After(c, r))
    ensures r.Call? ==> After(c, r).merged.Some?
  {
  }

  lemma {:induction false} RunStays(rs: seq<Request>)
    ensures Coherent(Run(EMPTY, rs))
    ensures Run(EMPTY, rs).env == EnvironmentOf(rs)
    ensures Run(EMPTY, rs).overrides == LastLoaded(rs)
  {
    if rs != [] {
      RunStays(rs[..|rs| - 1]);
      StepKeepsCoherent(Run(EMPTY, rs[..|rs| - 1]), rs[|rs| - 1]);
    }
  }

  /** Every call is answered with that environment under the last overrides loaded,
      whatever calls, failures, clears and refreshes came before it. */
  lemma AnswerIsCurrent(rs: seq<Request>)
    requires rs != [] && rs[|rs| - 1].Call?
    ensures EnvironmentOf(rs).Some?
    ensures Run(EMPTY, rs).merged == Some(Merge(EnvironmentOf(rs).value, LastLoaded(rs)))
  {
    RunStays(rs);
    RunStays(rs[..|rs| - 1]);
    StepKeepsCoherent(Run(EMPTY, rs[..|rs| - 1]), rs[|rs| - 1]);
  }

  /** What a caller reads: a name the loader last gave a value has that value, whatever
      the environment says of it, and every other name is as in the environment. */
  lemma OverridesWin(rs: seq<Request>, name: string)
    requires rs != [] && rs[|rs| - 1].Call?
    ensures var c, given := Run(EMPTY, rs), LastLoaded(rs);
            && c.merged.Some? && EnvironmentOf(rs).Some?
            && var answer, environment := c.merged.value, EnvironmentOf(rs).value;
               && (name in given ==> name in answer && answer[name] == given[name])
               && (name !in given && name in environment ==>
                     name in answer && answer[name] == environment[name])
               && (name !in given && name !in environment ==> name !in answer)
  {
    AnswerIsCurrent(rs);
  }

  // ----- When the loader is asked -----

  /** The request at `i` is a call that asks the loader. */
  predicate Asks(rs: seq<Request>, i: nat)
    requires i < |rs|
  {
    Reloads(Run(EMPTY, rs[..i]), rs[i])
  }

  /** The request at `j` is the last one before `i` to ask, with only calls since. */
  ghost predicate LastAsk(rs: seq<Request>, j: nat, i: nat)
    requires i <= |rs|
  {
    j < i && Asks(rs, j) && forall m | j < m < i :: rs[m].Call? && !Asks(rs, m)
  }

  ghost predicate LoaderSet(rs: seq<Request>, i: nat)
    requires i <= |rs|
  {
    exists u | 0 <= u < i :: rs[u].UseOverrides?
  }

  lemma RunStep(rs: seq<Request>, i: nat)
    requires i < |rs|
    ensures Run(EMPTY, rs[..i + 1]) == After(Run(EMPTY, rs[..i]), rs[i])
  {
    assert rs[..i + 1][..i] == rs[..i];
  }

  lemma LastAskStep(rs: seq<Request>, i: nat, n: nat)
    requires i < |rs| && n == i + 1
    ensures LastAsk(rs, i, n) <==> Asks(rs, i)
    ensures forall j | 0 <= j < i :: LastAsk(rs, j, n) <==> LastAsk(rs, j, i) && rs[i].Call? && !Asks(rs, i)
  {
    forall j | 0 <= j < i
      ensures LastAsk(rs, j, n) <==> LastAsk(rs, j, i) && rs[i].Call? && !Asks(rs, i)
    {
      var calm := m requires 0 <= m < |rs| => rs[m].Call? && !Asks(rs, m);
      assert (forall m | j < m < n :: calm(m)) <==> (forall m | j < m < i :: calm(m)) && calm(i);
    }
  }

  lemma {:induction false} LoaderIsSet(rs: seq<Request>, i: nat)
    requires i <= |rs|
    ensures Run(EMPTY, rs[..i]).hasLoader <==> LoaderSet(rs, i)
  {
    if i > 0 {
      LoaderIsSet(rs, i - 1);
      RunStep(rs, i - 1);
      assert LoaderSet(rs, i) <==> LoaderSet(rs, i - 1) || rs[i - 1].UseOverrides?;
    }
  }

  lemma StampStep(c: Cache, r: Request)
    ensures var next := After(c, r).checkedAt;
            next == if !r.Call? then None else if Reloads(c, r) then Some(r.done) else c.checkedAt
  {
  }

  lemma {:induction false} StampIsLastAsk(rs: seq<Request>, i: nat)
    requires i <= |rs|
    ensures var stamp := Run(EMPTY, rs[..i]).checkedAt;
            && (stamp.None? ==> forall j | 0 <= j < i :: !LastAsk(rs, j, i))
            && (stamp.Some? ==> exists j | 0 <= j < i :: LastAsk(rs, j, i) && rs[j].done == stamp.value)
  {
    if i > 0 {
      StampIsLastAsk(rs, i - 1);
      var was, stamp := Run(EMPTY, rs[..i - 1]).checkedAt, Run(EMPTY, rs[..i]).checkedAt;
      RunStep(rs, i - 1);
      StampStep(Run(EMPTY, rs[..i - 1]), rs[i - 1]);
      LastAskStep(rs, i - 1, i);
      if stamp.None? {
        forall j | 0 <= j < i ensures !LastAsk(rs, j, i) {
          assert j < i - 1 || j == i - 1;
        }
      } else if Asks(rs, i - 1) {
        assert LastAsk(rs, i - 1, i);
      } else {
        var j :| 0 <= j < i - 1 && LastAsk(rs, j, i - 1) && rs[j].done == was.value;
        assert LastAsk(rs, j, i);
      }
    }
  }

  /** Over every run, a call asks the loader exactly when there is one and the last call to
      ask ended ten seconds before or more, unless a refresh was forced since. */
  lemma AsksExactly(rs: seq<Request>, i: nat)
    requires i < |rs|
    ensures Asks(rs, i) <==>
              && rs[i].Call? && LoaderSet(rs, i)
              && forall j | 0 <= j < i && LastAsk(rs, j, i) :: rs[i].now - rs[j].done >= 10.0
  {
    LoaderIsSet(rs, i);
    StampIsLastAsk(rs, i);
    forall j, k | 0 <= j < i && 0 <= k < i && LastAsk(rs, j, i) && LastAsk(rs, k, i) ensures j == k {
    }
  }

  ghost predicate LoadedAt(rs: seq<Request>, j: nat)
    requires j < |rs|
  {
    Asks(rs, j) && rs[j].load.Some?
  }

  lemma LastLoadedStep(rs: seq<Request>, i: nat)
    requires i < |rs|
    ensures LastLoaded(rs[..i + 1]) == if LoadedAt(rs, i) then rs[i].load.value else LastLoaded(rs[..i])
  {
    assert rs[..i + 1][..i] == rs[..i];
  }

  ghost predicate LastLoadedAt(rs: seq<Request>, j: nat, i: nat)
    requires j < i <= |rs|
  {
    LoadedAt(rs, j) && forall m | j < m < i :: !LoadedAt(rs, m)
  }

  /** The overrides in force are those of the last call that asked and got an answer. */
  lemma {:induction false} LastLoadedIs(rs: seq<Request>, i: nat)
    requires i <= |rs|
    ensures (forall j | 0 <= j < i :: !LoadedAt(rs, j)) ==> LastLoaded(rs[..i]) == map[]
    ensures forall j | 0 <= j < i :: LastLoadedAt(rs, j, i) ==> LastLoaded(rs[..i]) == rs[j].load.value
  {
    if i > 0 {
      LastLoadedIs(rs, i - 1);
      LastLoadedStep(rs, i - 1);
      forall j | 0 <= j < i && LastLoadedAt(rs, j, i)
        ensures j == i - 1 || (LastLoadedAt(rs, j, i - 1) && !LoadedAt(rs, i - 1))
      {
        var quiet := m requires 0 <= m < |rs| => !LoadedAt(rs, m);
        assert j < i - 1 ==> quiet(i - 1);
      }
    }
  }

  function Loads(rs: seq<Request>): nat {
    if rs == [] then 0
    else Loads(rs[..|rs| - 1]) + if Reloads(Run(EMPTY, rs[..|rs| - 1]), rs[|rs| - 1]) then 1 else 0
  }

  function ForcedRefreshes(rs: seq<Request>): nat {
    if rs == [] then 0
    else ForcedRefreshes(rs[..|rs| - 1]) + if rs[|rs| - 1].Call? then 0 else 1
  }

  /** The clock after a run that starts at `start`. */
  function Clock(start: real, rs: seq<Request>): real {
    if rs == [] then start
    else
      var r := rs[|rs| - 1];
      if r.Call? then r.done else Clock(start, rs[..|rs| - 1])
  }

  /** The clock never goes back, within a call or between calls. */
  ghost predicate ClockAdvances(start: real, rs: seq<Request>) {
    forall i | 0 <= i < |rs| && rs[i].Call? :: Clock(start, rs[..i]) <= rs[i].now <= rs[i].done
  }

  lemma {:induction false} Potential(start: real, rs: seq<Request>)
    requires ClockAdvances(start, rs)
    ensures var c, n := Run(EMPTY, rs), (Loads(rs) - ForcedRefreshes(rs)) as real;
            && (c.checkedAt.Some? ==> OVERRIDE_REFRESH_SECONDS * n <= c.checkedAt.value - start
                                      && c.checkedAt.value <= Clock(start, rs))
            && (c.checkedAt.None? && c.hasLoader ==>
                  OVERRIDE_REFRESH_SECONDS * (n + 1.0) <= Clock(start, rs) - start)
            && (!c.hasLoader ==> Loads(rs) == 0 && c.checkedAt.None?)
            && start <= Clock(start, rs)
  {
    if rs != [] {
      var before, r := rs[..|rs| - 1], rs[|rs| - 1];
      forall i | 0 <= i < |before| && before[i].Call?
        ensures Clock(start, before[..i]) <= before[i].now <= before[i].done
      {
        assert before[..i] == rs[..i] && before[i] == rs[i];
      }
      Potential(start, before);
      assert rs[..|before|] == before;
    }
  }

  /** However often settings are read, and however the loader fails, it is asked at most
      once per refresh interval of elapsed time plus once per forced refresh. */
  lemma LoadRate(start: real, rs: seq<Request>)
    requires ClockAdvances(start, rs)
    ensures 10.0 * (Loads(rs) as real) <= Clock(start, rs) - start + 10.0 * (ForcedRefreshes(rs) as real)
  {
    Potential(start, rs);
  }
}
