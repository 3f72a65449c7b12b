/** The same provider called by any number of threads at once, with every read and write
    of an attribute a step of its own (SettingsProvider, src/app/config.py). The process
    environment stays the same and nobody calls cache_clear. */
module SettingsThreads {
  import opened Common
  import opened Settings

  /** Where a thread is; the arguments are its local variables. */
  datatype Pc =
    | Idle
    | WriteEnv
    | DropMerged
    | CheckStale
    | TryLock
    | Load
    | Stamp(loaded: Values)
    | Compare(loaded: Values)
    | WriteOverrides(loaded: Values)
    | DropOldMerge
    | Release
    | ReadMerged
    | TestOverrides
    | CopyEnv
    | Store(local: Values)
    | Answer(local: Values)

  /** The attributes, the lock, and the override sets that have ever been current. */
  datatype Shared = Shared(
    env: Option<Values>, merged: Option<Values>, overrides: Values, checkedAt: Option<real>,
    lock: Option<nat>, ever: set<Values>)

  datatype World = World(shared: Shared, threads: seq<Pc>)

  /** A thread moves, seeing this clock and this loader result where it looks; or somebody
      forces a refresh. */
  datatype Event = Move(t: nat, now: real, load: Option<Values>) | Refresh

  /** One atomic step of thread `t`: the new attributes and where it goes. */
  function Act(s: Shared, pc: Pc, e: Event, environment: Values): (Shared, Pc)
    requires e.Move?
  {
    match pc
    case Idle => (s, if s.env.None? then WriteEnv else CheckStale)
    case WriteEnv => (s.(env := Some(environment)), DropMerged)
    case DropMerged => (s.(merged := None), CheckStale)
    case CheckStale =>
      var stale := s.checkedAt.None? || e.now - s.checkedAt.value >= OVERRIDE_REFRESH_SECONDS;
      (s, if stale then TryLock else ReadMerged)
    case TryLock => if s.lock.None? then (s.(lock := Some(e.t)), Load) else (s, ReadMerged)
    case Load => (s, Stamp(e.load.GetOr(s.overrides)))
    case Stamp(loaded) => (s.(checkedAt := Some(e.now)), Compare(loaded))
    case Compare(loaded) => (s, if loaded != s.overrides then WriteOverrides(loaded) else Release)
    case WriteOverrides(loaded) => (s.(overrides := loaded, ever := s.ever + {loaded}), DropOldMerge)
    case DropOldMerge => (s.(merged := None), Release)
    case Release => (s.(lock := None), ReadMerged)
    case ReadMerged => (s, match s.merged case None => TestOverrides case Some(m) => Answer(m))
    // The two reads of `_merge`; by then `env` is set, as `ThreadInv` says.
    case TestOverrides => (s, if s.overrides == map[] then Store(s.env.GetOr(map[])) else CopyEnv)
    case CopyEnv => (s, Store(Merge(s.env.GetOr(map[]), s.overrides)))
    case Store(local) => (s.(merged := Some(local)), Answer(local))
    case Answer(_) => (s, Idle)
  }

  function Next(w: World, e: Event, environment: Values): World {
    match e
    case Refresh => w.(shared := w.shared.(checkedAt := None))
    case Move(t, _, _) =>
      if t >= |w.threads| then w
      else
        var (shared, pc) := Act(w.shared, w.threads[t], e, environment);
        World(shared, w.threads[t := pc])
  }

  function Run(w: World, es: seq<Event>, environment: Values): World {
    if es == [] then w else Next(Run(w, es[..|es| - 1], environment), es[|es| - 1], environment)
  }

  function Begin(threads: nat): World {
    World(Shared(None, None, map[], None, None, {map[]}), seq(threads, i => Idle))
  }

  // ----- One call with nobody else about -----

  /** How many steps a call has left at most. */
  function Left(pc: Pc): nat {
    match pc
    case Idle => 15
    case WriteEnv => 14
    case DropMerged => 13
    case CheckStale => 12
    case TryLock => 11
    case Load => 10
    case Stamp(_) => 9
    case Compare(_) => 8
    case WriteOverrides(_) => 7
    case DropOldMerge => 6
    case Release => 5
    case ReadMerged => 4
    case TestOverrides => 3
    case CopyEnv => 2
    case Store(_) => 1
    case Answer(_) => 0
  }

  /** The thread's next move: the clock says `done` where it is read again, else `now`. */
  function LoneMove(t: nat, pc: Pc, now: real, done: real, load: Option<Values>): Event {
    Move(t, if pc.Stamp? then done else now, load)
  }

  /** A call taken to its answer with no other thread moving. */
  function Alone(s: Shared, pc: Pc, t: nat, now: real, done: real, load: Option<Values>, environment: Values)
    : (Shared, Values)
    decreases Left(pc)
  {
    if pc.Answer? then (s, pc.local)
    else
      var (next, to) := Act(s, pc, LoneMove(t, pc, now, done, load), environment);
      Alone(next, to, t, now, done, load, environment)
  }

  function CacheOf(s: Shared): Cache { Cache(s.env, s.merged, s.overrides, true, s.checkedAt) }

  lemma AnswerAlone(s: Shared, made: Values, t: nat, now: real, done: real, load: Option<Values>, environment: Values)
    ensures Alone(s, Answer(made), t, now, done, load, environment) == (s, made)
    ensures Alone(s, Store(made), t, now, done, load, environment) == (s.(merged := Some(made)), made)
  {
  }

  lemma MergeAlone(s: Shared, t: nat, now: real, done: real, load: Option<Values>, environment: Values)
    requires s.env.Some?
    ensures var made := Merge(s.env.value, s.overrides);
            Alone(s, TestOverrides, t, now, done, load, environment) == (s.(merged := Some(made)), made)
  {
    var made := Merge(s.env.value, s.overrides);
    AnswerAlone(s, made, t, now, done, load, environment);
    if s.overrides == map[] {
      assert made == s.env.value;
    } else {
      assert Alone(s, TestOverrides, t, now, done, load, environment)
          == Alone(s, CopyEnv, t, now, done, load, environment);
    }
  }

  /** From the point where the settings are open: read, and merge if need be. */
  lemma AloneReads(s: Shared, t: nat, now: real, done: real, load: Option<Values>, environment: Values)
    requires s.env.Some?
    ensures var (after, answer) := Alone(s, ReadMerged, t, now, done, load, environment);
            && CacheOf(after) == Filled(CacheOf(s)) && after.lock == s.lock
            && CacheOf(after).merged == Some(answer)
  {
    match s.merged
    case None => MergeAlone(s, t, now, done, load, environment);
    case Some(made) => AnswerAlone(s, made, t, now, done, load, environment);
  }

  /** The attributes once a loaded override set has been compared and, if new, stored. */
  function Stored(s: Shared, loaded: Values): Shared {
    if loaded == s.overrides then s
    else s.(overrides := loaded, ever := s.ever + {loaded}, merged := None)
  }

  lemma AloneStores(
    s: Shared, loaded: Values, t: nat, now: real, done: real, load: Option<Values>, environment: Values)
    ensures Alone(s, Compare(loaded), t, now, done, load, environment)
         == Alone(Stored(s, loaded).(lock := None), ReadMerged, t, now, done, load, environment)
  {
    if loaded != s.overrides {
      var written := s.(overrides := loaded, ever := s.ever + {loaded});
      assert Alone(s, Compare(loaded), t, now, done, load, environment)
          == Alone(written, DropOldMerge, t, now, done, load, environment);
      assert Alone(written, DropOldMerge, t, now, done, load, environment)
          == Alone(Stored(s, loaded), Release, t, now, done, load, environment);
    }
    assert Alone(Stored(s, loaded), Release, t, now, done, load, environment)
        == Alone(Stored(s, loaded).(lock := None), ReadMerged, t, now, done, load, environment);
  }

  lemma AloneReloads(s: Shared, t: nat, now: real, done: real, load: Option<Values>, environment: Values)
    returns (ready: Shared)
    requires s.env.Some? && s.lock.None?
    ensures CacheOf(ready) == Reloaded(CacheOf(s), done, load) && ready.lock.None?
    ensures Alone(s, TryLock, t, now, done, load, environment)
         == Alone(ready, ReadMerged, t, now, done, load, environment)
  {
    var loaded := load.GetOr(s.overrides);
    var held := s.(lock := Some(t));
    var stamped := held.(checkedAt := Some(done));
    assert Alone(s, TryLock, t, now, done, load, environment)
        == Alone(held, Stamp(loaded), t, now, done, load, environment)
        == Alone(stamped, Compare(loaded), t, now, done, load, environment);
    AloneStores(stamped, loaded, t, now, done, load, environment);
    ready := Stored(stamped, loaded).(lock := None);
  }

  /** Step by step such a call does to the attributes, and answers, what the provider's call
      does when it is taken as one step. */
  lemma AloneIsOneCall(s: Shared, t: nat, now: real, done: real, load: Option<Values>, environment: Values)
    requires s.lock.None?
    ensures var (after, answer) := Alone(s, Idle, t, now, done, load, environment);
            && CacheOf(after) == After(CacheOf(s), Call(environment, now, done, load)) && after.lock.None?
            && CacheOf(after).merged == Some(answer)
  {
    var open := if s.env.None? then s.(env := Some(environment), merged := None) else s;
    assert Alone(s, Idle, t, now, done, load, environment)
        == Alone(open, CheckStale, t, now, done, load, environment);
    assert CacheOf(open) == Opened(CacheOf(s), environment);
    if Reloads(CacheOf(s), Call(environment, now, done, load)) {
      var ready := AloneReloads(open, t, now, done, load, environment);
      AloneReads(ready, t, now, done, load, environment);
    } else {
      AloneReads(open, t, now, done, load, environment);
    }
  }

  lemma OneLoneMove(
    w: World, t: nat, now: real, done: real, load: Option<Values>, environment: Values) returns (after: World)
    requires t < |w.threads| && !w.threads[t].Answer?
    ensures after == Next(w, LoneMove(t, w.threads[t], now, done, load), environment)
    ensures |after.threads| == |w.threads| && Left(after.threads[t]) < Left(w.threads[t])
    ensures Alone(w.shared, w.threads[t], t, now, done, load, environment)
         == Alone(after.shared, after.threads[t], t, now, done, load, environment)
    ensures after.threads == w.threads[t := after.threads[t]]
  {
    after := Next(w, LoneMove(t, w.threads[t], now, done, load), environment);
  }

  /** And it is a run of that thread's moves. */
  lemma {:induction false} AloneIsARun(
    w: World, t: nat, now: real, done: real, load: Option<Values>, environment: Values) returns (es: seq<Event>)
    requires t < |w.threads|
    ensures forall i | 0 <= i < |es| :: es[i].Move? && es[i].t == t
    ensures var (after, answer) := Alone(w.shared, w.threads[t], t, now, done, load, environment);
            Run(w, es, environment) == World(after, w.threads[t := Answer(answer)])
    decreases Left(w.threads[t])
  {
    es := [];
    if !w.threads[t].Answer? {
      var e := LoneMove(t, w.threads[t], now, done, load);
      var next := OneLoneMove(w, t, now, done, load, environment);
      var rest := AloneIsARun(next, t, now, done, load, environment);
      es := [e] + rest;
      RunOn(w, [e], rest, environment);
      assert [e][..0] == [] && Run(w, [e], environment) == Next(w, e, environment);
    }
  }

  // ----- What every interleaving keeps -----

  predicate Reloading(pc: Pc) {
    pc.Load? || pc.Stamp? || pc.Compare? || pc.WriteOverrides? || pc.DropOldMerge? || pc.Release?
  }

  predicate Opening(pc: Pc) { pc.Idle? || pc.WriteEnv? }

  /** A merge of the environment with some override set that has been current. */
  ghost predicate Genuine(m: Values, s: Shared, environment: Values) {
    exists o :: o in s.ever && m == Merge(environment, o)
  }

  ghost predicate SharedInv(s: Shared, environment: Values) {
    && s.overrides in s.ever
    && (s.env.Some? ==> s.env.value == environment)
    && (s.merged.Some? ==> Genuine(s.merged.value, s, environment))
  }

  ghost predicate ThreadInv(s: Shared, t: nat, pc: Pc, environment: Values) {
    && (Reloading(pc) <==> s.lock == Some(t))
    && (s.env.None? ==> Opening(pc))
    && (pc.Store? || pc.Answer? ==> Genuine(pc.local, s, environment))
  }

  ghost predicate Inv(w: World, environment: Values) {
    && SharedInv(w.shared, environment)
    && forall t | 0 <= t < |w.threads| :: ThreadInv(w.shared, t, w.threads[t], environment)
  }

  lemma MergeIsGenuine(s: Shared, environment: Values)
    requires s.overrides in s.ever
    ensures Genuine(Merge(environment, s.overrides), s, environment)
    ensures s.overrides == map[] ==> Merge(environment, s.overrides) == environment
  {
  }

  lemma ActKeepsShared(s: Shared, pc: Pc, e: Event, environment: Values)
    requires e.Move? && SharedInv(s, environment) && ThreadInv(s, e.t, pc, environment)
    ensures SharedInv(Act(s, pc, e, environment).0, environment)
  {
    var now := Act(s, pc, e, environment).0;
    if pc.WriteOverrides? && s.merged.Some? {
      var o :| o in s.ever && s.merged.value == Merge(environment, o);
      assert o in now.ever;
    }
  }

  lemma ActKeepsOwn(s: Shared, pc: Pc, e: Event, environment: Values)
    requires e.Move? && SharedInv(s, environment) && ThreadInv(s, e.t, pc, environment)
    ensures var (now, to) := Act(s, pc, e, environment); ThreadInv(now, e.t, to, environment)
  {
    if pc.TestOverrides? || pc.CopyEnv? {
      MergeIsGenuine(s, environment);
    }
  }

  lemma ActKeepsOther(s: Shared, pc: Pc, e: Event, environment: Values, u: nat, other: Pc)
    requires e.Move? && u != e.t
    requires ThreadInv(s, e.t, pc, environment) && ThreadInv(s, u, other, environment)
    ensures ThreadInv(Act(s, pc, e, environment).0, u, other, environment)
  {
  }

  lemma StepKeepsInv(w: World, e: Event, environment: Values)
    requires Inv(w, environment)
    ensures Inv(Next(w, e, environment), environment)
    ensures |Next(w, e, environment).threads| == |w.threads|
  {
    var now := Next(w, e, environment);
    if e.Move? && e.t < |w.threads| {
      ActKeepsShared(w.shared, w.threads[e.t], e, environment);
      ActKeepsOwn(w.shared, w.threads[e.t], e, environment);
      forall u | 0 <= u < |now.threads| ensures ThreadInv(now.shared, u, now.threads[u], environment) {
        if u != e.t {
          ActKeepsOther(w.shared, w.threads[e.t], e, environment, u, w.threads[u]);
        }
      }
    } else {
      forall u | 0 <= u < |now.threads| ensures ThreadInv(now.shared, u, now.threads[u], environment) {
        assert ThreadInv(w.shared, u, w.threads[u], environment);
      }
    }
  }

  lemma BeginInv(threads: nat, environment: Values)
    ensures Inv(Begin(threads), environment)
  {
  }

  lemma {:induction false} RunKeepsInv(threads: nat, es: seq<Event>, environment: Values)
    ensures Inv(Run(Begin(threads), es, environment), environment)
    ensures |Run(Begin(threads), es, environment).threads| == threads
  {
    if es == [] {
      BeginInv(threads, environment);
    } else {
      RunKeepsInv(threads, es[..|es| - 1], environment);
      StepKeepsInv(Run(Begin(threads), es[..|es| - 1], environment), es[|es| - 1], environment);
    }
  }

  /** At most one thread is reloading, and every answer about to be given is genuine. */
  ghost predicate Safe(w: World, environment: Values) {
    && (forall t, u | 0 <= t < |w.threads| && 0 <= u < |w.threads| ::
          Reloading(w.threads[t]) && Reloading(w.threads[u]) ==> t == u)
    && forall t | 0 <= t < |w.threads| && w.threads[t].Answer? ::
         Genuine(w.threads[t].local, w.shared, environment)
  }

  lemma InvIsSafe(w: World, environment: Values)
    requires Inv(w, environment)
    ensures Safe(w, environment)
  {
    forall t, u | 0 <= t < |w.threads| && 0 <= u < |w.threads| && Reloading(w.threads[t]) && Reloading(w.threads[u])
      ensures t == u
    {
      assert ThreadInv(w.shared, t, w.threads[t], environment) && ThreadInv(w.shared, u, w.threads[u], environment);
    }
  }

  /** Any number of threads, in any interleaving, is safe. */
  lemma EveryInterleavingSafe(threads: nat, es: seq<Event>, environment: Values)
    ensures Safe(Run(Begin(threads), es, environment), environment)
  {
    RunKeepsInv(threads, es, environment);
    InvIsSafe(Run(Begin(threads), es, environment), environment);
  }

  // ----- Where an outdated merge comes from -----

  ghost predicate DropPending(threads: seq<Pc>) {
    exists t :: 0 <= t < |threads| && threads[t] == DropOldMerge
  }

  /** The stored merge is of the current overrides, or is about to be dropped. */
  ghost predicate UpToDate(w: World, environment: Values) {
    w.shared.merged.Some? ==>
      DropPending(w.threads) || w.shared.merged.value == Merge(environment, w.shared.overrides)
  }

  lemma PendingUnchanged(threads: seq<Pc>, t: nat, pc: Pc)
    requires t < |threads| && threads[t] != DropOldMerge && pc != DropOldMerge
    ensures DropPending(threads[t := pc]) <==> DropPending(threads)
  {
    var now := threads[t := pc];
    if u :| 0 <= u < |threads| && threads[u] == DropOldMerge {
      assert now[u] == DropOldMerge;
    }
    if u :| 0 <= u < |now| && now[u] == DropOldMerge {
      assert threads[u] == DropOldMerge;
    }
  }

  /** A merge made before the overrides changed is stored after the change has dropped the
      one before it. */
  ghost predicate StoresOutdated(w: World, e: Event, environment: Values) {
    && e.Move? && e.t < |w.threads| && w.threads[e.t].Store?
    && w.threads[e.t].local != Merge(environment, w.shared.overrides)
    && !DropPending(w.threads)
  }

  /** That is the one step that leaves an outdated merge behind. */
  lemma OutdatedExactly(w: World, e: Event, environment: Values)
    requires UpToDate(w, environment)
    ensures !UpToDate(Next(w, e, environment), environment) <==> StoresOutdated(w, e, environment)
  {
    if e.Move? && e.t < |w.threads| {
      var pc := w.threads[e.t];
      var to := Act(w.shared, pc, e, environment).1;
      if pc.WriteOverrides? {
        assert w.threads[e.t := to][e.t] == DropOldMerge;
      } else if !pc.DropOldMerge? {
        PendingUnchanged(w.threads, e.t, to);
      }
    }
  }

  /** Before each event and after the last. */
  ghost predicate AlwaysUpToDate(threads: nat, es: seq<Event>, environment: Values) {
    && UpToDate(Run(Begin(threads), es, environment), environment)
    && (es != [] ==> AlwaysUpToDate(threads, es[..|es| - 1], environment))
  }

  ghost predicate NeverStoresOutdated(threads: nat, es: seq<Event>, environment: Values) {
    es != [] ==>
      && !StoresOutdated(Run(Begin(threads), es[..|es| - 1], environment), es[|es| - 1], environment)
      && NeverStoresOutdated(threads, es[..|es| - 1], environment)
  }

  /** Over every interleaving the stored merge is up to date throughout exactly when no
      thread makes that step. */
  lemma {:induction false} UpToDateThroughoutExactly(threads: nat, es: seq<Event>, environment: Values)
    ensures AlwaysUpToDate(threads, es, environment) <==> NeverStoresOutdated(threads, es, environment)
  {
    if es != [] {
      var before := es[..|es| - 1];
      UpToDateThroughoutExactly(threads, before, environment);
      if AlwaysUpToDate(threads, before, environment) {
        OutdatedExactly(Run(Begin(threads), before, environment), es[|before|], environment);
      }
    }
  }

  // ----- A schedule that rules it out -----

  /** Nobody changes the overrides while a thread that has read them has yet to store what
      it made of them. */
  ghost predicate Calm(w: World, e: Event) {
    e.Move? && e.t < |w.threads| && w.threads[e.t].WriteOverrides? ==>
      forall u | 0 <= u < |w.threads| :: !w.threads[u].Store?
  }

  ghost predicate AllCalm(threads: nat, es: seq<Event>, environment: Values) {
    forall i | 0 <= i < |es| :: Calm(Run(Begin(threads), es[..i], environment), es[i])
  }

  /** No thread holds an outdated merge, stored or about to be. */
  ghost predicate Current(w: World, environment: Values) {
    && UpToDate(w, environment)
    && forall t | 0 <= t < |w.threads| && w.threads[t].Store? ::
         w.threads[t].local == Merge(environment, w.shared.overrides)
  }

  lemma MadeOfCurrent(s: Shared, pc: Pc, e: Event, environment: Values)
    requires e.Move? && SharedInv(s, environment) && ThreadInv(s, e.t, pc, environment)
    requires Act(s, pc, e, environment).1.Store?
    ensures Act(s, pc, e, environment).1.local == Merge(environment, s.overrides)
    ensures Act(s, pc, e, environment).0 == s
  {
    MergeIsGenuine(s, environment);
  }

  lemma OverridesKept(s: Shared, pc: Pc, e: Event, environment: Values)
    requires e.Move? && !pc.WriteOverrides?
    ensures Act(s, pc, e, environment).0.overrides == s.overrides
  {
  }

  lemma CalmKeepsCurrent(w: World, e: Event, environment: Values)
    requires Inv(w, environment) && Current(w, environment) && Calm(w, e)
    ensures Current(Next(w, e, environment), environment)
  {
    OutdatedExactly(w, e, environment);
    if e.Move? && e.t < |w.threads| {
      var pc := w.threads[e.t];
      var (now, to) := Act(w.shared, pc, e, environment);
      if to.Store? {
        MadeOfCurrent(w.shared, pc, e, environment);
      }
      if !pc.WriteOverrides? {
        OverridesKept(w.shared, pc, e, environment);
      }
    }
  }

  lemma LastCalm(threads: nat, es: seq<Event>, environment: Values)
    requires es != [] && AllCalm(threads, es, environment)
    ensures AllCalm(threads, es[..|es| - 1], environment)
    ensures Calm(Run(Begin(threads), es[..|es| - 1], environment), es[|es| - 1])
  {
    var before := es[..|es| - 1];
    forall i | 0 <= i < |before| ensures Calm(Run(Begin(threads), before[..i], environment), before[i]) {
      assert before[..i] == es[..i] && before[i] == es[i];
    }
    assert es[..|before|] == before;
  }

  /** Under any such schedule of any number of threads the stored merge is never outdated,
      apart from the moment before it is dropped. */
  lemma {:induction false} CalmStaysCurrent(threads: nat, es: seq<Event>, environment: Values)
    requires AllCalm(threads, es, environment)
    ensures Current(Run(Begin(threads), es, environment), environment)
  {
    if es != [] {
      var before := Run(Begin(threads), es[..|es| - 1], environment);
      LastCalm(threads, es, environment);
      CalmStaysCurrent(threads, es[..|es| - 1], environment);
      RunKeepsInv(threads, es[..|es| - 1], environment);
      CalmKeepsCurrent(before, es[|es| - 1], environment);
    }
  }

  // ----- An outdated merge can stay -----

  function Two(s: Shared, first: Pc, second: Pc): World { World(s, [first, second]) }

  function Moves(w: World, t: nat, n: nat, now: real, load: Option<Values>, environment: Values): World {
    if n == 0 then w else Next(Moves(w, t, n - 1, now, load, environment), Move(t, now, load), environment)
  }

  lemma {:induction false} MovesAreARun(w: World, t: nat, n: nat, now: real, load: Option<Values>, environment: Values)
    ensures Moves(w, t, n, now, load, environment) == Run(w, seq(n, i => Move(t, now, load)), environment)
  {
    var es := seq(n, i => Move(t, now, load));
    if n > 0 {
      MovesAreARun(w, t, n - 1, now, load, environment);
      assert es[..n - 1] == seq(n - 1, i => Move(t, now, load));
    }
  }

  lemma {:induction false} RunOn(w: World, a: seq<Event>, b: seq<Event>, environment: Values)
    ensures Run(w, a + b, environment) == Run(Run(w, a, environment), b, environment)
  {
    if b == [] {
      assert a + b == a;
    } else {
      assert (a + b)[..|a + b| - 1] == a + b[..|b| - 1];
      RunOn(w, a, b[..|b| - 1], environment);
    }
  }

  /** The second thread opens the settings and takes the lock. */
  lemma SecondTakesTheLock(environment: Values, now: real, load: Option<Values>)
    ensures Moves(Begin(2), 1, 5, now, load, environment)
         == Two(Shared(Some(environment), None, map[], None, Some(1), {map[]}), Idle, Load)
  {
    var none := Shared(None, None, map[], None, None, {map[]});
    var some := none.(env := Some(environment));
    assert Begin(2) == Two(none, Idle, Idle);
    assert Moves(Begin(2), 1, 1, now, load, environment) == Two(none, Idle, WriteEnv);
    assert Moves(Begin(2), 1, 2, now, load, environment) == Two(some, Idle, DropMerged);
    assert Moves(Begin(2), 1, 3, now, load, environment) == Two(some, Idle, CheckStale);
    assert Moves(Begin(2), 1, 4, now, load, environment) == Two(some, Idle, TryLock);
  }

  /** The first, finding it taken, merges the overrides there are. */
  lemma FirstMerges(environment: Values, now: real, load: Option<Values>)
    ensures var s := Shared(Some(environment), None, map[], None, Some(1), {map[]});
            Moves(Two(s, Idle, Load), 0, 5, now, load, environment) == Two(s, Store(environment), Load)
  {
    var s := Shared(Some(environment), None, map[], None, Some(1), {map[]});
    var w := Two(s, Idle, Load);
    assert Moves(w, 0, 1, now, load, environment) == Two(s, CheckStale, Load);
    assert Moves(w, 0, 2, now, load, environment) == Two(s, TryLock, Load);
    assert Moves(w, 0, 3, now, load, environment) == Two(s, ReadMerged, Load);
    assert Moves(w, 0, 4, now, load, environment) == Two(s, TestOverrides, Load);
  }

  /** The second loads others, stores them and drops the merge. */
  lemma SecondReloads(environment: Values, now: real, loaded: Values)
    requires loaded != map[]
    ensures Moves(Two(Shared(Some(environment), None, map[], None, Some(1), {map[]}), Store(environment), Load),
                  1, 6, now, Some(loaded), environment)
         == Two(Shared(Some(environment), None, loaded, Some(now), None, {map[], loaded}),
                Store(environment), ReadMerged)
  {
    var s := Shared(Some(environment), None, map[], None, Some(1), {map[]});
    var stamped := s.(checkedAt := Some(now));
    var written := stamped.(overrides := loaded, ever := {map[], loaded});
    var w, store := Two(s, Store(environment), Load), Store(environment);
    assert Moves(w, 1, 1, now, Some(loaded), environment) == Two(s, store, Stamp(loaded));
    assert Moves(w, 1, 2, now, Some(loaded), environment) == Two(stamped, store, Compare(loaded));
    assert Moves(w, 1, 3, now, Some(loaded), environment) == Two(stamped, store, WriteOverrides(loaded));
    assert Moves(w, 1, 4, now, Some(loaded), environment) == Two(written, store, DropOldMerge);
    assert Moves(w, 1, 5, now, Some(loaded), environment) == Two(written, store, Release);
  }

  /** The first stores its merge, and both answer with it. */
  lemma BothAnswer(s: Shared, environment: Values, now: real, load: Option<Values>)
    requires s.merged.None?
    ensures var half := Moves(Two(s, Store(environment), ReadMerged), 0, 2, now, load, environment);
            Moves(half, 1, 2, now, load, environment) == Two(s.(merged := Some(environment)), Idle, Idle)
  {
    var w, after := Two(s, Store(environment), ReadMerged), s.(merged := Some(environment));
    assert Moves(w, 0, 1, now, load, environment) == Two(after, Answer(environment), ReadMerged);
    var half := Two(after, Idle, ReadMerged);
    assert Moves(w, 0, 2, now, load, environment) == half;
    assert Moves(half, 1, 1, now, load, environment) == Two(after, Idle, Answer(environment));
  }

  /** So two first calls at once can leave the merge made before the overrides were
      loaded: whatever they are, no thread is running and the stored merge lacks them. */
  lemma OutdatedIsReached(environment: Values, now: real, loaded: Values) returns (es: seq<Event>)
    requires loaded != map[]
    ensures Run(Begin(2), es, environment)
         == Two(Shared(Some(environment), Some(environment), loaded, Some(now), None, {map[], loaded}), Idle, Idle)
  {
    var load := Some(loaded);
    var one, two := Move(0, now, load), Move(1, now, load);
    SecondTakesTheLock(environment, now, load);
    FirstMerges(environment, now, load);
    SecondReloads(environment, now, loaded);
    BothAnswer(Shared(Some(environment), None, loaded, Some(now), None, {map[], loaded}), environment, now, load);
    es := [];
    var w := Begin(2);
    es, w := Extend(es, w, 1, 5, now, load, environment);
    es, w := Extend(es, w, 0, 5, now, load, environment);
    es, w := Extend(es, w, 1, 6, now, load, environment);
    es, w := Extend(es, w, 0, 2, now, load, environment);
    es, w := Extend(es, w, 1, 2, now, load, environment);
  }

  lemma Extend(es: seq<Event>, w: World, t: nat, n: nat, now: real, load: Option<Values>, environment: Values)
    returns (more: seq<Event>, after: World)
    requires Run(Begin(2), es, environment) == w
    ensures after == Moves(w, t, n, now, load, environment)
    ensures Run(Begin(2), more, environment) == after
  {
    more := es + seq(n, i => Move(t, now, load));
    after := Moves(w, t, n, now, load, environment);
    RunOn(Begin(2), es, seq(n, i => Move(t, now, load)), environment);
    MovesAreARun(w, t, n, now, load, environment);
  }

  /** Once every call is over, an outdated merge answers every later call, whatever the
      clock says, for as long as the loader raises or returns what it did. */
  lemma {:induction false} OutdatedStays(c: Cache, rs: seq<Request>)
    requires c.env.Some? && c.merged.Some?
    requires forall i | 0 <= i < |rs| ::
               !rs[i].CacheClear? && (rs[i].Call? ==> rs[i].load.None? || rs[i].load.value == c.overrides)
    ensures Settings.Run(c, rs).merged == c.merged
    ensures Settings.Run(c, rs).overrides == c.overrides && Settings.Run(c, rs).env == c.env
  {
    if rs != [] {
      OutdatedStays(c, rs[..|rs| - 1]);
    }
  }
}
