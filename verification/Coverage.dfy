/** The reachability test made when a rule set is saved (`_covers` and the last loop of
    `validate_rules`, src/app/rules/store.py): what it decides and what it misses. */
module Coverage {
  import opened Common
  import opened Rules

  /** `narrow` names every field `broad` names, with values inside broad's. */
  predicate Covers(broad: seq<Clause>, narrow: seq<Clause>) {
    forall i | 0 <= i < |broad| :: Widens(broad[i], narrow)
  }

  predicate Widens(c: Clause, narrow: seq<Clause>) {
    exists j | 0 <= j < |narrow| ::
      narrow[j].field == c.field && forall v | v in narrow[j].allowed :: v in c.allowed
  }

  /** A match is a dictionary, and validation refuses an empty value list in it. */
  ghost predicate IsMatch(cs: seq<Clause>) {
    && (forall i, j | 0 <= i < j < |cs| :: cs[i].field != cs[j].field)
    && forall i | 0 <= i < |cs| :: cs[i].allowed != []
  }

  /** No rule, in priority order, is covered by one before it. */
  ghost predicate PassesReachability(rules: seq<Rule>) {
    var ordered := ByPriority(rules);
    forall i, j | 0 <= i < j < |ordered| :: !Covers(ordered[i].clauses, ordered[j].clauses)
  }

  /** The client with the first value each clause allows. */
  function Client(cs: seq<Clause>): Features
    requires forall i | 0 <= i < |cs| :: cs[i].allowed != []
  {
    if cs == [] then map[] else Client(cs[1..])[cs[0].field := cs[0].allowed[0]]
  }

  lemma {:induction false} ClientSays(cs: seq<Clause>)
    requires IsMatch(cs)
    ensures forall i | 0 <= i < |cs| :: Says(Client(cs), cs[i].field, cs[i].allowed[0])
    ensures forall k | k in Client(cs) :: exists i | 0 <= i < |cs| :: cs[i].field == k
  {
    if cs != [] {
      var rest := cs[1..];
      assert forall i | 0 <= i < |rest| :: rest[i] == cs[i + 1];
      ClientSays(rest);
      forall i | 0 < i < |cs| ensures Says(Client(cs), cs[i].field, cs[i].allowed[0]) {
        assert cs[i] == rest[i - 1];
      }
    }
  }

  lemma ClauseOfMatching(r: Rule, f: Features, i: nat)
    requires Matches(r, f) && i < |r.clauses|
    ensures Holds(r.clauses[i], f)
  {
  }

  lemma CoveredMatches(broad: Rule, narrow: Rule, f: Features)
    requires Covers(broad.clauses, narrow.clauses) && Matches(narrow, f)
    ensures Matches(broad, f)
  {
    forall i | 0 <= i < |broad.clauses| ensures Holds(broad.clauses[i], f) {
      assert Widens(broad.clauses[i], narrow.clauses);
      var j :| 0 <= j < |narrow.clauses| && narrow.clauses[j].field == broad.clauses[i].field
               && forall v | v in narrow.clauses[j].allowed :: v in broad.clauses[i].allowed;
      ClauseOfMatching(narrow, f, j);
    }
  }

  /** A rule that is not covered has a client that tells the two apart. */
  lemma UncoveredClient(broad: Rule, narrow: Rule) returns (f: Features)
    requires IsMatch(narrow.clauses) && !Covers(broad.clauses, narrow.clauses)
    ensures Matches(narrow, f) && !Matches(broad, f)
  {
    var i :| 0 <= i < |broad.clauses| && !Widens(broad.clauses[i], narrow.clauses);
    f := Client(narrow.clauses);
    ClientSays(narrow.clauses);
    if j :| 0 <= j < |narrow.clauses| && narrow.clauses[j].field == broad.clauses[i].field {
      var v :| v in narrow.clauses[j].allowed && v !in broad.clauses[i].allowed;
      f := f[narrow.clauses[j].field := v];
    }
    assert !Holds(broad.clauses[i], f);
  }

  /** The test says covered exactly when every client the later rule matches is matched
      by the earlier one. */
  lemma CoversExact(broad: Rule, narrow: Rule)
    requires IsMatch(narrow.clauses)
    ensures Covers(broad.clauses, narrow.clauses) <==> forall f: Features | Matches(narrow, f) :: Matches(broad, f)
  {
    if Covers(broad.clauses, narrow.clauses) {
      forall f: Features | Matches(narrow, f) ensures Matches(broad, f) {
        CoveredMatches(broad, narrow, f);
      }
    } else {
      var f := UncoveredClient(broad, narrow);
    }
  }

  /** So a covered rule is the answer for no client. */
  lemma CoveredNeverWins(rules: seq<Rule>, earlier: Rule, later: Rule, f: Features)
    requires UniquePriorities(rules)
    requires earlier in rules && later in rules && earlier.priority < later.priority
    requires Covers(earlier.clauses, later.clauses)
    ensures Resolve(f, rules) != Some(later)
  {
    ResolveExact(f, rules, later);
    if Matches(later, View(f)) {
      CoveredMatches(earlier, later, View(f));
    }
  }

  // ----- When a rule can be the answer -----

  ghost predicate UniquePriorities(rules: seq<Rule>) {
    forall a, b | a in rules && b in rules && a.priority == b.priority :: a == b
  }

  /** The clients that name a match's fields, and only those, with values it allows. */
  function Candidates(cs: seq<Clause>): seq<Features> {
    if cs == [] then [map[]] else Extended(cs[0].field, cs[0].allowed, Candidates(cs[1..]))
  }

  function Extended(field: Field, values: seq<Value>, fs: seq<Features>): seq<Features> {
    if values == [] then []
    else seq(|fs|, i requires 0 <= i < |fs| => fs[i][field := values[0]]) + Extended(field, values[1..], fs)
  }

  predicate AllListed(cs: seq<Clause>) { forall i | 0 <= i < |cs| :: !cs[i].field.Unlisted? }

  predicate NoneBefore(rules: seq<Rule>, later: Rule, f: Features) {
    forall i | 0 <= i < |rules| && rules[i].priority < later.priority :: !Matches(rules[i], f)
  }

  /** Read off the rule list alone: the rule matches listed fields only, and one of its
      finitely many candidates is matched by no rule before it. */
  predicate HasOwnClient(rules: seq<Rule>, later: Rule) {
    && AllListed(later.clauses)
    && exists i | 0 <= i < |Candidates(later.clauses)| :: NoneBefore(rules, later, Candidates(later.clauses)[i])
  }

  ghost predicate NamesOnly(f: Features, cs: seq<Clause>) {
    forall k | k in f :: exists i | 0 <= i < |cs| :: cs[i].field == k
  }

  ghost predicate AllHold(cs: seq<Clause>, f: Features) { forall i | 0 <= i < |cs| :: Holds(cs[i], f) }

  /** The client cut down to a match's fields. */
  function Restrict(f: Features, cs: seq<Clause>): Features
    requires forall i | 0 <= i < |cs| :: cs[i].field in f
  {
    if cs == [] then map[] else Restrict(f, cs[1..])[cs[0].field := f[cs[0].field]]
  }

  lemma {:induction false} ExtendedExact(field: Field, values: seq<Value>, fs: seq<Features>, f: Features)
    ensures f in Extended(field, values, fs) <==>
              exists i, j | 0 <= i < |fs| && 0 <= j < |values| :: f == fs[i][field := values[j]]
  {
    if values != [] {
      ExtendedExact(field, values[1..], fs, f);
      assert forall j | 0 < j < |values| :: values[j] == values[1..][j - 1];
      var first := seq(|fs|, i requires 0 <= i < |fs| => fs[i][field := values[0]]);
      forall i | 0 <= i < |fs| ensures fs[i][field := values[0]] in first {
        assert first[i] == fs[i][field := values[0]];
      }
    }
  }

  lemma {:induction false} CandidateMatches(cs: seq<Clause>, f: Features)
    requires IsMatch(cs) && f in Candidates(cs)
    ensures AllHold(cs, f) && NamesOnly(f, cs)
  {
    if cs != [] {
      var rest := cs[1..];
      assert forall i | 0 <= i < |rest| :: rest[i] == cs[i + 1];
      ExtendedExact(cs[0].field, cs[0].allowed, Candidates(rest), f);
      var i, j :| 0 <= i < |Candidates(rest)| && 0 <= j < |cs[0].allowed|
                  && f == Candidates(rest)[i][cs[0].field := cs[0].allowed[j]];
      CandidateMatches(rest, Candidates(rest)[i]);
      forall n | 0 <= n < |cs| ensures Holds(cs[n], f) {
        assert n > 0 ==> Holds(rest[n - 1], Candidates(rest)[i]);
      }
    }
  }

  lemma {:induction false} RestrictIsCandidate(f: Features, cs: seq<Clause>)
    requires AllHold(cs, f)
    ensures Restrict(f, cs) in Candidates(cs)
    ensures forall k | k in Restrict(f, cs) :: k in f && Restrict(f, cs)[k] == f[k]
  {
    if cs != [] {
      var rest := cs[1..];
      assert forall i | 0 <= i < |rest| :: rest[i] == cs[i + 1];
      RestrictIsCandidate(f, rest);
      assert Holds(cs[0], f);
      var i :| 0 <= i < |Candidates(rest)| && Candidates(rest)[i] == Restrict(f, rest);
      var j :| 0 <= j < |cs[0].allowed| && cs[0].allowed[j] == f[cs[0].field];
      ExtendedExact(cs[0].field, cs[0].allowed, Candidates(rest), Restrict(f, cs));
    }
  }

  lemma MatchesMore(r: Rule, small: Features, f: Features)
    requires Matches(r, small) && forall k | k in small :: k in f && small[k] == f[k]
    ensures Matches(r, f)
  {
    forall i | 0 <= i < |r.clauses| ensures Holds(r.clauses[i], f) {
      assert Holds(r.clauses[i], small);
    }
  }

  lemma WinnerHasOwnClient(rules: seq<Rule>, later: Rule, f: Features)
    requires UniquePriorities(rules) && Resolve(f, rules) == Some(later)
    ensures later in rules && HasOwnClient(rules, later)
  {
    var v, cs := View(f), later.clauses;
    ResolveExact(f, rules, later);
    forall i | 0 <= i < |cs| ensures Holds(cs[i], v) {
      ClauseOfMatching(later, v, i);
    }
    RestrictIsCandidate(v, cs);
    var small := Restrict(v, cs);
    forall i | 0 <= i < |rules| && rules[i].priority < later.priority ensures !Matches(rules[i], small) {
      assert rules[i] in rules;
      if Matches(rules[i], small) {
        MatchesMore(rules[i], small, v);
      }
    }
    var c :| 0 <= c < |Candidates(cs)| && Candidates(cs)[c] == small;
    assert NoneBefore(rules, later, Candidates(cs)[c]);
  }

  lemma OwnClientWins(rules: seq<Rule>, later: Rule, f: Features)
    requires UniquePriorities(rules) && later in rules && AllListed(later.clauses)
    requires AllHold(later.clauses, f) && NamesOnly(f, later.clauses) && NoneBefore(rules, later, f)
    ensures Resolve(f, rules) == Some(later)
  {
    assert View(f) == f;
    ResolveExact(f, rules, later);
    assert Matches(later, f);
  }

  /** A stored rule is the answer for some client exactly when it has a client of its own
      among its candidates. */
  lemma ReachableExactly(rules: seq<Rule>, later: Rule)
    requires UniquePriorities(rules) && later in rules && IsMatch(later.clauses)
    ensures (exists f: Features :: Resolve(f, rules) == Some(later)) <==> HasOwnClient(rules, later)
  {
    if f: Features :| Resolve(f, rules) == Some(later) {
      WinnerHasOwnClient(rules, later, f);
    }
    if HasOwnClient(rules, later) {
      var fs := Candidates(later.clauses);
      var i :| 0 <= i < |fs| && NoneBefore(rules, later, fs[i]);
      assert fs[i] in fs;
      CandidateMatches(later.clauses, fs[i]);
      OwnClientWins(rules, later, fs[i]);
    }
  }

  ghost predicate OneValueEach(cs: seq<Clause>) { forall i | 0 <= i < |cs| :: |cs[i].allowed| == 1 }

  lemma OnlyCandidateMatches(broad: Rule, cs: seq<Clause>)
    requires IsMatch(cs) && OneValueEach(cs) && Matches(broad, Client(cs))
    ensures Covers(broad.clauses, cs)
  {
    ClientSays(cs);
    forall i | 0 <= i < |broad.clauses| ensures Widens(broad.clauses[i], cs) {
      ClauseOfMatching(broad, Client(cs), i);
      var j :| 0 <= j < |cs| && cs[j].field == broad.clauses[i].field;
      assert Says(Client(cs), cs[j].field, cs[j].allowed[0]);
      assert forall v | v in cs[j].allowed :: v == cs[j].allowed[0];
    }
  }

  /** For a rule that allows one value in each clause the pairwise test is the exact one. */
  lemma PairwiseDecides(rules: seq<Rule>, later: Rule)
    requires UniquePriorities(rules) && later in rules
    requires IsMatch(later.clauses) && OneValueEach(later.clauses) && AllListed(later.clauses)
    ensures (exists f: Features :: Resolve(f, rules) == Some(later)) <==>
              forall earlier | earlier in rules && earlier.priority < later.priority ::
                !Covers(earlier.clauses, later.clauses)
  {
    var f := Client(later.clauses);
    ClientSays(later.clauses);
    if forall earlier | earlier in rules && earlier.priority < later.priority ::
         !Covers(earlier.clauses, later.clauses)
    {
      forall i | 0 <= i < |rules| && rules[i].priority < later.priority ensures !Matches(rules[i], f) {
        assert rules[i] in rules;
        if Matches(rules[i], f) {
          OnlyCandidateMatches(rules[i], later.clauses);
        }
      }
      OwnClientWins(rules, later, f);
    } else {
      forall f: Features ensures Resolve(f, rules) != Some(later) {
        var earlier :| earlier in rules && earlier.priority < later.priority
                       && Covers(earlier.clauses, later.clauses);
        CoveredNeverWins(rules, earlier, later, f);
      }
    }
  }

  /** So in a set that passes, every rule of that kind is the answer for some client. */
  lemma PassedIsReachable(rules: seq<Rule>, later: Rule)
    requires UniquePriorities(rules) && PassesReachability(rules) && later in rules
    requires IsMatch(later.clauses) && OneValueEach(later.clauses) && AllListed(later.clauses)
    ensures exists f: Features :: Resolve(f, rules) == Some(later)
  {
    var ordered := ByPriority(rules);
    ByPriorityExact(rules);
    forall earlier | earlier in rules && earlier.priority < later.priority
      ensures !Covers(earlier.clauses, later.clauses)
    {
      var i :| 0 <= i < |ordered| && ordered[i] == earlier;
      var j :| 0 <= j < |ordered| && ordered[j] == later;
      assert i < j;
    }
    PairwiseDecides(rules, later);
  }

  // ----- What the test misses -----

  function OnBalance(priority: int, values: seq<Value>): Rule {
    Rule(PickUpAgain, priority, [Clause(HasBalance, values)], PickUpAgain, Low, T3, PickUpAgain)
  }

  function SplitByTwo(): seq<Rule> { [OnBalance(1, [True]), OnBalance(2, [False]), OnBalance(3, [True, False])] }

  lemma OnBalanceMatches(priority: int, values: seq<Value>, f: Features)
    ensures Matches(OnBalance(priority, values), f) <==> HasBalance in f && f[HasBalance] in values
  {
    assert Matches(OnBalance(priority, values), f) <==> Holds(OnBalance(priority, values).clauses[0], f);
  }

  lemma OnBalanceCovers(broad: seq<Value>, narrow: seq<Value>, v: Value)
    requires v in narrow && v !in broad
    ensures !Covers([Clause(HasBalance, broad)], [Clause(HasBalance, narrow)])
  {
    var cs, ds := [Clause(HasBalance, broad)], [Clause(HasBalance, narrow)];
    assert cs[0].allowed == broad && ds[0].allowed == narrow;
  }

  lemma SplitPasses()
    ensures PassesReachability(SplitByTwo())
  {
    var rules := SplitByTwo();
    StepsUpIsSorted(rules);
    OnBalanceCovers([True], [False], False);
    OnBalanceCovers([True], [True, False], False);
    OnBalanceCovers([False], [True, False], True);
    forall i, j | 0 <= i < j < 3 ensures !Covers(rules[i].clauses, rules[j].clauses) {
    }
  }

  /** Rules covered only by several earlier ones together pass the test and still never
      win: here the third rule, behind one for each of its two values. */
  lemma PassesYetUnreachable(f: Features)
    ensures PassesReachability(SplitByTwo())
    ensures Resolve(f, SplitByTwo()) != Some(OnBalance(3, [True, False]))
  {
    SplitPasses();
    ResolveExact(f, SplitByTwo(), OnBalance(3, [True, False]));
    OnBalanceMatches(1, [True], View(f));
    OnBalanceMatches(2, [False], View(f));
    OnBalanceMatches(3, [True, False], View(f));
  }
}
