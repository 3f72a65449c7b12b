/** Inner and left outer joins over tables held as sequences, and what they
    come to when the joined table is keyed on the join columns. */
module Relations {
  import opened Common

  function Matches<A, B>(x: A, ys: seq<B>, on: (A, B) -> bool): seq<B> {
    if ys == [] then [] else (if on(x, ys[0]) then [ys[0]] else []) + Matches(x, ys[1..], on)
  }

  function InnerJoin<A, B>(xs: seq<A>, ys: seq<B>, on: (A, B) -> bool): seq<(A, B)> {
    if xs == [] then []
    else
      var found := Matches(xs[0], ys, on);
      seq(|found|, i requires 0 <= i < |found| => (xs[0], found[i])) + InnerJoin(xs[1..], ys, on)
  }

  function LeftJoin<A, B>(xs: seq<A>, ys: seq<B>, on: (A, B) -> bool): seq<(A, Option<B>)> {
    if xs == [] then []
    else
      var found := Matches(xs[0], ys, on);
      (if |found| == 0 then [(xs[0], None)]
       else seq(|found|, i requires 0 <= i < |found| => (xs[0], Some(found[i]))))
      + LeftJoin(xs[1..], ys, on)
  }

  /** The reference reading of a keyed join: go and fetch the one matching row. */
  function Lookup<A, B>(x: A, ys: seq<B>, on: (A, B) -> bool): Option<B> {
    if ys == [] then None else if on(x, ys[0]) then Some(ys[0]) else Lookup(x, ys[1..], on)
  }

  ghost predicate AtMostOne<A, B>(x: A, ys: seq<B>, on: (A, B) -> bool) {
    forall i, j | 0 <= i < j < |ys| :: !(on(x, ys[i]) && on(x, ys[j]))
  }

  lemma {:induction false} MatchesKeyed<A, B>(x: A, ys: seq<B>, on: (A, B) -> bool)
    requires AtMostOne(x, ys, on)
    ensures Matches(x, ys, on) == match Lookup(x, ys, on) case None => [] case Some(y) => [y]
  {
    if ys != [] {
      var rest := ys[1..];
      assert forall i | 0 <= i < |rest| :: rest[i] == ys[i + 1];
      MatchesKeyed(x, rest, on);
      if on(x, ys[0]) && Lookup(x, rest, on).Some? {
        LookupFinds(x, rest, on);
      }
    }
  }

  lemma {:induction false} LookupFinds<A, B>(x: A, ys: seq<B>, on: (A, B) -> bool)
    requires Lookup(x, ys, on).Some?
    ensures exists i | 0 <= i < |ys| :: ys[i] == Lookup(x, ys, on).value && on(x, ys[i])
  {
    if !on(x, ys[0]) {
      LookupFinds(x, ys[1..], on);
      var i :| 0 <= i < |ys[1..]| && ys[1..][i] == Lookup(x, ys[1..], on).value && on(x, ys[1..][i]);
      assert ys[i + 1] == ys[1..][i];
    }
  }

  /** Rows appended to a table leave a lookup alone that was already answered, or that
      none of them answers. */
  lemma {:induction false} LookupAppended<A, B>(x: A, ys: seq<B>, more: seq<B>, on: (A, B) -> bool)
    requires Lookup(x, ys, on).Some? || forall y | y in more :: !on(x, y)
    ensures Lookup(x, ys + more, on) == Lookup(x, ys, on)
  {
    if ys == [] {
      assert ys + more == more;
      if more != [] {
        assert !on(x, more[0]) && more[1..] == ys + more[1..];
        LookupAppended(x, ys, more[1..], on);
      }
    } else {
      assert (ys + more)[1..] == ys[1..] + more;
      if !on(x, ys[0]) {
        LookupAppended(x, ys[1..], more, on);
      }
    }
  }

  /** Against a keyed table in which every row finds a partner, an inner join
      keeps each left row exactly once. */
  lemma {:induction false} InnerJoinKeyed<A, B>(xs: seq<A>, ys: seq<B>, on: (A, B) -> bool)
    requires forall x | x in xs :: AtMostOne(x, ys, on) && Lookup(x, ys, on).Some?
    ensures |InnerJoin(xs, ys, on)| == |xs|
    ensures forall i | 0 <= i < |xs| ::
              InnerJoin(xs, ys, on)[i] == (xs[i], Lookup(xs[i], ys, on).value)
  {
    if xs != [] {
      assert xs[0] in xs;
      MatchesKeyed(xs[0], ys, on);
      InnerJoinKeyed(xs[1..], ys, on);
    }
  }

  /** Against a keyed table, a left join keeps each left row exactly once. */
  lemma {:induction false} LeftJoinKeyed<A, B>(xs: seq<A>, ys: seq<B>, on: (A, B) -> bool)
    requires forall x | x in xs :: AtMostOne(x, ys, on)
    ensures |LeftJoin(xs, ys, on)| == |xs|
    ensures forall i | 0 <= i < |xs| :: LeftJoin(xs, ys, on)[i] == (xs[i], Lookup(xs[i], ys, on))
  {
    if xs != [] {
      assert xs[0] in xs;
      MatchesKeyed(xs[0], ys, on);
      LeftJoinKeyed(xs[1..], ys, on);
    }
  }

  lemma {:induction false} LookupIs<A, B>(x: A, ys: seq<B>, on: (A, B) -> bool, k: nat)
    requires AtMostOne(x, ys, on) && k < |ys| && on(x, ys[k])
    ensures Lookup(x, ys, on) == Some(ys[k])
  {
    if k > 0 {
      assert forall i | 0 <= i < |ys[1..]| :: ys[1..][i] == ys[i + 1];
      LookupIs(x, ys[1..], on, k - 1);
    }
  }
}
