/** Renaming stored values and keys, one old name at a time, and undoing it
    (migrations/versions/ece296116d34_active_client_risk_system_terminology_.py and
    migrations/versions/8cd654fa2267_rename_hold_band_parked_briefly_to_.py). */
module Renames {
  datatype Rename<T> = Rename(was: T, now: T)

  /** UPDATE ... SET value = now WHERE value = was, on one value. */
  function Updated<T(==)>(v: T, r: Rename<T>): T {
    if v == r.was then r.now else v
  }

  /** The updates of a loop over the renames, one after the other. */
  function InTurn<T(==)>(v: T, rs: seq<Rename<T>>): T {
    if rs == [] then v else InTurn(Updated(v, rs[0]), rs[1..])
  }

  /** All renames read off at once: a dictionary lookup with the value as default. */
  function AtOnce<T(==)>(v: T, rs: seq<Rename<T>>): T {
    if rs == [] then v else if v == rs[0].was then rs[0].now else AtOnce(v, rs[1..])
  }

  function Reversed<T>(rs: seq<Rename<T>>): (back: seq<Rename<T>>)
    ensures |back| == |rs|
    ensures forall i | 0 <= i < |rs| :: back[i] == Rename(rs[i].now, rs[i].was)
  {
    seq(|rs|, i requires 0 <= i < |rs| => Rename(rs[i].now, rs[i].was))
  }

  ghost predicate IsOld<T>(v: T, rs: seq<Rename<T>>) { exists i | 0 <= i < |rs| :: rs[i].was == v }

  ghost predicate IsNew<T>(v: T, rs: seq<Rename<T>>) { exists i | 0 <= i < |rs| :: rs[i].now == v }

  /** Old names all different, new names all different, and no name both. */
  ghost predicate Clean<T>(rs: seq<Rename<T>>) {
    && (forall i, j | 0 <= i < j < |rs| :: rs[i].was != rs[j].was && rs[i].now != rs[j].now)
    && (forall i, j | 0 <= i < |rs| && 0 <= j < |rs| :: rs[i].was != rs[j].now)
  }

  lemma CleanTail<T>(rs: seq<Rename<T>>)
    requires Clean(rs) && rs != []
    ensures Clean(rs[1..])
    ensures forall v :: IsOld(v, rs) <==> v == rs[0].was || IsOld(v, rs[1..])
    ensures forall v :: IsNew(v, rs) <==> v == rs[0].now || IsNew(v, rs[1..])
  {
    var rest := rs[1..];
    assert forall i | 0 <= i < |rest| :: rest[i] == rs[i + 1];
    assert forall i | 0 < i < |rs| :: rs[i] == rest[i - 1];
  }

  lemma {:induction false} InTurnUntouched<T>(v: T, rs: seq<Rename<T>>)
    requires !IsOld(v, rs)
    ensures InTurn(v, rs) == v && AtOnce(v, rs) == v
  {
    if rs != [] {
      assert rs[0].was != v;
      assert forall i | 0 <= i < |rs[1..]| :: rs[1..][i] == rs[i + 1];
      InTurnUntouched(v, rs[1..]);
    }
  }

  /** With clean names the loop does what all renames at once would do. */
  lemma {:induction false} InTurnIsAtOnce<T>(v: T, rs: seq<Rename<T>>)
    requires Clean(rs)
    ensures InTurn(v, rs) == AtOnce(v, rs)
  {
    if rs != [] {
      CleanTail(rs);
      if v == rs[0].was {
        assert forall i | 0 <= i < |rs[1..]| :: rs[1..][i] == rs[i + 1];
        InTurnUntouched(rs[0].now, rs[1..]);
      } else {
        InTurnIsAtOnce(v, rs[1..]);
      }
    }
  }

  lemma {:induction false} AtOnceExact<T>(v: T, rs: seq<Rename<T>>)
    requires Clean(rs)
    ensures forall i | 0 <= i < |rs| && rs[i].was == v :: AtOnce(v, rs) == rs[i].now
    ensures !IsOld(v, rs) ==> AtOnce(v, rs) == v
  {
    if rs != [] {
      CleanTail(rs);
      assert forall i | 0 < i < |rs| :: rs[i] == rs[1..][i - 1];
      AtOnceExact(v, rs[1..]);
    }
  }

  lemma ReversedClean<T>(rs: seq<Rename<T>>)
    requires Clean(rs)
    ensures Clean(Reversed(rs))
    ensures forall v :: IsOld(v, Reversed(rs)) <==> IsNew(v, rs)
    ensures forall v :: IsNew(v, Reversed(rs)) <==> IsOld(v, rs)
  {
    var back := Reversed(rs);
    forall v ensures IsOld(v, back) <==> IsNew(v, rs) {
      if IsNew(v, rs) {
        var i :| 0 <= i < |rs| && rs[i].now == v;
        assert back[i].was == v;
      }
    }
    forall v ensures IsNew(v, back) <==> IsOld(v, rs) {
      if IsOld(v, rs) {
        var i :| 0 <= i < |rs| && rs[i].was == v;
        assert back[i].now == v;
      }
    }
  }

  lemma AtOnceBackExactly<T>(v: T, rs: seq<Rename<T>>)
    requires Clean(rs)
    ensures AtOnce(AtOnce(v, rs), Reversed(rs)) == v <==> !IsNew(v, rs)
  {
    var back := Reversed(rs);
    ReversedClean(rs);
    AtOnceExact(v, rs);
    AtOnceExact(AtOnce(v, rs), back);
    if IsOld(v, rs) {
      var i :| 0 <= i < |rs| && rs[i].was == v;
      assert back[i].was == rs[i].now;
    } else if IsNew(v, rs) {
      var i :| 0 <= i < |rs| && rs[i].now == v;
      assert back[i].was == v;
      assert rs[i].was != rs[i].now;
    }
  }

  /** Renaming a stored value and undoing it restores the value exactly when it was
      none of the new names to begin with. */
  lemma DowngradeRestoresExactly<T>(v: T, rs: seq<Rename<T>>)
    requires Clean(rs)
    ensures InTurn(InTurn(v, rs), Reversed(rs)) == v <==> !IsNew(v, rs)
  {
    ReversedClean(rs);
    InTurnIsAtOnce(v, rs);
    InTurnIsAtOnce(InTurn(v, rs), Reversed(rs));
    AtOnceBackExactly(v, rs);
  }

  /** A text column after the loop, row by row. */
  function AllInTurn<T(==)>(cells: seq<T>, rs: seq<Rename<T>>): seq<T> {
    seq(|cells|, i requires 0 <= i < |cells| => InTurn(cells[i], rs))
  }

  /** Upgrade then downgrade restores the whole column exactly when no row held one of
      the new names beforehand. */
  lemma ColumnRestoredExactly<T>(cells: seq<T>, rs: seq<Rename<T>>)
    requires Clean(rs)
    ensures AllInTurn(AllInTurn(cells, rs), Reversed(rs)) == cells <==> forall v | v in cells :: !IsNew(v, rs)
  {
    var back := AllInTurn(AllInTurn(cells, rs), Reversed(rs));
    forall i | 0 <= i < |cells| ensures back[i] == cells[i] <==> !IsNew(cells[i], rs) {
      DowngradeRestoresExactly(cells[i], rs);
    }
    if forall v | v in cells :: !IsNew(v, rs) {
      forall i | 0 <= i < |cells| ensures back[i] == cells[i] {
        assert cells[i] in cells;
      }
    }
  }

  class Column<T(==)> {
    var cells: seq<T>

    constructor (cells: seq<T>)
      ensures this.cells == cells
    {
      this.cells := cells;
    }

    method Update(r: Rename<T>)
      modifies this
      ensures |cells| == |old(cells)|
      ensures forall i | 0 <= i < |cells| :: cells[i] == Updated(old(cells)[i], r)
    {
      cells := seq(|cells|, i requires 0 <= i < |cells| reads this => Updated(cells[i], r));
    }

    method UpdateAll(rs: seq<Rename<T>>)
      modifies this
      ensures cells == AllInTurn(old(cells), rs)
    {
      for k := 0 to |rs|
        invariant |cells| == |old(cells)|
        invariant forall i | 0 <= i < |cells| :: InTurn(cells[i], rs[k..]) == InTurn(old(cells)[i], rs)
      {
        assert rs[k..][1..] == rs[k + 1..];
        Update(rs[k]);
      }
    }
  }

  // ----- Keys of a stored map -----

  /** The dictionary comprehension over the items in some order: a key met later
      overwrites an equal one met earlier. */
  function Rekeyed<K(==), V>(m: map<K, V>, order: seq<K>, rs: seq<Rename<K>>): map<K, V>
    requires forall k | k in order :: k in m
  {
    if order == [] then map[]
    else
      var k := order[|order| - 1];
      Rekeyed(m, order[..|order| - 1], rs)[AtOnce(k, rs) := m[k]]
  }

  /** Every key of the map, each once: an order a dictionary can be walked in. */
  ghost predicate Walks<K, V>(order: seq<K>, m: map<K, V>) {
    && (forall k | k in m :: k in order) && (forall k | k in order :: k in m)
    && (forall i, j | 0 <= i < j < |order| :: order[i] != order[j])
  }

  lemma {:induction false} RekeyedKeys<K, V>(m: map<K, V>, order: seq<K>, rs: seq<Rename<K>>)
    requires forall k | k in order :: k in m
    ensures forall n | n in Rekeyed(m, order, rs) :: exists k | k in order :: AtOnce(k, rs) == n
    ensures forall k | k in order :: AtOnce(k, rs) in Rekeyed(m, order, rs)
  {
    if order != [] {
      var rest, last := order[..|order| - 1], order[|order| - 1];
      RekeyedKeys(m, rest, rs);
      assert forall k :: k in order <==> k in rest || k == last;
    }
  }

  lemma {:induction false} RekeyedValues<K, V>(m: map<K, V>, order: seq<K>, rs: seq<Rename<K>>)
    requires forall k | k in order :: k in m
    requires forall k, l | k in order && l in order && AtOnce(k, rs) == AtOnce(l, rs) :: k == l
    ensures forall k | k in order :: AtOnce(k, rs) in Rekeyed(m, order, rs)
                                     && Rekeyed(m, order, rs)[AtOnce(k, rs)] == m[k]
  {
    if order != [] {
      var rest, last := order[..|order| - 1], order[|order| - 1];
      RekeyedValues(m, rest, rs);
      assert forall k :: k in order <==> k in rest || k == last;
    }
  }

  lemma RekeyLosesNewName<K, V>(m: map<K, V>, order: seq<K>, rs: seq<Rename<K>>, k: K)
    requires Clean(rs) && (forall n | n in order :: n in m) && IsNew(k, rs)
    ensures k !in Rekeyed(m, order, Reversed(rs))
  {
    ReversedClean(rs);
    RekeyedKeys(m, order, Reversed(rs));
    forall n | n in order ensures AtOnce(n, Reversed(rs)) != k {
      AtOnceExact(n, Reversed(rs));
    }
  }

  /** Each key of the rekeyed map is some key's new name. */
  lemma RekeyedFrom<K, V>(m: map<K, V>, order: seq<K>, rs: seq<Rename<K>>, l: K) returns (k: K)
    requires Walks(order, m) && l in Rekeyed(m, order, rs)
    ensures k in m && AtOnce(k, rs) == l
  {
    RekeyedKeys(m, order, rs);
    k :| k in order && AtOnce(k, rs) == l;
  }

  /** Renaming by `rs` and then by `back` returns every key of the map. */
  ghost predicate Returns<K, V>(m: map<K, V>, rs: seq<Rename<K>>, back: seq<Rename<K>>) {
    forall k | k in m :: AtOnce(AtOnce(k, rs), back) == k
  }

  /** Then the rekeyed map holds each value under its new name. */
  lemma RekeyedHolds<K, V>(m: map<K, V>, order: seq<K>, rs: seq<Rename<K>>, back: seq<Rename<K>>)
    requires Walks(order, m) && Returns(m, rs, back)
    ensures var m' := Rekeyed(m, order, rs); forall k | k in m :: AtOnce(k, rs) in m' && m'[AtOnce(k, rs)] == m[k]
    ensures Returns(Rekeyed(m, order, rs), back, rs)
  {
    RekeyedValues(m, order, rs);
    forall l | l in Rekeyed(m, order, rs) ensures AtOnce(AtOnce(l, back), rs) == l {
      var k := RekeyedFrom(m, order, rs, l);
    }
  }

  /** So rekeying twice by renames that return every key is no change. */
  lemma RekeyedTwice<K, V>(
    m: map<K, V>, order: seq<K>, rs: seq<Rename<K>>, m': map<K, V>, order': seq<K>, back: seq<Rename<K>>)
    requires Walks(order, m) && Returns(m, rs, back)
    requires m' == Rekeyed(m, order, rs) && Walks(order', m')
    ensures Rekeyed(m', order', back) == m
  {
    var again := Rekeyed(m', order', back);
    RekeyedHolds(m, order, rs, back);
    RekeyedHolds(m', order', back, rs);
    forall k | k in m ensures k in again && again[k] == m[k] {
      var l := AtOnce(k, rs);
      assert l in m' && AtOnce(l, back) == k;
    }
    forall n | n in again ensures n in m {
      var l := RekeyedFrom(m', order', back, n);
      var k := RekeyedFrom(m, order, rs, l);
      assert AtOnce(l, back) == k;
    }
  }

  lemma RekeyAndBack<K, V>(
    m: map<K, V>, order: seq<K>, rs: seq<Rename<K>>, m': map<K, V>, order': seq<K>)
    requires Clean(rs) && Walks(order, m)
    requires m' == Rekeyed(m, order, rs) && Walks(order', m')
    requires forall k | k in m :: !IsNew(k, rs)
    ensures Rekeyed(m', order', Reversed(rs)) == m
  {
    var back := Reversed(rs);
    forall k | k in m ensures AtOnce(AtOnce(k, rs), back) == k {
      AtOnceBackExactly(k, rs);
    }
    RekeyedTwice(m, order, rs, m', order', back);
  }

  /** Rekeying a stored map and rekeying it back, whatever orders the two walks take,
      restores it exactly when no key was one of the new names. */
  lemma RekeyRestoresExactly<K, V>(
    m: map<K, V>, order: seq<K>, rs: seq<Rename<K>>, m': map<K, V>, order': seq<K>)
    requires Clean(rs) && Walks(order, m)
    requires m' == Rekeyed(m, order, rs) && Walks(order', m')
    ensures Rekeyed(m', order', Reversed(rs)) == m <==> forall k | k in m :: !IsNew(k, rs)
  {
    if forall k | k in m :: !IsNew(k, rs) {
      RekeyAndBack(m, order, rs, m', order');
    } else {
      var k :| k in m && IsNew(k, rs);
      RekeyLosesNewName(m', order', rs, k);
    }
  }

  // ----- The names themselves -----

  const HOLD_BAND_RENAMES := [Rename("Parked briefly", "Under 2m")]

  const ROUTE_RENAMES := [
    Rename("dust_cleanup", "small_balance_review"),
    Rename("fa_digest_watch", "fa_watchlist"),
    Rename("automated_nurture", "auto_checkin")]

  const BALANCE_TIER_RENAMES := [Rename("Dust", "Tiny")]

  const THRESHOLD_KEY_RENAMES := [
    Rename("DRAWDOWN_HEAVY", "HEAVY_WITHDRAWAL_PCT"),
    Rename("LAPSE_MULTIPLE", "OVERDUE_MULTIPLE"),
    Rename("DECLINE_SLOPE", "SHRINKING_TREND"),
    Rename("DUST_BALANCE", "TINY_BALANCE"),
    Rename("MATERIAL_BALANCE", "WORTH_A_CALL_BALANCE"),
    Rename("FEE_RUNWAY_MONTHS", "MONTHS_UNTIL_EMPTY"),
    Rename("SYSTEM_SALE_MAX", "SYSTEM_FEE_MAX")]

  const WEIGHT_KEY_RENAMES := [
    Rename("sig_drawdown", "sig_heavy_withdrawal"),
    Rename("sig_cadence_break", "sig_broken_pattern"),
    Rename("sig_fee_erosion", "sig_going_dormant")]

  /** Every list of renames the two migrations walk is clean. */
  lemma ShippedRenamesAreClean()
    ensures Clean(HOLD_BAND_RENAMES) && Clean(ROUTE_RENAMES) && Clean(BALANCE_TIER_RENAMES)
    ensures Clean(WEIGHT_KEY_RENAMES)
  {
  }

  lemma ThresholdRenamesAreClean()
    ensures Clean(THRESHOLD_KEY_RENAMES)
  {
  }
}
