/**
 * The header totals of App.jsx (`stats`): blueprint, report and catapult
 * summed over the ships whose remodel is not marked done.
 */
module Aggregate {
  import opened Seqs
  import opened Catalog
  import opened Overrides

  datatype Totals = Totals(bp: int, report: int, catapult: int)

  /** The reduce's initial accumulator `{ bp: 0, report: 0, catapult: 0 }`. */
  const Zero := Totals(0, 0, 0)

  function Plus(a: Totals, b: Totals): Totals {
    Totals(a.bp + b.bp, a.report + b.report, a.catapult + b.catapult)
  }

  function Minus(a: Totals, b: Totals): Totals {
    Totals(a.bp - b.bp, a.report - b.report, a.catapult - b.catapult)
  }

  /** What one ship adds to the totals. */
  function Amount(s: Ship): Totals {
    Totals(s.materials.blueprint, s.materials.report, s.materials.catapult)
  }

  /** `reduce` from the left over the ships, starting at zero. */
  function Sum(ships: seq<Ship>): Totals
    decreases |ships|
  {
    if |ships| == 0 then Zero
    else Plus(Sum(ships[..|ships| - 1]), Amount(ships[|ships| - 1]))
  }

  /** The filter `s => !userData[s.id]?.remodelDone`. */
  function Incomplete(o: OverrideMap): Ship -> bool {
    (s: Ship) => !IsSet(o, s.id, RemodelDone)
  }

  /** `stats`: the totals over the ships not marked remodel-done. */
  function Stats(ships: seq<Ship>, o: OverrideMap): Totals {
    Sum(Filter(ships, Incomplete(o)))
  }

  function HasId(id: string): Ship -> bool {
    (s: Ship) => s.id == id
  }

  lemma {:induction false} SumAppend(a: seq<Ship>, b: seq<Ship>)
    ensures Sum(a + b) == Plus(Sum(a), Sum(b))
    decreases |b|
  {
    if |b| == 0 {
      assert a + b == a;
    } else {
      var ab := a + b;
      assert ab[..|ab| - 1] == a + b[..|b| - 1];
      assert ab[|ab| - 1] == b[|b| - 1];
      SumAppend(a, b[..|b| - 1]);
    }
  }

  lemma PlusRearrange(l: Totals, x: Totals, r: Totals)
    ensures Plus(Plus(l, x), r) == Plus(Plus(l, r), x)
  {
  }

  /** One step of the toggle proof, on totals alone. */
  lemma ToggleStep(before: Totals, after: Totals, d0: Totals, sx: Totals, tx: Totals, dx: Totals, done: bool)
    requires after == if done then Plus(before, d0) else Minus(before, d0)
    requires tx == if done then Plus(sx, dx) else Minus(sx, dx)
    ensures Plus(after, tx) == if done then Plus(Plus(before, sx), Plus(d0, dx)) else Minus(Plus(before, sx), Plus(d0, dx))
  {
  }

  lemma SumSingle(x: Ship)
    ensures Sum([x]) == Amount(x)
  {
    assert [x][..0] == [];
  }

  /** The totals of a file are the totals of its parts. */
  lemma StatsAppend(a: seq<Ship>, b: seq<Ship>, o: OverrideMap)
    ensures Stats(a + b, o) == Plus(Stats(a, o), Stats(b, o))
  {
    FilterAppend(a, b, Incomplete(o));
    SumAppend(Filter(a, Incomplete(o)), Filter(b, Incomplete(o)));
  }

  /** One ship counts with its amount when it is not done, and with nothing when it is. */
  lemma StatsSingle(x: Ship, o: OverrideMap)
    ensures Stats([x], o) == if IsSet(o, x.id, RemodelDone) then Zero else Amount(x)
  {
    assert [x][1..] == [];
    SumSingle(x);
  }

  /** With no ship marked done, the totals are the plain sums. */
  lemma StatsNoneDone(ships: seq<Ship>, o: OverrideMap)
    requires forall i :: 0 <= i < |ships| ==> !IsSet(o, ships[i].id, RemodelDone)
    ensures Stats(ships, o) == Sum(ships)
  {
    FilterKeepsAll(ships, Incomplete(o));
  }

  /** With every ship marked done, all three totals are zero. */
  lemma StatsAllDone(ships: seq<Ship>, o: OverrideMap)
    requires forall i :: 0 <= i < |ships| ==> IsSet(o, ships[i].id, RemodelDone)
    ensures Stats(ships, o) == Zero
  {
    FilterDropsAll(ships, Incomplete(o));
  }

  /** The totals do not depend on the order of the catalog. */
  lemma {:induction false} StatsPermutation(a: seq<Ship>, b: seq<Ship>, o: OverrideMap)
    requires multiset(a) == multiset(b)
    ensures Stats(a, o) == Stats(b, o)
    decreases |a|
  {
    if |a| == 0 {
      assert |b| == |multiset(b)| == 0;
    } else {
      var x := a[|a| - 1];
      var a' := a[..|a| - 1];
      assert a == a' + [x];
      assert x in multiset(b);
      var j :| 0 <= j < |b| && b[j] == x;
      var b' := b[..j] + b[j + 1..];
      assert b == b[..j] + [x] + b[j + 1..];
      assert multiset(b') == multiset(b) - multiset{x};
      assert multiset(a') == multiset(a) - multiset{x};
      StatsPermutation(a', b', o);
      var left, right := b[..j], b[j + 1..];
      StatsAppend(a', [x], o);
      StatsAppend(left + [x], right, o);
      StatsAppend(left, [x], o);
      StatsAppend(left, right, o);
      var sx, sl, sr := Stats([x], o), Stats(left, o), Stats(right, o);
      assert Stats(a, o) == Plus(Stats(b', o), sx);
      assert Stats(b, o) == Plus(Plus(sl, sx), sr);
      assert Stats(b', o) == Plus(sl, sr);
      PlusRearrange(sl, sx, sr);
    }
  }

  /** Totals depend only on what the map reads as, not on absent versus false fields. */
  lemma StatsSameReading(ships: seq<Ship>, a: OverrideMap, b: OverrideMap)
    requires SameReading(a, b)
    ensures Stats(ships, a) == Stats(ships, b)
  {
    FilterCongruent(ships, Incomplete(a), Incomplete(b));
  }

  /**
   * Flipping `remodelDone` of `id` moves the totals by exactly the amount of
   * the ships with that id: added back when they were done, removed when not.
   */
  lemma {:induction false} StatsToggleRemodel(ships: seq<Ship>, o: OverrideMap, id: string)
    ensures var d := Sum(Filter(ships, HasId(id)));
      Stats(ships, Toggle(o, id, RemodelDone))
        == if IsSet(o, id, RemodelDone) then Plus(Stats(ships, o), d) else Minus(Stats(ships, o), d)
    decreases |ships|
  {
    var t := Toggle(o, id, RemodelDone);
    if |ships| == 0 {
      assert Filter(ships, HasId(id)) == [];
    } else {
      var x := ships[|ships| - 1];
      var init := ships[..|ships| - 1];
      assert ships == init + [x];
      StatsToggleRemodel(init, o, id);
      StatsAppend(init, [x], o);
      StatsAppend(init, [x], t);
      StatsSingle(x, o);
      StatsSingle(x, t);
      ToggleReading(o, id, RemodelDone, x.id, RemodelDone);
      FilterAppend(init, [x], HasId(id));
      SumAppend(Filter(init, HasId(id)), Filter([x], HasId(id)));
      assert [x][1..] == [];
      SumSingle(x);
      var d, d0 := Sum(Filter(ships, HasId(id))), Sum(Filter(init, HasId(id)));
      var dx := if x.id == id then Amount(x) else Zero;
      assert Sum(Filter([x], HasId(id))) == dx;
      assert d == Plus(d0, dx);
      var sx, tx := Stats([x], o), Stats([x], t);
      assert Stats(ships, o) == Plus(Stats(init, o), sx);
      assert Stats(ships, t) == Plus(Stats(init, t), tx);
      var done := IsSet(o, id, RemodelDone);
      if x.id != id {
        assert tx == sx && dx == Zero;
      } else if done {
        assert sx == Zero && tx == Amount(x) == dx;
      } else {
        assert sx == Amount(x) == dx && tx == Zero;
      }
      assert tx == if done then Plus(sx, dx) else Minus(sx, dx);
      ToggleStep(Stats(init, o), Stats(init, t), d0, sx, tx, dx, done);
    }
  }

  /** Other flags do not enter the totals. */
  lemma StatsIgnoresOtherFlags(ships: seq<Ship>, o: OverrideMap, id: string, f: Flag)
    requires f != RemodelDone
    ensures Stats(ships, Toggle(o, id, f)) == Stats(ships, o)
  {
    var t := Toggle(o, id, f);
    forall i | 0 <= i < |ships| ensures Incomplete(t)(ships[i]) == Incomplete(o)(ships[i]) {
      ToggleReading(o, id, f, ships[i].id, RemodelDone);
    }
    FilterCongruent(ships, Incomplete(t), Incomplete(o));
  }

  /** Toggling `remodelDone` back restores the totals. */
  lemma StatsToggleTwice(ships: seq<Ship>, o: OverrideMap, id: string)
    ensures Stats(ships, Toggle(Toggle(o, id, RemodelDone), id, RemodelDone)) == Stats(ships, o)
  {
    ToggleTwice(o, id, RemodelDone);
    StatsSameReading(ships, Toggle(Toggle(o, id, RemodelDone), id, RemodelDone), o);
  }

  /**
   * For a ship whose id no other ship shares, marking it done removes exactly
   * its blueprint, report and catapult from the totals.
   */
  lemma StatsToggleUniqueShip(ships: seq<Ship>, o: OverrideMap, i: nat)
    requires i < |ships|
    requires forall j :: 0 <= j < |ships| && j != i ==> ships[j].id != ships[i].id
    ensures var id := ships[i].id;
      Stats(ships, Toggle(o, id, RemodelDone))
        == if IsSet(o, id, RemodelDone) then Plus(Stats(ships, o), Amount(ships[i]))
           else Minus(Stats(ships, o), Amount(ships[i]))
  {
    var id := ships[i].id;
    var p := HasId(id);
    var before, after := ships[..i], ships[i + 1..];
    assert ships == before + [ships[i]] + after;
    FilterDropsAll(before, p);
    FilterDropsAll(after, p);
    FilterAppend(before + [ships[i]], after, p);
    FilterAppend(before, [ships[i]], p);
    assert [ships[i]][1..] == [];
    assert Filter(ships, p) == [ships[i]];
    SumSingle(ships[i]);
    StatsToggleRemodel(ships, o, id);
  }
}
