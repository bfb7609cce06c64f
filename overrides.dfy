/**
 * The user's sparse override map of App.jsx (`userData`): ship id to a
 * record of three optional booleans, changed only by `toggleState`.
 */
module Overrides {
  import opened Wrappers

  datatype Flag = NotOwned | LevelingDone | RemodelDone

  /** One override record; each field is absent until its first toggle. */
  datatype Entry = Entry(notOwned: Option<bool>, levelingDone: Option<bool>, remodelDone: Option<bool>) {

    function Field(f: Flag): Option<bool> {
      match f
      case NotOwned => notOwned
      case LevelingDone => levelingDone
      case RemodelDone => remodelDone
    }

    function WithField(f: Flag, v: Option<bool>): (e: Entry)
      ensures e.Field(f) == v
      ensures forall g :: g != f ==> e.Field(g) == Field(g)
    {
      match f
      case NotOwned => this.(notOwned := v)
      case LevelingDone => this.(levelingDone := v)
      case RemodelDone => this.(remodelDone := v)
    }
  }

  /** `{}`: what `...prev[id]` spreads when `id` has no entry. */
  const EmptyEntry := Entry(None, None, None)

  type OverrideMap = map<string, Entry>

  /** The entry for `id`, or the empty one when there is none. */
  function EntryOf(o: OverrideMap, id: string): Entry {
    if id in o then o[id] else EmptyEntry
  }

  /** `userData[id]?.[field]` read as a truth value: absent entries and fields read as false. */
  predicate IsSet(o: OverrideMap, id: string, f: Flag) {
    EntryOf(o, id).Field(f) == Some(true)
  }

  /** The three flags of a ship as the cards read them. */
  datatype Flags = Flags(notOwned: bool, levelingDone: bool, remodelDone: bool)

  function Get(o: OverrideMap, id: string): (r: Flags)
    ensures id !in o ==> r == Flags(false, false, false)
    ensures r.notOwned == IsSet(o, id, NotOwned)
    ensures r.levelingDone == IsSet(o, id, LevelingDone)
    ensures r.remodelDone == IsSet(o, id, RemodelDone)
  {
    Flags(IsSet(o, id, NotOwned), IsSet(o, id, LevelingDone), IsSet(o, id, RemodelDone))
  }

  /**
   * `toggleState(id, field)`: a new map in which `field` of `id`'s entry is
   * the negation of what it read as before. The entry is created if needed;
   * its other fields and every other id are carried over unchanged.
   */
  function Toggle(o: OverrideMap, id: string, f: Flag): (r: OverrideMap)
    ensures r.Keys == o.Keys + {id}
    ensures IsSet(r, id, f) == !IsSet(o, id, f)
    ensures r[id].Field(f) == Some(!IsSet(o, id, f))
    ensures forall g :: g != f ==> r[id].Field(g) == EntryOf(o, id).Field(g)
    ensures forall k :: k in o && k != id ==> r[k] == o[k]
  {
    o[id := EntryOf(o, id).WithField(f, Some(!IsSet(o, id, f)))]
  }

  /** Two maps that read the same for every id and flag. */
  ghost predicate SameReading(a: OverrideMap, b: OverrideMap) {
    forall id, f :: IsSet(a, id, f) == IsSet(b, id, f)
  }

  /** A toggle changes the reading of exactly one flag of one id. */
  lemma ToggleReading(o: OverrideMap, id: string, f: Flag, id': string, g: Flag)
    ensures IsSet(Toggle(o, id, f), id', g) == if id' == id && g == f then !IsSet(o, id, f) else IsSet(o, id', g)
  {
  }

  /**
   * Toggling the same flag twice restores what every flag of every id reads
   * as, and leaves every other id's entry exactly as it was.
   */
  lemma ToggleTwice(o: OverrideMap, id: string, f: Flag)
    ensures SameReading(Toggle(Toggle(o, id, f), id, f), o)
    ensures forall k :: k in o && k != id ==> Toggle(Toggle(o, id, f), id, f)[k] == o[k]
  {
    var t := Toggle(o, id, f);
    forall id', g ensures IsSet(Toggle(t, id, f), id', g) == IsSet(o, id', g) {
      ToggleReading(t, id, f, id', g);
      ToggleReading(o, id, f, id', g);
    }
  }

  /** Toggling twice restores the entry itself once its field has been written. */
  lemma ToggleTwiceIdentity(o: OverrideMap, id: string, f: Flag)
    requires id in o && o[id].Field(f).Some?
    ensures Toggle(Toggle(o, id, f), id, f) == o
  {
    var t := Toggle(o, id, f);
    var r := Toggle(t, id, f);
    assert o[id].Field(f) == Some(IsSet(o, id, f)) by {
      assert EntryOf(o, id) == o[id];
      if o[id].Field(f).value {
        assert IsSet(o, id, f);
      } else {
        assert !IsSet(o, id, f);
      }
    }
    assert r[id].Field(f) == Some(!IsSet(t, id, f));
    assert r[id].Field(f) == o[id].Field(f);
    forall g ensures r[id].Field(g) == o[id].Field(g) {
    }
    assert r[id] == o[id] by {
      assert r[id].notOwned == o[id].Field(NotOwned);
      assert r[id].levelingDone == o[id].Field(LevelingDone);
      assert r[id].remodelDone == o[id].Field(RemodelDone);
    }
  }

  /** Toggles of different flags, or of different ids, commute: the flags are independent. */
  lemma ToggleCommutes(o: OverrideMap, a: string, f: Flag, b: string, g: Flag)
    requires a != b || f != g
    ensures Toggle(Toggle(o, a, f), b, g) == Toggle(Toggle(o, b, g), a, f)
  {
    var l, r := Toggle(Toggle(o, a, f), b, g), Toggle(Toggle(o, b, g), a, f);
    assert l.Keys == r.Keys;
    forall k | k in l ensures l[k] == r[k] {
      forall h ensures l[k].Field(h) == r[k].Field(h) {
      }
      assert l[k].notOwned == r[k].notOwned && l[k].levelingDone == r[k].levelingDone
        && l[k].remodelDone == r[k].remodelDone by {
        assert l[k].Field(NotOwned) == r[k].Field(NotOwned);
        assert l[k].Field(LevelingDone) == r[k].Field(LevelingDone);
        assert l[k].Field(RemodelDone) == r[k].Field(RemodelDone);
      }
    }
  }
}
