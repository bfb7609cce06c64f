/**
 * The session state of the tracker component in App.jsx: the loaded
 * catalog, the override map, the language and the filter switch, with the
 * local-storage slot that mirrors the override map after every change.
 */
module App {
  import opened Wrappers
  import opened Seqs
  import opened Catalog
  import opened Overrides
  import opened Aggregate
  import opened Export

  class Tracker {
    var masterShips: seq<Ship>
    var userData: OverrideMap
    var language: Language
    var showIncompleteOnly: bool
    /** The stored copy of `userData` (its JSON text is not modelled). */
    var stored: Option<OverrideMap>

    /** The storage effect has run: what is stored is the current map. */
    ghost predicate Valid()
      reads this
    {
      stored == Some(userData)
    }

    /**
     * Mount: the catalog is empty until it loads, the map is whatever was
     * stored (or empty), the language is Korean and every ship is shown.
     */
    constructor (saved: Option<OverrideMap>)
      ensures Valid()
      ensures masterShips == [] && userData == saved.GetOr(map[])
      ensures language == Kr && !showIncompleteOnly
    {
      masterShips := [];
      userData := saved.GetOr(map[]);
      language := Kr;
      showIncompleteOnly := false;
      stored := Some(saved.GetOr(map[]));
    }

    /** The catalog fetch completed with `text`. */
    method Load(text: string)
      modifies this`masterShips
      ensures masterShips == ParseCatalog(text)
    {
      masterShips := ParseCatalog(text);
    }

    /**
     * `toggleState(id, field)`, followed by the effect that writes the whole
     * map back to storage. The header totals move only when `remodelDone`
     * is toggled, by the amount of the ships with that id.
     */
    method ToggleState(id: string, f: Flag)
      requires Valid()
      modifies this`userData, this`stored
      ensures Valid()
      ensures userData == Toggle(old(userData), id, f)
      ensures f != RemodelDone ==> Stats(masterShips, userData) == old(Stats(masterShips, userData))
      ensures f == RemodelDone ==>
        var d := Sum(Filter(masterShips, HasId(id)));
        Stats(masterShips, userData)
          == if old(IsSet(userData, id, RemodelDone)) then Plus(old(Stats(masterShips, userData)), d)
             else Minus(old(Stats(masterShips, userData)), d)
    {
      if f == RemodelDone {
        StatsToggleRemodel(masterShips, userData, id);
      } else {
        StatsIgnoresOtherFlags(masterShips, userData, id, f);
      }
      userData := Toggle(userData, id, f);
      stored := Some(userData);
    }
  }
}
