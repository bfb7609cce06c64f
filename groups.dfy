/**
 * The main list of App.jsx: the fixed `SHIP_GROUPS` table and, per group,
 * the catalog-order selection of its ships, optionally without the ships
 * whose remodel is done.
 */
module Groups {
  import opened Wrappers
  import opened Seqs
  import opened Catalog
  import opened Overrides

  datatype Group = Group(title: string, types: seq<string>)

  /** `SHIP_GROUPS`, in display order. */
  const ShipGroups: seq<Group> := [
    Group("BB/BC", ["BB", "FBB", "BBV", "XBB"]),
    Group("CV/CVL", ["CV", "CVB", "CVL"]),
    Group("CA", ["CA", "CAV"]),
    Group("AV/AO/AS..", ["AV", "AS", "LHA", "AO", "AR"]),
    Group("DE", ["DE"]),
    Group("CL", ["CL", "CLT", "CT"]),
    Group("DD", ["DD"]),
    Group("SS", ["SS", "SSV"])
  ]

  /** The main list's filter: hide done ships when asked to, otherwise keep the type matches. */
  function MainKeeps(g: Group, o: OverrideMap, incompleteOnly: bool): Ship -> bool {
    (ship: Ship) =>
      if incompleteOnly && IsSet(o, ship.id, RemodelDone) then false
      else ship.shipType in g.types
  }

  function TypeMatches(g: Group): Ship -> bool {
    (ship: Ship) => ship.shipType in g.types
  }

  /** `groupShips`: the catalog's ships kept by the filter, in catalog order. */
  function GroupShips(g: Group, ships: seq<Ship>, o: OverrideMap, incompleteOnly: bool): (r: seq<Ship>)
    ensures |r| <= |ships|
    ensures forall ship :: ship in r ==> ship in ships && ship.shipType in g.types
    ensures incompleteOnly ==> forall ship :: ship in r ==> !IsSet(o, ship.id, RemodelDone)
  {
    Filter(ships, MainKeeps(g, o, incompleteOnly))
  }

  /** One group's section of the list; `None` (nothing rendered) when it has no ships. */
  function GroupSection(g: Group, ships: seq<Ship>, o: OverrideMap, incompleteOnly: bool): (r: Option<seq<Ship>>)
    ensures r.None? <==> forall i :: 0 <= i < |ships| ==> !MainKeeps(g, o, incompleteOnly)(ships[i])
    ensures r.Some? ==> |r.value| > 0
    ensures r.Some? ==> r.value == GroupShips(g, ships, o, incompleteOnly)
  {
    FilterEmpty(ships, MainKeeps(g, o, incompleteOnly));
    var groupShips := GroupShips(g, ships, o, incompleteOnly);
    if |groupShips| == 0 then None else Some(groupShips)
  }

  /** `SHIP_GROUPS.map(...)`: one entry per group, in the table's order. */
  function MainList(ships: seq<Ship>, o: OverrideMap, incompleteOnly: bool): (r: seq<Option<seq<Ship>>>)
    ensures |r| == |ShipGroups|
    ensures forall i :: 0 <= i < |r| ==> r[i] == GroupSection(ShipGroups[i], ships, o, incompleteOnly)
  {
    seq(|ShipGroups|, i requires 0 <= i < |ShipGroups| => GroupSection(ShipGroups[i], ships, o, incompleteOnly))
  }

  /** A ship is listed under a group exactly when it is in the catalog, has one of the group's types, and is not hidden as done. */
  lemma GroupShipsMember(g: Group, ships: seq<Ship>, o: OverrideMap, incompleteOnly: bool, ship: Ship)
    ensures ship in GroupShips(g, ships, o, incompleteOnly)
        <==> ship in ships && ship.shipType in g.types && !(incompleteOnly && IsSet(o, ship.id, RemodelDone))
  {
    FilterMember(ships, MainKeeps(g, o, incompleteOnly), ship);
  }

  /** With "incomplete only" on, no listed ship is marked done. */
  lemma IncompleteOnlyHidesDone(g: Group, ships: seq<Ship>, o: OverrideMap, i: nat)
    requires i < |GroupShips(g, ships, o, true)|
    ensures !IsSet(o, GroupShips(g, ships, o, true)[i].id, RemodelDone)
  {
    GroupShipsMember(g, ships, o, true, GroupShips(g, ships, o, true)[i]);
  }

  /** With "incomplete only" off, the list is exactly the type matches, done or not. */
  lemma ShowAllIsTypeMatch(g: Group, ships: seq<Ship>, o: OverrideMap)
    ensures GroupShips(g, ships, o, false) == Filter(ships, TypeMatches(g))
  {
    FilterCongruent(ships, MainKeeps(g, o, false), TypeMatches(g));
  }

  /** The selection keeps catalog order: it distributes over concatenation. */
  lemma GroupShipsAppend(g: Group, a: seq<Ship>, b: seq<Ship>, o: OverrideMap, incompleteOnly: bool)
    ensures GroupShips(g, a + b, o, incompleteOnly) == GroupShips(g, a, o, incompleteOnly) + GroupShips(g, b, o, incompleteOnly)
  {
    FilterAppend(a, b, MainKeeps(g, o, incompleteOnly));
  }

  /** No type code belongs to two groups. */
  lemma GroupTypesDisjoint(i: nat, j: nat, t: string)
    requires i < j < |ShipGroups|
    requires t in ShipGroups[i].types
    ensures t !in ShipGroups[j].types
  {
  }

  /** A ship is listed under at most one group. */
  lemma ShipInAtMostOneGroup(ships: seq<Ship>, o: OverrideMap, incompleteOnly: bool, ship: Ship, i: nat, j: nat)
    requires i < |ShipGroups| && j < |ShipGroups|
    requires ship in GroupShips(ShipGroups[i], ships, o, incompleteOnly)
    requires ship in GroupShips(ShipGroups[j], ships, o, incompleteOnly)
    ensures i == j
  {
    GroupShipsMember(ShipGroups[i], ships, o, incompleteOnly, ship);
    GroupShipsMember(ShipGroups[j], ships, o, incompleteOnly, ship);
    if i < j {
      GroupTypesDisjoint(i, j, ship.shipType);
    } else if j < i {
      GroupTypesDisjoint(j, i, ship.shipType);
    }
  }

  /** A ship whose type no group lists is never shown. */
  lemma UnlistedTypeNeverShown(ships: seq<Ship>, o: OverrideMap, incompleteOnly: bool, ship: Ship, i: nat)
    requires i < |ShipGroups|
    requires forall j :: 0 <= j < |ShipGroups| ==> ship.shipType !in ShipGroups[j].types
    ensures ship !in GroupShips(ShipGroups[i], ships, o, incompleteOnly)
  {
    GroupShipsMember(ShipGroups[i], ships, o, incompleteOnly, ship);
  }
}
