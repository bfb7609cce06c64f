/**
 * The export view of components/h2c.jsx: the per-card display decisions of
 * `renderExportCard`, the per-group selection of `renderGroup`, and the
 * header totals.
 */
module Export {
  import opened Wrappers
  import opened Seqs
  import opened Catalog
  import opened Overrides
  import opened Aggregate
  import opened Groups

  datatype Language = Kr | Jp | En

  function NameIn(n: Names, lang: Language): string {
    match lang
    case En => n.en
    case Jp => n.jp
    case Kr => n.kr
  }

  /** `ship.names[language] || ship.names.en`: an empty name falls back to English. */
  function DisplayName(n: Names, lang: Language): (r: string)
    ensures NameIn(n, lang) != [] ==> r == NameIn(n, lang)
    ensures NameIn(n, lang) == [] ==> r == n.en
  {
    if NameIn(n, lang) != [] then NameIn(n, lang) else n.en
  }

  /** The name shown is blank only when both the chosen and the English name are. */
  lemma DisplayNameBlank(n: Names, lang: Language)
    ensures DisplayName(n, lang) == [] <==> NameIn(n, lang) == [] && n.en == []
    ensures DisplayName(n, En) == n.en
  {
  }

  /** The status marker in the card's right corner. */
  datatype Marker = Check | Cross | Circle | NoMarker

  /** The ternary chain: done wins over not-owned, which wins over leveled. */
  function StatusMarker(f: Flags): (m: Marker)
    ensures m == Check <==> f.remodelDone
    ensures m == Cross <==> !f.remodelDone && f.notOwned
    ensures m == Circle <==> !f.remodelDone && !f.notOwned && f.levelingDone
    ensures m == NoMarker <==> !f.remodelDone && !f.notOwned && !f.levelingDone
  {
    if f.remodelDone then Check
    else if f.notOwned then Cross
    else if f.levelingDone then Circle
    else NoMarker
  }

  datatype BadgeStyle = DoneStyle | PendingStyle

  datatype Badge = Badge(level: int, style: BadgeStyle)

  /** The `Lv.` badge: shown for a positive level, in the done style once leveling is done. */
  function LevelBadge(level: int, levelingDone: bool): (r: Option<Badge>)
    ensures r.Some? <==> level > 0
    ensures r.Some? ==> r.value.level == level && (r.value.style == DoneStyle <==> levelingDone)
  {
    if level > 0 then Some(Badge(level, if levelingDone then DoneStyle else PendingStyle)) else None
  }

  /** The `(key, count)` entries of `keys` whose count is positive, in order. */
  function ShownEntries(m: Materials, keys: seq<MaterialKey>): (r: seq<(MaterialKey, int)>)
    ensures |r| <= |keys|
    decreases |keys|
  {
    if |keys| == 0 then []
    else
      (if Count(m, keys[0]) > 0 then [(keys[0], Count(m, keys[0]))] else [])
      + ShownEntries(m, keys[1..])
  }

  function KeysOf(entries: seq<(MaterialKey, int)>): (r: seq<MaterialKey>)
    ensures |r| == |entries|
    ensures forall i :: 0 <= i < |r| ==> r[i] == entries[i].0
  {
    seq(|entries|, i requires 0 <= i < |entries| => entries[i].0)
  }

  function Positive(m: Materials): MaterialKey -> bool {
    k => Count(m, k) > 0
  }

  /**
   * The listed materials are exactly the keys with a positive count, in key
   * order, each with its count.
   */
  lemma {:induction false} ShownEntriesSpec(m: Materials, keys: seq<MaterialKey>)
    ensures KeysOf(ShownEntries(m, keys)) == Filter(keys, Positive(m))
    ensures forall i :: 0 <= i < |ShownEntries(m, keys)| ==>
      ShownEntries(m, keys)[i].1 == Count(m, ShownEntries(m, keys)[i].0) > 0
    decreases |keys|
  {
    if |keys| > 0 {
      ShownEntriesSpec(m, keys[1..]);
      var r, rest := ShownEntries(m, keys), ShownEntries(m, keys[1..]);
      var head := if Count(m, keys[0]) > 0 then [(keys[0], Count(m, keys[0]))] else [];
      assert r == head + rest;
      assert KeysOf(r) == KeysOf(head) + KeysOf(rest);
      forall i | 0 <= i < |r| ensures r[i].1 == Count(m, r[i].0) > 0 {
        if i >= |head| {
          assert r[i] == rest[i - |head|];
        }
      }
    }
  }

  /**
   * `Object.entries(ship.materials)` without the entries whose count is not
   * positive: exactly the keys with a positive count, in key order, each with
   * its count.
   */
  function VisibleMaterials(m: Materials): (r: seq<(MaterialKey, int)>)
    ensures KeysOf(r) == Filter(MaterialOrder, Positive(m))
    ensures forall i :: 0 <= i < |r| ==> r[i].1 == Count(m, r[i].0) > 0
  {
    ShownEntriesSpec(m, MaterialOrder);
    ShownEntries(m, MaterialOrder)
  }

  /** A card lists a material exactly when its count is positive. */
  lemma VisibleMaterialsSpec(m: Materials, k: MaterialKey)
    ensures k in KeysOf(VisibleMaterials(m)) <==> Count(m, k) > 0
  {
    assert MaterialOrder[MaterialColumn(k) - MinColumns] == k;
    FilterMember(MaterialOrder, Positive(m), k);
  }

  /** What `renderExportCard` decides for one ship. */
  datatype Card = Card(
    id: string, name: string, dimmed: bool, badge: Option<Badge>,
    materials: seq<(MaterialKey, int)>, marker: Marker)

  function ExportCard(ship: Ship, o: OverrideMap, lang: Language): (c: Card)
    ensures c.id == ship.id
    ensures c.name == DisplayName(ship.names, lang)
    ensures c.dimmed == IsSet(o, ship.id, RemodelDone)
    ensures c.dimmed <==> c.marker == Check
    ensures c.marker == StatusMarker(Get(o, ship.id))
    ensures c.badge == LevelBadge(ship.remodelLevel, IsSet(o, ship.id, LevelingDone))
    ensures c.materials == VisibleMaterials(ship.materials)
  {
    var f := Get(o, ship.id);
    Card(ship.id, DisplayName(ship.names, lang), f.remodelDone,
      LevelBadge(ship.remodelLevel, f.levelingDone),
      VisibleMaterials(ship.materials), StatusMarker(f))
  }

  /** The export view's filter, written out separately in h2c.jsx. */
  function ExportKeeps(g: Group, o: OverrideMap, incompleteOnly: bool): Ship -> bool {
    (ship: Ship) =>
      if incompleteOnly && IsSet(o, ship.id, RemodelDone) then false
      else ship.shipType in g.types
  }

  /** `renderGroup`: the group's cards in catalog order, or nothing for an empty selection. */
  function RenderGroup(g: Group, ships: seq<Ship>, o: OverrideMap, incompleteOnly: bool, lang: Language)
    : (r: Option<seq<Card>>)
    ensures r.Some? ==> |r.value| > 0
  {
    var groupShips := Filter(ships, ExportKeeps(g, o, incompleteOnly));
    if |groupShips| == 0 then None else Some(Cards(groupShips, o, lang))
  }

  /** `groupShips.map(ship => renderExportCard(ship))` */
  function Cards(ships: seq<Ship>, o: OverrideMap, lang: Language): (r: seq<Card>)
    ensures |r| == |ships|
    ensures forall i :: 0 <= i < |r| ==> r[i] == ExportCard(ships[i], o, lang)
  {
    seq(|ships|, i requires 0 <= i < |ships| => ExportCard(ships[i], o, lang))
  }

  /** `groups.map(group => renderGroup(group))` */
  function RenderExport(ships: seq<Ship>, o: OverrideMap, incompleteOnly: bool, lang: Language)
    : (r: seq<Option<seq<Card>>>)
    ensures |r| == |ShipGroups|
    ensures forall i :: 0 <= i < |r| ==> r[i] == RenderGroup(ShipGroups[i], ships, o, incompleteOnly, lang)
  {
    seq(|ShipGroups|, i requires 0 <= i < |ShipGroups| => RenderGroup(ShipGroups[i], ships, o, incompleteOnly, lang))
  }

  /**
   * The exported image shows the same groups, with the same ships in the same
   * order, as the main list for the same catalog, map and filter.
   */
  lemma RenderGroupMatchesMainView(g: Group, ships: seq<Ship>, o: OverrideMap, incompleteOnly: bool, lang: Language)
    ensures RenderGroup(g, ships, o, incompleteOnly, lang).None? <==> GroupSection(g, ships, o, incompleteOnly).None?
    ensures RenderGroup(g, ships, o, incompleteOnly, lang).Some? ==>
      RenderGroup(g, ships, o, incompleteOnly, lang).value == Cards(GroupSection(g, ships, o, incompleteOnly).value, o, lang)
  {
    FilterCongruent(ships, ExportKeeps(g, o, incompleteOnly), MainKeeps(g, o, incompleteOnly));
  }

  /** The header's figures: blueprint and report always, catapult only when positive. */
  function HeaderTotals(t: Totals): (r: seq<(MaterialKey, int)>)
    ensures |r| >= 2 && r[0] == (Blueprint, t.bp) && r[1] == (Report, t.report)
    ensures |r| == 3 <==> t.catapult > 0
    ensures |r| <= 3 && (|r| == 3 ==> r[2] == (Catapult, t.catapult))
  {
    [(Blueprint, t.bp), (Report, t.report)] + (if t.catapult > 0 then [(Catapult, t.catapult)] else [])
  }

  /** Once every ship is done the header shows two zeros and no catapult. */
  lemma HeaderAllDone(ships: seq<Ship>, o: OverrideMap)
    requires forall i :: 0 <= i < |ships| ==> IsSet(o, ships[i].id, RemodelDone)
    ensures HeaderTotals(Stats(ships, o)) == [(Blueprint, 0), (Report, 0)]
  {
    StatsAllDone(ships, o);
  }
}
