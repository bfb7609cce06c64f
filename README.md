# Remodel tracker: catalog, overrides and derived views

A Dafny model of the logic inside a single-page ship-remodel tracker (two
React components). It covers:

- the **catalog loader**: the text of `ships.csv` is trimmed, split into lines,
  each line split on `,` with every field trimmed, lines with fewer than six
  fields dropped, and the rest mapped by position to `id`, the three names,
  `type`, `remodelLevel` and eleven material counts, each read as
  `Number(x) || 0` (`catalog.dfy`, built on `text.dfy`);
- the **override map** `userData`: ship id to a record of three optional
  booleans, changed only by `toggleState` (`overrides.dfy`);
- the **header totals** `stats`: blueprint, report and catapult summed over
  the ships whose remodel is not done (`stats.dfy`, module `Aggregate`);
- the **main list**: the fixed `SHIP_GROUPS` table and the per-group,
  catalog-order selection with the "incomplete only" switch (`groups.dfy`);
- the **export view** of `components/h2c.jsx`: `renderGroup`, and from
  `renderExportCard` the name fallback, the status marker, the level badge and
  the list of materials, plus the header figures (`export.dfy`);
- the **session state** of the main component as the class `App.Tracker`:
  catalog, map, language and filter switch, and the storage slot that the
  write-back effect keeps equal to the map (`app.dfy`).

`seqs.dfy` holds `Array.prototype.filter` on sequences, and `map` followed by
dropping the absent results, with their lemmas;
and `wrappers.dfy` the `Option` type that stands for `null`/`undefined`.

Three behaviours of the code that the model keeps as written:

- The stored map is decoded by an unguarded `JSON.parse` (App.jsx:183), so a
  corrupt stored value throws. The constructor takes the decoded map, or
  `None` when nothing was stored, and no recovery is modelled.
- Levels and material counts are never checked for sign, so the model reads
  them as any `int`, negatives included.
- The English name is shown whenever the chosen name is `""`
  (h2c.jsx:29), not only when the language has no entry.

## Model

| member | source | states |
|---|---|---|
| `Text.TrimStart` | src/App.jsx:192 | the result is the longest suffix of the input that does not start with whitespace; everything removed is whitespace |
| `Text.TrimEnd` | src/App.jsx:192 | the result is the longest prefix of the input that does not end with whitespace; everything removed is whitespace |
| `Text.Trim` | src/App.jsx:190 | the trimmed text starts and ends with a non-whitespace character, or is empty |
| `Text.TrimRemovesBlankEnds` | src/App.jsx:190 | trim only removes whitespace, and only at the two ends: the result is a slice of the input with blank text on either side |
| `Text.TrimUnique` | src/App.jsx:192 | trim is determined by that: blank prefix + trimmed middle + blank suffix trims to the middle |
| `Text.TrimIdempotent` | src/App.jsx:192 | trimming a field twice is the same as trimming it once |
| `Text.TrimBlank` | src/App.jsx:190 | a blank text trims to the empty string |
| `Text.Split` | src/App.jsx:190 | `split` with a one-character separator gives at least one piece, and no piece contains the separator |
| `Text.SplitJoin` | src/App.jsx:190 | joining the pieces with the separator gives back the text: the split loses nothing |
| `Text.JoinSplit` | src/App.jsx:192 | splitting a join of separator-free pieces gives back exactly those pieces |
| `Text.SplitWithoutSeparator` | src/App.jsx:190 | a text without the separator splits into one piece, itself |
| `Text.NumberOrZero` | src/App.jsx:198 | a non-numeric field (empty, letters, ...) reads as 0; an unsigned decimal reads as a non-negative value and a `-` decimal as a non-positive one; `NumberOrZeroSpellings` gives the value of every spelling |
| `Text.NumberOrZeroSpellings` | src/App.jsx:198 | a digit string reads as its decimal value, a leading `+` or a leading zero does not change the value, and a leading `-` negates it |
| `Text.NumberOrZeroRoundTrip` | src/App.jsx:198-210 | any integer written in decimal reads back as that integer |
| `Catalog.Fields` | src/App.jsx:192 | a line has one field per comma-separated piece, so at least one; field i is piece i trimmed, and carries no leading or trailing whitespace |
| `Catalog.NumberAt` | src/App.jsx:198-210 | `Number(cols[i]) \|\| 0`: a column past the end (`undefined`) reads as 0, any other column as its `NumberOrZero` |
| `Catalog.ShipOf` | src/App.jsx:194-212 | the record takes `id`, the three names and `type` from columns 0-4, the level from column 5 and every material from its column in key order (`MaterialColumn`) |
| `Catalog.ParseLine` | src/App.jsx:192-193 | a line is dropped exactly when it has fewer than six fields |
| `Catalog.ParseLineTextFields` | src/App.jsx:194-197 | for a kept line, `id`, `names.en/jp/kr` and `type` are exactly the trimmed fields 0, 1-3 and 4 |
| `Catalog.MaterialColumn` | src/App.jsx:199-211 | a material's column is 6 plus its position in the key order blueprint, report, catapult, gunMat, airMat, armMat, devMat, torch, boiler, osmat, screw |
| `Catalog.ParseLineNumbers` | src/App.jsx:198-210 | for a kept line, the level is `Number(field 5) \|\| 0` and each material is the same read of its column from that key order; a missing column reads as 0 |
| `Catalog.ParseRows` | src/App.jsx:191-213 | never more records than lines; `ParseRowsKeptLines` states which records, and `ParseRowsAppend` that file order is kept |
| `Catalog.ParseCatalog` | src/App.jsx:190-213 | at most one record per line of the trimmed text; `ParseRowsKeptLines`, `ParseCatalogBlank` and `ParseRenderCatalog` state which records, for blank input and as the inverse of writing a catalog |
| `Seqs.FilterMapKept` | src/App.jsx:191-213 | mapping lines and dropping the `null`s leaves exactly the lines that gave a result, each paired with its result, in order |
| `Catalog.ParseRowsKeptLines` | src/App.jsx:191-213 | the catalog has one record per line with at least six fields, in file order, and each record is that line's parse |
| `Catalog.ParseRowsAppend` | src/App.jsx:191-213 | parsing distributes over the lines of a file, so records keep file order |
| `Catalog.ParseCatalogBlank` | src/App.jsx:190-193 | an empty or blank file gives an empty catalog (its trim `""` is one line of one field) |
| `Catalog.FieldsOfJoin` | src/App.jsx:192 | a line built from trimmed, comma-free fields splits back into exactly those fields |
| `Catalog.ParseLineOfJoin` | src/App.jsx:192-212 | such a line of at least six fields loads as the record built from those fields |
| `Catalog.ParseRenderLine` | src/App.jsx:192-212 | writing a well-formed record as a line and loading it gives back the record |
| `Catalog.ParseRenderCatalog` | src/App.jsx:190-213 | writing well-formed records one per line and loading the text gives back the same records in the same order |
| `Catalog.FubukiExample` | src/App.jsx:192-212 | the Fubuki line loads as id S001, English name Fubuki, type DD, level 2, blueprint 1, report 2, devMat 1, other materials 0 |
| `Overrides.Entry.WithField` | src/App.jsx:229-232 | writing one field of an entry sets that field and keeps the other two |
| `Overrides.EntryOf` | src/App.jsx:230 | no contract of its own: `prev[id]`, with the empty entry `{}` spread when `id` has none; `Toggle` states how a toggle reads and writes it |
| `Overrides.IsSet` | src/components/h2c.jsx:32-34 | no contract of its own: `userData[id]?.[field]` as a truth value, true only for a stored `true`; `Get` and `ToggleReading` state its readings |
| `Overrides.Get` | src/components/h2c.jsx:32-34 | a ship's flags read as true only when stored as true; an id without an entry reads all false |
| `Overrides.Toggle` | src/App.jsx:226-234 | the toggled field becomes the negation of what it read as, absent read as false; the entry's other fields are kept; every other id's entry is unchanged; the id gains an entry |
| `Overrides.ToggleReading` | src/App.jsx:226-234 | after a toggle, only the toggled flag of the toggled id reads differently |
| `Overrides.ToggleTwice` | src/App.jsx:226-234 | toggling a flag twice restores what every flag of every id reads as, and every other id's entry |
| `Overrides.ToggleTwiceIdentity` | src/App.jsx:226-234 | once the field has been written, toggling it twice gives back the very same map |
| `Overrides.ToggleCommutes` | src/App.jsx:226-234 | toggles of different flags or different ids commute: the three flags are independent |
| `Aggregate.SumAppend` | src/App.jsx:239-243 | the reduce's sum of a concatenation is the sum of the sums |
| `Aggregate.Incomplete` | src/App.jsx:238 | no contract of its own: the memo's filter `!userData[s.id]?.remodelDone`; `StatsSingle`, `StatsSameReading` and `StatsIgnoresOtherFlags` state what it keeps |
| `Aggregate.Sum` | src/App.jsx:239-243 | no contract of its own: the left `reduce` from zero; `SumAppend` states it adds up over concatenation |
| `Aggregate.Stats` | src/App.jsx:236-244 | no contract of its own: the `stats` memo; `StatsAppend`, `StatsPermutation`, `StatsAllDone`, `StatsNoneDone` and `StatsToggleRemodel` state its properties |
| `Aggregate.StatsAppend` | src/App.jsx:236-244 | the totals of a catalog are the totals of its parts |
| `Aggregate.StatsSingle` | src/App.jsx:238-243 | one ship adds its blueprint, report and catapult when not done, and nothing when done |
| `Aggregate.StatsNoneDone` | src/App.jsx:236-244 | ships with no entry or no done flag all count: with none done the totals are the plain sums |
| `Aggregate.StatsAllDone` | src/App.jsx:236-244 | when every ship is done all three totals are zero |
| `Aggregate.StatsPermutation` | src/App.jsx:236-244 | the totals do not depend on the order of the catalog |
| `Aggregate.StatsSameReading` | src/App.jsx:238 | the totals depend only on what the flags read as (absent and false are the same) |
| `Aggregate.StatsToggleRemodel` | src/App.jsx:236-244 | toggling `remodelDone` of an id moves each total by exactly the amount of the ships with that id: added back if they were done, removed if not |
| `Aggregate.StatsToggleUniqueShip` | src/App.jsx:236-244 | for a ship whose id is unique, marking it done removes exactly its blueprint, report and catapult, and unmarking adds them back |
| `Aggregate.StatsIgnoresOtherFlags` | src/App.jsx:238 | toggling `notOwned` or `levelingDone` leaves the totals unchanged |
| `Aggregate.StatsToggleTwice` | src/App.jsx:236-244 | toggling `remodelDone` back restores the totals |
| `Groups.GroupSection` | src/App.jsx:386-394 | a group renders nothing exactly when no ship passes its filter, and otherwise a non-empty list that is exactly its `GroupShips` |
| `Groups.MainKeeps` | src/App.jsx:386-392 | no contract of its own: the main list's filter; `GroupShipsMember` states which ships it keeps |
| `Groups.GroupShips` | src/App.jsx:386-392 | `groupShips`: no more ships than the catalog, each one from the catalog and of one of the group's types, and none marked done when "incomplete only" is on |
| `Groups.MainList` | src/App.jsx:385-416 | the main list has one entry per group of the table, and entry i is the section of the i-th group |
| `Groups.GroupShipsMember` | src/App.jsx:386-392 | a ship is listed under a group iff it is in the catalog, its type is one of the group's, and it is not hidden as done |
| `Groups.IncompleteOnlyHidesDone` | src/App.jsx:390 | with "incomplete only" on, no listed ship is marked done |
| `Groups.ShowAllIsTypeMatch` | src/App.jsx:386-392 | with "incomplete only" off, the list is exactly the catalog-order type matches, done or not |
| `Groups.GroupShipsAppend` | src/App.jsx:386-392 | the selection distributes over concatenation, so it keeps catalog order |
| `Groups.GroupTypesDisjoint` | src/App.jsx:6-15 | no type code appears in two groups of `SHIP_GROUPS` |
| `Groups.ShipInAtMostOneGroup` | src/App.jsx:6-15 | a ship is listed under at most one group |
| `Groups.UnlistedTypeNeverShown` | src/App.jsx:6-15 | a ship whose type no group lists is never shown |
| `Export.DisplayName` | src/components/h2c.jsx:29 | the name shown is the chosen language's name when it is non-empty, otherwise the English one |
| `Export.DisplayNameBlank` | src/components/h2c.jsx:29 | the name shown is blank only when both names are blank; in English it is always the English name |
| `Export.StatusMarker` | src/components/h2c.jsx:93-108 | exactly one marker: a check iff done; an X iff not done and not owned; a circle iff neither and leveled; none otherwise |
| `Export.LevelBadge` | src/components/h2c.jsx:68-72 | the badge appears iff the level is positive, shows that level, and uses the done style iff leveling is done |
| `Export.ShownEntries` | src/components/h2c.jsx:78-86 | never more entries listed than keys |
| `Export.ShownEntriesSpec` | src/components/h2c.jsx:78-86 | the listed keys are exactly the keys with a positive count, in key order, each with its count |
| `Export.VisibleMaterials` | src/components/h2c.jsx:78-86 | the listed keys are exactly the keys with a positive count, in the record's key order, each with its count |
| `Export.VisibleMaterialsSpec` | src/components/h2c.jsx:78-86 | a card lists a material iff its count is positive |
| `Export.ExportCard` | src/components/h2c.jsx:28-111 | a card carries its ship's id. Its name follows the fallback rule (`DisplayName`), and its badge follows this ship's level and leveling flag (`LevelBadge`). Its materials are the visible ones (`VisibleMaterials`), and its marker is the one for this ship's flags (`StatusMarker`). It is dimmed exactly when this ship is remodel-done, which is exactly when it carries the check |
| `Export.ExportKeeps` | src/components/h2c.jsx:114-119 | no contract of its own: the export's copy of the group filter; `RenderGroupMatchesMainView` states that it selects what the main list's filter selects |
| `Export.RenderGroup` | src/components/h2c.jsx:113-134 | a rendered group is never an empty list |
| `Export.RenderExport` | src/components/h2c.jsx:156 | the export has one entry per group of the table, and entry i is the rendering of the i-th group |
| `Export.Cards` | src/components/h2c.jsx:130 | `groupShips.map(renderExportCard)`: one card per listed ship, and card i is the `ExportCard` of ship i |
| `Export.RenderGroupMatchesMainView` | src/components/h2c.jsx:113-121 | the export renders a group iff the main list does, and its cards are the cards of exactly the ships the main list shows, in the same order |
| `Export.HeaderTotals` | src/components/h2c.jsx:148-152 | blueprint and report are always shown, catapult only when its total is positive |
| `Export.HeaderAllDone` | src/components/h2c.jsx:148-152 | once every ship is done the header shows two zeros and no catapult |
| `App.Tracker.constructor` | src/App.jsx:180-186 | on mount the catalog is empty, the map is the stored one or empty, the language is Korean, the filter is off, and storage holds the map |
| `App.Tracker.Load` | src/App.jsx:188-216 | after the fetch the catalog is the parse of the fetched text |
| `App.Tracker.ToggleState` | src/App.jsx:218-234 | the map becomes the toggled map and storage holds it; the totals move only for `remodelDone`, by the amount of the ships with that id |

## Left out

- The fetch of `ships.csv` and its asynchrony: the model starts from the fetched text (`Load`).
- `localStorage` and `JSON.stringify`/`JSON.parse`: storage is a field holding the map itself, not its JSON text. A stored value that is not a map of such entries, and the exception a corrupt one raises, are not modelled.
- Text.NumberOrZero: reads only an optional sign followed by decimal digits. JavaScript's `Number` also accepts decimals, exponents, `0x`/`0b`/`0o` prefixes and `Infinity`. Those give non-integer or integer values where the model gives 0. This is a deliberate restriction to integers, because floating point is not modelled. For the same reason a digit string beyond 2^53, which `Number` rounds to the nearest double, reads here as its exact value.
- JavaScript strings are UTF-16 code units, while Dafny `char`s are Unicode scalar values. Trimming and splitting on `,` and `\n` treat both the same.
- Prototype-chain keys are not modelled. An id such as `constructor` would find an inherited property in the plain-object map; the model reads it as absent.
- The language `<select>` and the filter button are trivial setters with no logic. The class holds `language` and `showIncompleteOnly`, and every view function takes them as parameters.
- Image export (`toJpeg`, DOM lookup, anchor download, `alert`) calls a foreign library and the DOM.
- Presentation is not modelled: class strings, image fallbacks, `document.title`, the UI text tables and icon filenames.
- Click handling in the main list's `ShipCard`, including the `closest` check on the click target. Its name fallback, level badge and material list follow the same rules as `Export.DisplayName`, `Export.LevelBadge` and `Export.VisibleMaterials` (App.jsx lines 68, 113-119 and 124-125). Its marker is a pair of check boxes instead of the export's status marker.
- React's `useMemo`/`useEffect` scheduling: derived views are plain functions of the current state, which is what recomputation on every change yields.
