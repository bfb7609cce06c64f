/**
 * The catalog loader of App.jsx: the text of ships.csv becomes the ordered
 * list of ship records by a naive comma split (no quoting, no escaping).
 */
module Catalog {
  import opened Wrappers
  import opened Seqs
  import opened Text

  datatype Names = Names(en: string, jp: string, kr: string)

  /** The eleven remodel materials, in the record's key order. */
  datatype Materials = Materials(
    blueprint: int, report: int, catapult: int,
    gunMat: int, airMat: int, armMat: int, devMat: int,
    torch: int, boiler: int, osmat: int, screw: int)

  datatype MaterialKey =
    | Blueprint | Report | Catapult
    | GunMat | AirMat | ArmMat | DevMat
    | Torch | Boiler | Osmat | Screw

  /** The insertion order of the `materials` object, which is also its column order. */
  const MaterialOrder: seq<MaterialKey> :=
    [Blueprint, Report, Catapult, GunMat, AirMat, ArmMat, DevMat, Torch, Boiler, Osmat, Screw]

  function Count(m: Materials, k: MaterialKey): int {
    match k
    case Blueprint => m.blueprint
    case Report => m.report
    case Catapult => m.catapult
    case GunMat => m.gunMat
    case AirMat => m.airMat
    case ArmMat => m.armMat
    case DevMat => m.devMat
    case Torch => m.torch
    case Boiler => m.boiler
    case Osmat => m.osmat
    case Screw => m.screw
  }

  /** A ship record; `shipType` is the source's `type` field. */
  datatype Ship = Ship(id: string, names: Names, shipType: string, remodelLevel: int, materials: Materials)

  /** Lines with fewer fields than this are dropped. */
  const MinColumns := 6

  /** `line.split(',').map(c => c.trim())` */
  function Fields(line: string): (r: seq<string>)
    ensures |r| == |Split(line, ',')| >= 1
    ensures forall i :: 0 <= i < |r| ==> r[i] == Trim(Split(line, ',')[i]) && IsTrimmed(r[i])
  {
    var parts := Split(line, ',');
    seq(|parts|, i requires 0 <= i < |parts| => Trim(parts[i]))
  }

  /** `Number(cols[i]) || 0`; an index past the end is `undefined`, which also reads as 0. */
  function NumberAt(cols: seq<string>, i: nat): (n: int)
    ensures i >= |cols| ==> n == 0
    ensures i < |cols| ==> n == NumberOrZero(cols[i])
  {
    if i < |cols| then NumberOrZero(cols[i]) else 0
  }

  /** The record built from the fields of a line that has at least `MinColumns` of them. */
  function ShipOf(cols: seq<string>): (ship: Ship)
    requires |cols| >= MinColumns
    ensures ship.id == cols[0] && ship.names == Names(cols[1], cols[2], cols[3]) && ship.shipType == cols[4]
    ensures ship.remodelLevel == NumberAt(cols, 5)
    ensures forall k :: Count(ship.materials, k) == NumberAt(cols, MaterialColumn(k))
  {
    Ship(
      cols[0],
      Names(cols[1], cols[2], cols[3]),
      cols[4],
      NumberAt(cols, 5),
      Materials(
        NumberAt(cols, 6), NumberAt(cols, 7), NumberAt(cols, 8),
        NumberAt(cols, 9), NumberAt(cols, 10), NumberAt(cols, 11), NumberAt(cols, 12),
        NumberAt(cols, 13), NumberAt(cols, 14), NumberAt(cols, 15), NumberAt(cols, 16)))
  }

  predicate IsRow(line: string) {
    |Fields(line)| >= MinColumns
  }

  /** One line of the file: `null` (dropped) when it has fewer than six fields. */
  function ParseLine(line: string): (r: Option<Ship>)
    ensures r.None? <==> |Fields(line)| < MinColumns
  {
    var cols := Fields(line);
    if |cols| < MinColumns then None else Some(ShipOf(cols))
  }

  /** `lines.map(parseLine).filter(item => item !== null)` */
  function ParseRows(lines: seq<string>): (r: seq<Ship>)
    ensures |r| <= |lines|
  {
    FilterMap(lines, ParseLine)
  }

  /** The whole load: trim the text, split it into lines, parse every line. */
  function ParseCatalog(text: string): (r: seq<Ship>)
    ensures |r| <= |Split(Trim(text), '\n')|
  {
    ParseRows(Split(Trim(text), '\n'))
  }

  // ---------------------------------------------------------------------------
  // What a kept row holds

  /** The text fields of a kept row are exactly the trimmed fields 0 to 4. */
  lemma ParseLineTextFields(line: string)
    requires IsRow(line)
    ensures var parts := Split(line, ',');
      && ParseLine(line).Some?
      && ParseLine(line).value.id == Trim(parts[0])
      && ParseLine(line).value.names == Names(Trim(parts[1]), Trim(parts[2]), Trim(parts[3]))
      && ParseLine(line).value.shipType == Trim(parts[4])
  {
    var cols, parts := Fields(line), Split(line, ',');
    assert ParseLine(line) == Some(ShipOf(cols));
    assert cols[0] == Trim(parts[0]) && cols[4] == Trim(parts[4]);
    assert cols[1] == Trim(parts[1]) && cols[2] == Trim(parts[2]) && cols[3] == Trim(parts[3]);
  }

  /** The column that holds a material: six leading columns, then the materials in key order. */
  function MaterialColumn(k: MaterialKey): (c: nat)
    ensures MinColumns <= c < MinColumns + |MaterialOrder| && MaterialOrder[c - MinColumns] == k
  {
    match k
    case Blueprint => 6
    case Report => 7
    case Catapult => 8
    case GunMat => 9
    case AirMat => 10
    case ArmMat => 11
    case DevMat => 12
    case Torch => 13
    case Boiler => 14
    case Osmat => 15
    case Screw => 16
  }

  /**
   * The numeric fields of a kept row are read by position: the level from
   * column 5, and every material from its column in key order.
   */
  lemma ParseLineNumbers(line: string, k: MaterialKey)
    requires IsRow(line)
    ensures ParseLine(line).Some?
    ensures ParseLine(line).value.remodelLevel == NumberAt(Fields(line), 5)
    ensures Count(ParseLine(line).value.materials, k) == NumberAt(Fields(line), MaterialColumn(k))
  {
    assert ParseLine(line) == Some(ShipOf(Fields(line)));
  }

  /**
   * The catalog is the kept lines, in file order, each turned into a record:
   * one record per line of at least six fields, and nothing else.
   */
  lemma ParseRowsKeptLines(lines: seq<string>)
    ensures |ParseRows(lines)| == |Filter(lines, IsRow)|
    ensures forall i :: 0 <= i < |ParseRows(lines)| ==> ParseLine(Filter(lines, IsRow)[i]) == Some(ParseRows(lines)[i])
  {
    FilterMapKept(lines, ParseLine);
    forall i | 0 <= i < |lines| ensures Present(ParseLine)(lines[i]) == IsRow(lines[i]) {
      assert Present(ParseLine)(lines[i]) == ParseLine(lines[i]).Some?;
      assert ParseLine(lines[i]).Some? == IsRow(lines[i]);
    }
    FilterCongruent(lines, Present(ParseLine), IsRow);
    assert MapsTo(ParseLine, Filter(lines, IsRow), ParseRows(lines));
  }

  /** Parsing distributes over the lines of a file: rows keep their file order. */
  lemma ParseRowsAppend(a: seq<string>, b: seq<string>)
    ensures ParseRows(a + b) == ParseRows(a) + ParseRows(b)
  {
    FilterMapAppend(a, b, ParseLine);
  }

  /** An empty or blank file yields an empty catalog: `""` splits into one line of one field. */
  lemma ParseCatalogBlank(text: string)
    requires AllWhitespace(text)
    ensures ParseCatalog(text) == []
  {
    TrimBlank(text);
    assert Split([], '\n') == [[]];
    assert Fields([]) == [Trim([])];
  }

  // ---------------------------------------------------------------------------
  // Writing a catalog back: the parser's inverse

  /** Text fields that the naive split reads back unchanged. */
  predicate PlainField(s: string) {
    IsTrimmed(s) && ',' !in s && '\n' !in s
  }

  predicate WellFormed(ship: Ship) {
    && PlainField(ship.id)
    && PlainField(ship.names.en) && PlainField(ship.names.jp) && PlainField(ship.names.kr)
    && PlainField(ship.shipType)
  }

  /** The numeric columns of a record, level first, then the materials in key order. */
  function NumbersOf(ship: Ship): (ns: seq<int>)
    ensures |ns| == 12
  {
    var m := ship.materials;
    [ship.remodelLevel,
     m.blueprint, m.report, m.catapult, m.gunMat, m.airMat, m.armMat, m.devMat,
     m.torch, m.boiler, m.osmat, m.screw]
  }

  /** The seventeen columns of a record, in file order: five text columns, then the numbers in decimal. */
  function ColumnsOf(ship: Ship): (cols: seq<string>)
    ensures |cols| == 17
  {
    var ns := NumbersOf(ship);
    [ship.id, ship.names.en, ship.names.jp, ship.names.kr, ship.shipType]
      + seq(12, i requires 0 <= i < 12 => IntToDecimal(ns[i]))
  }

  function RenderLine(ship: Ship): string {
    Join(ColumnsOf(ship), ',')
  }

  /** The lines of a written catalog, one per record, in order. */
  function RenderLines(ships: seq<Ship>): (r: seq<string>)
    ensures |r| == |ships|
    ensures forall i :: 0 <= i < |r| ==> r[i] == RenderLine(ships[i])
  {
    seq(|ships|, i requires 0 <= i < |ships| => RenderLine(ships[i]))
  }

  function RenderCatalog(ships: seq<Ship>): string {
    if |ships| == 0 then [] else Join(RenderLines(ships), '\n')
  }

  /** A character that is neither the separator nor in any piece is not in the joined text. */
  lemma {:induction false} JoinAvoids(parts: seq<string>, sep: char, c: char)
    requires |parts| >= 1 && c != sep
    requires forall i :: 0 <= i < |parts| ==> c !in parts[i]
    ensures c !in Join(parts, sep)
    decreases |parts|
  {
    if |parts| > 1 {
      JoinAvoids(parts[1..], sep, c);
    }
  }

  /** The joined text ends with the last piece's last character. */
  lemma {:induction false} JoinLast(parts: seq<string>, sep: char)
    requires |parts| >= 1 && |parts[|parts| - 1]| > 0
    ensures |Join(parts, sep)| > 0
    ensures Join(parts, sep)[|Join(parts, sep)| - 1] == parts[|parts| - 1][|parts[|parts| - 1]| - 1]
    decreases |parts|
  {
    if |parts| > 1 {
      JoinLast(parts[1..], sep);
    }
  }

  lemma DecimalIsPlain(n: int)
    ensures PlainField(IntToDecimal(n))
  {
    var s := IntToDecimal(n);
    assert forall k :: 1 <= k < |s| ==> IsDigit(s[k]);
    assert IsDigit(s[|s| - 1]);
  }

  /** Every column of a well-formed record is plain. */
  lemma ColumnsPlain(ship: Ship)
    requires WellFormed(ship)
    ensures forall i :: 0 <= i < 17 ==> PlainField(ColumnsOf(ship)[i])
  {
    var cols, ns := ColumnsOf(ship), NumbersOf(ship);
    forall i | 0 <= i < 17 ensures PlainField(cols[i]) {
      if i >= 5 {
        assert cols[i] == IntToDecimal(ns[i - 5]);
        DecimalIsPlain(ns[i - 5]);
      }
    }
  }

  /** Reading the written columns back gives the record. */
  lemma ShipOfColumns(ship: Ship)
    ensures ShipOf(ColumnsOf(ship)) == ship
  {
    var cols, ns := ColumnsOf(ship), NumbersOf(ship);
    forall c | MinColumns - 1 <= c < 17 ensures NumberAt(cols, c) == ns[c - 5] {
      assert cols[c] == IntToDecimal(ns[c - 5]);
      NumberOrZeroRoundTrip(ns[c - 5]);
    }
  }

  /** A line built from plain fields splits back into exactly those fields. */
  lemma FieldsOfJoin(cols: seq<string>)
    requires |cols| >= 1
    requires forall i :: 0 <= i < |cols| ==> IsTrimmed(cols[i]) && ',' !in cols[i]
    ensures Fields(Join(cols, ',')) == cols
  {
    JoinSplit(cols, ',');
    var f := Fields(Join(cols, ','));
    forall i | 0 <= i < |cols| ensures f[i] == cols[i] {
      TrimTrimmed(cols[i]);
    }
  }

  lemma ParseLineOfJoin(cols: seq<string>)
    requires |cols| >= MinColumns
    requires forall i :: 0 <= i < |cols| ==> IsTrimmed(cols[i]) && ',' !in cols[i]
    ensures ParseLine(Join(cols, ',')) == Some(ShipOf(cols))
  {
    FieldsOfJoin(cols);
  }

  /** Writing a well-formed record as a line and parsing it back gives the record. */
  lemma ParseRenderLine(ship: Ship)
    requires WellFormed(ship)
    ensures ParseLine(RenderLine(ship)) == Some(ship)
  {
    ColumnsPlain(ship);
    ParseLineOfJoin(ColumnsOf(ship));
    ShipOfColumns(ship);
  }

  lemma RenderLinePlain(ship: Ship)
    requires WellFormed(ship)
    ensures '\n' !in RenderLine(ship)
    ensures |RenderLine(ship)| > 0 && IsTrimmed(RenderLine(ship))
  {
    var cols := ColumnsOf(ship);
    ColumnsPlain(ship);
    JoinAvoids(cols, ',', '\n');
    var line := RenderLine(ship);
    assert line == cols[0] + [','] + Join(cols[1..], ',');
    assert line[0] == if cols[0] == [] then ',' else cols[0][0];
    JoinLast(cols, ',');
  }

  /** The joined text starts with the first piece's first character. */
  lemma JoinFirst(parts: seq<string>, sep: char)
    requires |parts| >= 1 && |parts[0]| > 0
    ensures |Join(parts, sep)| > 0 && Join(parts, sep)[0] == parts[0][0]
  {
  }

  /** Joining lines that are non-blank at the outer ends gives a trimmed text. */
  lemma JoinTrimmed(lines: seq<string>, sep: char)
    requires |lines| >= 1
    requires forall i :: 0 <= i < |lines| ==> |lines[i]| > 0 && IsTrimmed(lines[i])
    ensures IsTrimmed(Join(lines, sep))
  {
    JoinFirst(lines, sep);
    JoinLast(lines, sep);
  }

  /**
   * Writing a catalog of well-formed records and loading it gives back the
   * same records in the same order.
   */
  lemma ParseRenderCatalog(ships: seq<Ship>)
    requires forall i :: 0 <= i < |ships| ==> WellFormed(ships[i])
    ensures ParseCatalog(RenderCatalog(ships)) == ships
  {
    if |ships| == 0 {
      ParseCatalogBlank([]);
    } else {
      RenderedTextLines(ships);
      ParseRenderedRows(ships, RenderLines(ships));
    }
  }

  /** The written text needs no trimming and splits back into its lines. */
  lemma RenderedTextLines(ships: seq<Ship>)
    requires |ships| > 0
    requires forall i :: 0 <= i < |ships| ==> WellFormed(ships[i])
    ensures Split(Trim(RenderCatalog(ships)), '\n') == RenderLines(ships)
  {
    var lines := RenderLines(ships);
    forall i | 0 <= i < |lines| ensures '\n' !in lines[i] && |lines[i]| > 0 && IsTrimmed(lines[i]) {
      RenderLinePlain(ships[i]);
    }
    JoinTrimmed(lines, '\n');
    TrimTrimmed(Join(lines, '\n'));
    JoinSplit(lines, '\n');
  }

  lemma ParseRenderedRows(ships: seq<Ship>, lines: seq<string>)
    requires |lines| == |ships|
    requires forall i :: 0 <= i < |ships| ==> WellFormed(ships[i]) && lines[i] == RenderLine(ships[i])
    ensures ParseRows(lines) == ships
  {
    forall i | 0 <= i < |ships| ensures ParseLine(lines[i]) == Some(ships[i]) {
      ParseRenderLine(ships[i]);
    }
    FilterMapAll(lines, ParseLine, ships);
  }

  /** A catalog of one record is that record's line, with no newline. */
  lemma RenderCatalogSingle(ship: Ship)
    ensures RenderCatalog([ship]) == RenderLine(ship)
  {
    assert RenderLines([ship]) == [RenderLine(ship)];
  }

  /** The record of the worked example below. */
  const Fubuki := Ship("S001", Names("Fubuki", "吹雪", "후부키"), "DD", 2, Materials(1, 2, 0, 0, 0, 0, 1, 0, 0, 0, 0))

  lemma FubukiWellFormed()
    ensures WellFormed(Fubuki)
  {
    assert PlainField("S001") && PlainField("Fubuki") && PlainField("DD");
    assert PlainField("吹雪") && PlainField("후부키");
  }

  lemma SmallDecimals()
    ensures IntToDecimal(0) == "0" && IntToDecimal(1) == "1" && IntToDecimal(2) == "2"
  {
  }

  lemma FubukiColumns()
    ensures ColumnsOf(Fubuki) == ["S001", "Fubuki", "吹雪", "후부키", "DD", "2", "1", "2", "0", "0", "0", "0", "1", "0", "0", "0", "0"]
  {
    var ns := NumbersOf(Fubuki);
    assert ns == [2, 1, 2, 0, 0, 0, 0, 1, 0, 0, 0, 0];
    SmallDecimals();
    var d := seq(12, i requires 0 <= i < 12 => IntToDecimal(ns[i]));
    assert d == ["2", "1", "2", "0", "0", "0", "0", "1", "0", "0", "0", "0"];
  }

  /**
   * The worked example: the line whose comma-separated fields are
   * S001, Fubuki, 吹雪, 후부키, DD, 2, 1, 2, 0, 0, 0, 0, 1, 0, 0, 0, 0 loads as one
   * record with level 2, blueprint 1, report 2 and devMat 1 (its seventh material),
   * every other material 0.
   */
  lemma FubukiExample()
    ensures ParseCatalog(Join(["S001", "Fubuki", "吹雪", "후부키", "DD", "2", "1", "2", "0", "0", "0", "0", "1", "0", "0", "0", "0"], ','))
         == [Ship("S001", Names("Fubuki", "吹雪", "후부키"), "DD", 2, Materials(1, 2, 0, 0, 0, 0, 1, 0, 0, 0, 0))]
  {
    FubukiWellFormed();
    FubukiColumns();
    RenderCatalogSingle(Fubuki);
    ParseRenderCatalog([Fubuki]);
  }
}
