/** `write_kml`: the KML document for a frame with geodetic coordinates.
    The output file is modelled as the sequence of `f.write` calls, in
    order: a prelude, one Folder of point placemarks per vehicle, one ring
    placemark per vehicle, and the footer. Each call is a `Write` value and
    `Text` gives the exact string it writes. */
module Kml {
  import opened Wrappers
  import opened Decimal
  import opened Calendar
  import opened Frames

  const KmlHead: string :=
    "<?xml version = '1.0' encoding = 'UTF-8'?>\n"
    + "    <kml xmlns = 'http://www.opengis.net/kml/2.2'>\n"
    + "    <Document>\n"
    + "    "

  const KmlFoot: string :=
    "</Document>\n"
    + "    </kml>\n"
    + "    "

  const KmlStyle: string :=
    "        <Style id=\"s_ylw-pushpin\">\n"
    + "        <IconStyle>\n"
    + "            <color>ff00ffff</color>\n"
    + "            <scale>10</scale>\n"
    + "            <Icon>\n"
    + "                <href>https://www.licor.com/env/graphics/icons/satellite.png</href>\n"
    + "            </Icon>\n"
    + "            <hotSpot x=\"20\" y=\"2\" xunits=\"pixels\" yunits=\"pixels\"/>\n"
    + "        </IconStyle>\n"
    + "        </Style>\n"
    + "        <StyleMap id=\"m_ylw-pushpin\">\n"
    + "            <Pair>\n"
    + "                <key>normal</key>\n"
    + "                <styleUrl>#s_ylw-pushpin</styleUrl>\n"
    + "            </Pair>\n"
    + "            <Pair>\n"
    + "                <key>highlight</key>\n"
    + "                <styleUrl>#s_ylw-pushpin_hl</styleUrl>\n"
    + "            </Pair>\n"
    + "        </StyleMap>\n"
    + "        <Style id=\"s_ylw-pushpin_hl\">\n"
    + "            <IconStyle>\n"
    + "                <color>ff00ffff</color>\n"
    + "                <scale>5</scale>\n"
    + "                <Icon>\n"
    + "                    <href>http://maps.google.com/mapfiles/kml/pushpin/ylw-pushpin.png</href>\n"
    + "                </Icon>\n"
    + "                <hotSpot x=\"20\" y=\"2\" xunits=\"pixels\" yunits=\"pixels\"/>\n"
    + "            </IconStyle>\n"
    + "        </Style>\n"
    + "    "

  /** One `f.write` call of `write_kml`. */
  datatype Write =
    | Head | DocumentName | Style | Foot
    | FolderOpen | GroupName(name: string) | FolderClose
    | PlacemarkOpen | ItemName(name: string) | PlacemarkClose
    | TimeStampOpen | When(time: CivilTime) | TimeStampClose
    | StyleUrl | PointOpen | AltitudeInner | Coordinates(long: real, lat: real, alt: real)
    | PointClose | AltitudeOuter
    | Description | PolygonOpen | BoundaryOpen | RingOpen | CoordinatesOpen
    | RingPoint(long: real, lat: real, alt: real)
    | CoordinatesClose | RingClose | BoundaryClose | PolygonClose

  /** `str(long) + "," + str(lat) + "," + str(1000*alt)`, with `render`
      standing for Python's `str` on floats. */
  function CoordinateText(long: real, lat: real, alt: real, render: real -> string): string {
    render(long) + "," + render(lat) + "," + render(1000.0 * alt)
  }

  /** The string one write puts into the file. */
  function Text(w: Write, render: real -> string): string {
    match w
    case Head => KmlHead
    case DocumentName => "   <name>" + "GPS data" + "</name>\n"
    case Style => KmlStyle
    case Foot => KmlFoot
    case FolderOpen => "   <Folder>\n"
    case GroupName(name) => "   <name>" + name + "</name>\n"
    case FolderClose => "   </Folder>\n"
    case PlacemarkOpen => "   <Placemark>\n"
    case ItemName(name) => "       <name>" + name + "</name>\n"
    case PlacemarkClose => "   </Placemark>\n"
    case TimeStampOpen => "       <TimeStamp>\n"
    case When(t) => "           <when>" + WhenText(t) + "</when>\n"
    case TimeStampClose => "       </TimeStamp>\n"
    case StyleUrl => "       <styleUrl>#m_ylw-pushpin</styleUrl>\n"
    case PointOpen => "       <Point>\n"
    case AltitudeInner => "           <altitudeMode>absolute</altitudeMode>\n"
    case Coordinates(long, lat, alt) =>
      "           <coordinates>" + CoordinateText(long, lat, alt, render) + "</coordinates>\n"
    case PointClose => "       </Point>\n"
    case AltitudeOuter => "       <altitudeMode>absolute</altitudeMode>\n"
    case Description => "       <description>" + "</description>\n"
    case PolygonOpen => "       <Polygon>\n"
    case BoundaryOpen => "           <outerBoundaryIs>\n"
    case RingOpen => "               <LinearRing>\n"
    case CoordinatesOpen => "                  <coordinates>\n"
    case RingPoint(long, lat, alt) => "                      " + CoordinateText(long, lat, alt, render) + "\n"
    case CoordinatesClose => "                  </coordinates>\n"
    case RingClose => "               </LinearRing>\n"
    case BoundaryClose => "           </outerBoundaryIs>\n"
    case PolygonClose => "       </Polygon>\n"
  }

  /** What the file holds once it is closed: the writes' texts in order. */
  function FileText(ws: seq<Write>, render: real -> string): string
    decreases |ws|
  {
    if ws == [] then "" else FileText(ws[..|ws| - 1], render) + Text(ws[|ws| - 1], render)
  }

  datatype KmlError =
    | MissingColumn(column: string)  // the frame lacks lat, long or alt
    | CannotCreate                   // the output file cannot be opened

  // ----- Timestamps -----

  /** `dt.strftime('%Y-%m-%dT%H:%M:%SZ')`; the micro-seconds are dropped. */
  function WhenText(d: CivilTime): string {
    NatText(d.year) + "-" + IntText02(d.month) + "-" + IntText02(d.day) + "T"
      + IntText02(d.hour) + ":" + IntText02(d.minute) + ":" + IntText02(d.second) + "Z"
  }

  /** Reads a `yyyy-mm-ddThh:mm:ssZ` stamp back into its six fields. */
  function ParseWhen(s: string): Option<(int, int, int, int, int, int)> {
    if |s| == 20 && s[4] == '-' && s[7] == '-' && s[10] == 'T' && s[13] == ':' && s[16] == ':' && s[19] == 'Z'
       && AllDigits(s[..4]) && AllDigits(s[5..7]) && AllDigits(s[8..10])
       && AllDigits(s[11..13]) && AllDigits(s[14..16]) && AllDigits(s[17..19])
    then Some((DigitsValue(s[..4]), DigitsValue(s[5..7]), DigitsValue(s[8..10]),
               DigitsValue(s[11..13]), DigitsValue(s[14..16]), DigitsValue(s[17..19])))
    else None
  }

  /** In years 1000 to 9999 the stamp names its date and its time to the
      second. */
  lemma WhenTextDecodes(d: CivilTime)
    requires d.year >= 1000
    ensures ParseWhen(WhenText(d)) == Some((d.year, d.month, d.day, d.hour, d.minute, d.second))
  {
    assert Pow10(3) == 1000 && Pow10(4) == 10000;
    NatTextLength(d.year, 4);
    StampLayout(NatText(d.year), IntText02(d.month), IntText02(d.day), IntText02(d.hour),
                IntText02(d.minute), IntText02(d.second));
    NatTextValue(d.year);
  }

  /** Where the separators and the fields of a stamp sit. */
  lemma StampLayout(ys: string, ms: string, ds: string, hs: string, mis: string, ss: string)
    requires |ys| == 4 && |ms| == 2 && |ds| == 2 && |hs| == 2 && |mis| == 2 && |ss| == 2
    ensures var s := ys + "-" + ms + "-" + ds + "T" + hs + ":" + mis + ":" + ss + "Z";
            && |s| == 20 && s[4] == '-' && s[7] == '-' && s[10] == 'T' && s[13] == ':' && s[16] == ':' && s[19] == 'Z'
            && s[..4] == ys && s[5..7] == ms && s[8..10] == ds && s[11..13] == hs && s[14..16] == mis && s[17..19] == ss
  {
    var s := ys + "-" + ms + "-" + ds + "T" + hs + ":" + mis + ":" + ss + "Z";
    forall i | 0 <= i < 4 ensures s[i] == ys[i] { }
    forall i | 0 <= i < 2 ensures s[5 + i] == ms[i] && s[8 + i] == ds[i] && s[11 + i] == hs[i]
                                  && s[14 + i] == mis[i] && s[17 + i] == ss[i] { }
    assert s[..4] == ys;
    assert s[5..7] == ms;
    assert s[8..10] == ds;
    assert s[11..13] == hs;
    assert s[14..16] == mis;
    assert s[17..19] == ss;
  }

  // ----- The writes of each part -----

  /** The point placemark of one row in the Folder of `name`. */
  function PointPlacemark(name: string, r: Row): seq<Write> {
    [PlacemarkOpen,
     ItemName(name),
     TimeStampOpen,
     When(r.time),
     TimeStampClose,
     StyleUrl,
     PointOpen,
     AltitudeInner,
     Coordinates(r.long, r.lat, r.alt),
     PointClose,
     AltitudeOuter,
     PlacemarkClose]
  }

  function Placemarks(name: string, rows: seq<Row>): seq<Write>
    decreases |rows|
  {
    if rows == [] then []
    else Placemarks(name, rows[..|rows| - 1]) + PointPlacemark(name, rows[|rows| - 1])
  }

  function FolderHead(name: string): seq<Write> {
    [FolderOpen, GroupName(name)]
  }

  function FolderBlock(g: Group): seq<Write> {
    FolderHead(g.name) + Placemarks(g.name, g.rows) + [FolderClose]
  }

  /** The first pass: one Folder per group. */
  function Folders(gs: seq<Group>): seq<Write>
    decreases |gs|
  {
    if gs == [] then []
    else Folders(gs[..|gs| - 1]) + FolderBlock(gs[|gs| - 1])
  }

  function RingHead(name: string): seq<Write> {
    [PlacemarkOpen,
     ItemName(name),
     Description,
     PolygonOpen,
     AltitudeInner,
     BoundaryOpen,
     RingOpen,
     CoordinatesOpen]
  }

  const RingTail: seq<Write> :=
    [CoordinatesClose,
     RingClose,
     BoundaryClose,
     PolygonClose,
     PlacemarkClose]

  function RingLines(rows: seq<Row>): seq<Write>
    decreases |rows|
  {
    if rows == [] then []
    else
      var r := rows[|rows| - 1];
      RingLines(rows[..|rows| - 1]) + [RingPoint(r.long, r.lat, r.alt)]
  }

  function RingBlock(g: Group): seq<Write> {
    RingHead(g.name) + RingLines(g.rows) + RingTail
  }

  /** The second pass: one ring placemark per group. */
  function Rings(gs: seq<Group>): seq<Write>
    decreases |gs|
  {
    if gs == [] then []
    else Rings(gs[..|gs| - 1]) + RingBlock(gs[|gs| - 1])
  }

  const Prelude: seq<Write> := [Head, DocumentName, Style]

  /** Everything written for the groups gs. */
  function Document(gs: seq<Group>): seq<Write> {
    Prelude + Folders(gs) + Rings(gs) + [Foot]
  }

  predicate HasKmlColumns(cols: seq<string>) {
    "lat" in cols && "long" in cols && "alt" in cols
  }

  // ----- The writer -----

  /** `write_kml(df, fn)`: `openable` says whether `open(fn, 'w')`
      succeeds; the result holds the writes in order. */
  method WriteKml(frame: Frame, openable: bool) returns (r: Result<seq<Write>, KmlError>)
    ensures "lat" !in frame.columns ==> r == Err(MissingColumn("lat"))
    ensures "lat" in frame.columns && "long" !in frame.columns ==> r == Err(MissingColumn("long"))
    ensures "lat" in frame.columns && "long" in frame.columns && "alt" !in frame.columns ==>
              r == Err(MissingColumn("alt"))
    ensures HasKmlColumns(frame.columns) && !openable ==> r == Err(CannotCreate)
    ensures HasKmlColumns(frame.columns) && openable ==> r == Ok(Document(GroupBy(frame.rows)))
  {
    if "lat" !in frame.columns {
      return Err(MissingColumn("lat"));
    }
    if "long" !in frame.columns {
      return Err(MissingColumn("long"));
    }
    if "alt" !in frame.columns {
      return Err(MissingColumn("alt"));
    }
    var satPos := GroupBy(frame.rows);
    if !openable {
      return Err(CannotCreate);
    }
    var f := WriteDocument(satPos);
    r := Ok(f);
  }

  /** The writes after the file is open, for the groups in order. */
  method WriteDocument(satPos: seq<Group>) returns (f: seq<Write>)
    ensures f == Document(satPos)
  {
    f := [];
    f := f + [Head];
    f := f + [DocumentName];
    f := f + [Style];
    f := WriteFolders(f, satPos);
    f := WriteRings(f, satPos);
    f := f + [Foot];
  }

  /** The first pass: `for name, group in sat_pos` writing Folders. */
  method WriteFolders(f0: seq<Write>, satPos: seq<Group>) returns (f: seq<Write>)
    ensures f == f0 + Folders(satPos)
  {
    f := f0;
    for gi := 0 to |satPos|
      invariant f == f0 + Folders(satPos[..gi])
    {
      f := WriteFolder(f, satPos[gi]);
      assert satPos[..gi + 1] == satPos[..gi] + [satPos[gi]];
      FoldersSnoc(satPos[..gi], satPos[gi]);
    }
    assert satPos[..|satPos|] == satPos;
  }

  /** The second pass over the same groups, writing the orbit polygons. */
  method WriteRings(f0: seq<Write>, satPos: seq<Group>) returns (f: seq<Write>)
    ensures f == f0 + Rings(satPos)
  {
    f := f0;
    for gi := 0 to |satPos|
      invariant f == f0 + Rings(satPos[..gi])
    {
      f := WriteRing(f, satPos[gi]);
      assert satPos[..gi + 1] == satPos[..gi] + [satPos[gi]];
      RingsSnoc(satPos[..gi], satPos[gi]);
    }
    assert satPos[..|satPos|] == satPos;
  }

  /** The first pass over one vehicle: its Folder and a point placemark per
      row, appended to the writes so far. */
  method WriteFolder(f0: seq<Write>, g: Group) returns (f: seq<Write>)
    ensures f == f0 + FolderBlock(g)
  {
    var name, group := g.name, g.rows;
    f := f0;
    f := f + [FolderOpen];
    f := f + [GroupName(name)];
    for ri := 0 to |group|
      invariant f == f0 + FolderHead(name) + Placemarks(name, group[..ri])
    {
      var row := group[ri];
      f := WritePointPlacemark(f, name, row);
      assert group[..ri + 1] == group[..ri] + [row];
      PlacemarksSnoc(name, group[..ri], row);
    }
    f := f + [FolderClose];
    assert group[..|group|] == group;
  }

  /** The placemark of one row: its time stamp and its position. */
  method WritePointPlacemark(f0: seq<Write>, name: string, row: Row) returns (f: seq<Write>)
    ensures f == f0 + PointPlacemark(name, row)
  {
    f := f0;
    f := f + [PlacemarkOpen];
    f := f + [ItemName(name)];
    f := f + [TimeStampOpen];
    f := f + [When(row.time)];
    f := f + [TimeStampClose];
    f := f + [StyleUrl];
    f := f + [PointOpen];
    f := f + [AltitudeInner];
    f := f + [Coordinates(row.long, row.lat, row.alt)];
    f := f + [PointClose];
    f := f + [AltitudeOuter];
    f := f + [PlacemarkClose];
  }

  /** The second pass over one vehicle: a polygon through its positions. */
  method WriteRing(f0: seq<Write>, g: Group) returns (f: seq<Write>)
    ensures f == f0 + RingBlock(g)
  {
    var name, group := g.name, g.rows;
    f := f0;
    f := f + [PlacemarkOpen];
    f := f + [ItemName(name)];
    f := f + [Description];
    f := f + [PolygonOpen];
    f := f + [AltitudeInner];
    f := f + [BoundaryOpen];
    f := f + [RingOpen];
    f := f + [CoordinatesOpen];
    assert f == f0 + RingHead(name);
    for ri := 0 to |group|
      invariant f == f0 + RingHead(name) + RingLines(group[..ri])
    {
      var row := group[ri];
      f := f + [RingPoint(row.long, row.lat, row.alt)];
      assert group[..ri + 1] == group[..ri] + [row];
      RingLinesSnoc(group[..ri], row);
    }
    f := f + [CoordinatesClose];
    f := f + [RingClose];
    f := f + [BoundaryClose];
    f := f + [PolygonClose];
    f := f + [PlacemarkClose];
    assert group[..|group|] == group;
  }

  lemma PlacemarksSnoc(name: string, rows: seq<Row>, r: Row)
    ensures Placemarks(name, rows + [r]) == Placemarks(name, rows) + PointPlacemark(name, r)
  {
    assert (rows + [r])[..|rows|] == rows;
  }

  lemma FoldersSnoc(gs: seq<Group>, g: Group)
    ensures Folders(gs + [g]) == Folders(gs) + FolderBlock(g)
  {
    assert (gs + [g])[..|gs|] == gs;
  }

  lemma RingLinesSnoc(rows: seq<Row>, r: Row)
    ensures RingLines(rows + [r]) == RingLines(rows) + [RingPoint(r.long, r.lat, r.alt)]
  {
    assert (rows + [r])[..|rows|] == rows;
  }

  lemma RingsSnoc(gs: seq<Group>, g: Group)
    ensures Rings(gs + [g]) == Rings(gs) + RingBlock(g)
  {
    assert (gs + [g])[..|gs|] == gs;
  }

  // ----- The layout of the document -----

  function OptionSeq<T>(o: Option<T>): seq<T> {
    if o.Some? then [o.value] else []
  }

  /** The values `f` picks out of the writes, in order. */
  function Pick<T>(ws: seq<Write>, f: Write -> Option<T>): seq<T>
    decreases |ws|
  {
    if ws == [] then [] else Pick(ws[..|ws| - 1], f) + OptionSeq(f(ws[|ws| - 1]))
  }

  lemma {:induction false} PickAppend<T>(a: seq<Write>, b: seq<Write>, f: Write -> Option<T>)
    ensures Pick(a + b, f) == Pick(a, f) + Pick(b, f)
    decreases |b|
  {
    if b != [] {
      var b' := b[..|b| - 1];
      assert (a + b)[..|a + b| - 1] == a + b';
      PickAppend(a, b', f);
    } else {
      assert a + b == a;
    }
  }

  lemma {:induction false} PickNone<T>(ws: seq<Write>, f: Write -> Option<T>)
    requires forall i :: 0 <= i < |ws| ==> f(ws[i]).None?
    ensures Pick(ws, f) == []
    decreases |ws|
  {
    if ws != [] {
      PickNone(ws[..|ws| - 1], f);
    }
  }

  lemma PickSingle<T>(w: Write, f: Write -> Option<T>)
    ensures Pick([w], f) == OptionSeq(f(w))
  {
    assert [w][..0] == [];
  }

  /** When only the k-th write is picked, that is all that is picked. */
  lemma {:induction false} PickOne<T>(ws: seq<Write>, k: nat, f: Write -> Option<T>)
    requires k < |ws|
    requires forall i :: 0 <= i < |ws| && i != k ==> f(ws[i]).None?
    ensures Pick(ws, f) == OptionSeq(f(ws[k]))
    decreases |ws|
  {
    var front := ws[..|ws| - 1];
    if k == |ws| - 1 {
      PickNone(front, f);
    } else {
      PickOne(front, k, f);
    }
  }

  /** The name of each Folder. */
  function FolderOf(w: Write): Option<string> {
    if w.GroupName? then Some(w.name) else None
  }

  /** The `<when>` time of each point placemark. */
  function StampOf(w: Write): Option<CivilTime> {
    if w.When? then Some(w.time) else None
  }

  /** The position of each point placemark. */
  function PointOf(w: Write): Option<(real, real, real)> {
    if w.Coordinates? then Some((w.long, w.lat, w.alt)) else None
  }

  /** The position of each vertex of an orbit polygon. */
  function RingPointOf(w: Write): Option<(real, real, real)> {
    if w.RingPoint? then Some((w.long, w.lat, w.alt)) else None
  }

  function Names(gs: seq<Group>): (ns: seq<string>)
    ensures |ns| == |gs| && forall i :: 0 <= i < |gs| ==> ns[i] == gs[i].name
  {
    seq(|gs|, i requires 0 <= i < |gs| => gs[i].name)
  }

  function Times(rows: seq<Row>): (ts: seq<CivilTime>)
    ensures |ts| == |rows| && forall i :: 0 <= i < |rows| ==> ts[i] == rows[i].time
  {
    seq(|rows|, i requires 0 <= i < |rows| => rows[i].time)
  }

  function Positions(rows: seq<Row>): (ps: seq<(real, real, real)>)
    ensures |ps| == |rows|
    ensures forall i :: 0 <= i < |rows| ==> ps[i] == (rows[i].long, rows[i].lat, rows[i].alt)
  {
    seq(|rows|, i requires 0 <= i < |rows| => (rows[i].long, rows[i].lat, rows[i].alt))
  }

  /** The rows of the groups, group after group. */
  function AllRows(gs: seq<Group>): (rs: seq<Row>)
    decreases |gs|
  {
    if gs == [] then [] else AllRows(gs[..|gs| - 1]) + gs[|gs| - 1].rows
  }

  lemma {:induction false} AllRowsTotal(gs: seq<Group>)
    ensures |AllRows(gs)| == Total(gs)
    decreases |gs|
  {
    if gs != [] {
      AllRowsTotal(gs[..|gs| - 1]);
    }
  }

  /** Writes `f` picks nothing from may be dropped after the others. */
  lemma PickDropNone<T>(a: seq<Write>, b: seq<Write>, f: Write -> Option<T>)
    requires forall i :: 0 <= i < |b| ==> f(b[i]).None?
    ensures Pick(a + b, f) == Pick(a, f)
  {
    PickAppend(a, b, f);
    PickNone(b, f);
  }

  /** Writes `f` picks nothing from may be dropped before the others. */
  lemma PickNoneThen<T>(a: seq<Write>, b: seq<Write>, f: Write -> Option<T>)
    requires forall i :: 0 <= i < |a| ==> f(a[i]).None?
    ensures Pick(a + b, f) == Pick(b, f)
  {
    PickAppend(a, b, f);
    PickNone(a, f);
  }

  /** A Folder's placemarks hold no Folder name and no polygon vertex. */
  lemma {:induction false} PlacemarksKinds(name: string, rows: seq<Row>)
    ensures forall i :: 0 <= i < |Placemarks(name, rows)| ==>
              !Placemarks(name, rows)[i].GroupName? && !Placemarks(name, rows)[i].RingPoint?
    decreases |rows|
  {
    if rows != [] {
      PlacemarksKinds(name, rows[..|rows| - 1]);
    }
  }

  /** Picking after one more write that is picked. */
  lemma PickSnocSome<T>(ws: seq<Write>, w: Write, f: Write -> Option<T>)
    requires f(w).Some?
    ensures Pick(ws + [w], f) == Pick(ws, f) + [f(w).value]
  {
    assert (ws + [w])[..|ws|] == ws;
  }

  lemma TimesSnoc(rows: seq<Row>)
    requires rows != []
    ensures Times(rows) == Times(rows[..|rows| - 1]) + [rows[|rows| - 1].time]
  {
  }

  lemma PositionsSnoc(rows: seq<Row>)
    requires rows != []
    ensures var r := rows[|rows| - 1];
            Positions(rows) == Positions(rows[..|rows| - 1]) + [(r.long, r.lat, r.alt)]
  {
  }

  lemma TimesAppend(a: seq<Row>, b: seq<Row>)
    ensures Times(a + b) == Times(a) + Times(b)
  {
  }

  lemma PositionsAppend(a: seq<Row>, b: seq<Row>)
    ensures Positions(a + b) == Positions(a) + Positions(b)
  {
  }

  lemma PlacemarkStamp(name: string, r: Row)
    ensures Pick(PointPlacemark(name, r), StampOf) == [r.time]
  {
    PickOne(PointPlacemark(name, r), 3, StampOf);
  }

  lemma PlacemarkPoint(name: string, r: Row)
    ensures Pick(PointPlacemark(name, r), PointOf) == [(r.long, r.lat, r.alt)]
  {
    PickOne(PointPlacemark(name, r), 8, PointOf);
  }

  /** The point placemarks of a Folder carry the times of its rows in order. */
  lemma {:induction false} PlacemarksStamps(name: string, rows: seq<Row>)
    ensures Pick(Placemarks(name, rows), StampOf) == Times(rows)
    decreases |rows|
  {
    if rows != [] {
      var front, r := rows[..|rows| - 1], rows[|rows| - 1];
      PlacemarksStamps(name, front);
      PickAppend(Placemarks(name, front), PointPlacemark(name, r), StampOf);
      PlacemarkStamp(name, r);
      TimesSnoc(rows);
    }
  }

  /** ... and the positions of its rows in order. */
  lemma {:induction false} PlacemarksPoints(name: string, rows: seq<Row>)
    ensures Pick(Placemarks(name, rows), PointOf) == Positions(rows)
    decreases |rows|
  {
    if rows != [] {
      var front, r := rows[..|rows| - 1], rows[|rows| - 1];
      PlacemarksPoints(name, front);
      PickAppend(Placemarks(name, front), PointPlacemark(name, r), PointOf);
      PlacemarkPoint(name, r);
      PositionsSnoc(rows);
    }
  }

  /** What is picked from a Folder: its head, then its placemarks. */
  lemma PickFolderBlock<T>(g: Group, f: Write -> Option<T>)
    requires f(FolderOpen).None? && f(FolderClose).None?
    ensures Pick(FolderBlock(g), f) ==
            OptionSeq(f(GroupName(g.name))) + Pick(Placemarks(g.name, g.rows), f)
  {
    var head, marks := FolderHead(g.name), Placemarks(g.name, g.rows);
    PickDropNone(head + marks, [FolderClose], f);
    PickAppend(head, marks, f);
    PickOne(head, 1, f);
  }

  lemma PlacemarksUnnamed(name: string, rows: seq<Row>)
    ensures Pick(Placemarks(name, rows), FolderOf) == []
  {
    PlacemarksKinds(name, rows);
    PickNone(Placemarks(name, rows), FolderOf);
  }

  lemma NamesSnoc(gs: seq<Group>)
    requires gs != []
    ensures Names(gs) == Names(gs[..|gs| - 1]) + [gs[|gs| - 1].name]
  {
  }

  /** The first pass writes one Folder per group, named after it. */
  lemma {:induction false} FoldersNames(gs: seq<Group>)
    ensures Pick(Folders(gs), FolderOf) == Names(gs)
    decreases |gs|
  {
    if gs != [] {
      var front, g := gs[..|gs| - 1], gs[|gs| - 1];
      FoldersNames(front);
      PickAppend(Folders(front), FolderBlock(g), FolderOf);
      PickFolderBlock(g, FolderOf);
      PlacemarksUnnamed(g.name, g.rows);
      NamesSnoc(gs);
    }
  }

  /** The first pass stamps every row's time, group after group. */
  lemma {:induction false} FoldersStamps(gs: seq<Group>)
    ensures Pick(Folders(gs), StampOf) == Times(AllRows(gs))
    decreases |gs|
  {
    if gs != [] {
      var front, g := gs[..|gs| - 1], gs[|gs| - 1];
      FoldersStamps(front);
      PickAppend(Folders(front), FolderBlock(g), StampOf);
      PickFolderBlock(g, StampOf);
      PlacemarksStamps(g.name, g.rows);
      TimesAppend(AllRows(front), g.rows);
    }
  }

  /** The first pass places every row's position, group after group. */
  lemma {:induction false} FoldersPoints(gs: seq<Group>)
    ensures Pick(Folders(gs), PointOf) == Positions(AllRows(gs))
    decreases |gs|
  {
    if gs != [] {
      var front, g := gs[..|gs| - 1], gs[|gs| - 1];
      FoldersPoints(front);
      PickAppend(Folders(front), FolderBlock(g), PointOf);
      PickFolderBlock(g, PointOf);
      PlacemarksPoints(g.name, g.rows);
      PositionsAppend(AllRows(front), g.rows);
    }
  }

  /** The first pass draws no polygon. */
  lemma {:induction false} FoldersKinds(gs: seq<Group>)
    ensures forall i :: 0 <= i < |Folders(gs)| ==> !Folders(gs)[i].RingPoint?
    decreases |gs|
  {
    if gs != [] {
      var front, g := gs[..|gs| - 1], gs[|gs| - 1];
      FoldersKinds(front);
      PlacemarksKinds(g.name, g.rows);
      var block := FolderBlock(g);
      var marks := Placemarks(g.name, g.rows);
      forall i | 0 <= i < |block| ensures !block[i].RingPoint? {
        if 2 <= i < 2 + |marks| {
          assert block[i] == marks[i - 2];
        }
      }
    }
  }

  /** The ring of a group runs through the positions of its rows in order. */
  lemma {:induction false} RingLinesPick(rows: seq<Row>)
    ensures Pick(RingLines(rows), RingPointOf) == Positions(rows)
    decreases |rows|
  {
    if rows != [] {
      var front, r := rows[..|rows| - 1], rows[|rows| - 1];
      RingLinesPick(front);
      PickSnocSome(RingLines(front), RingPoint(r.long, r.lat, r.alt), RingPointOf);
      PositionsSnoc(rows);
    }
  }

  /** A ring holds vertices only. */
  lemma {:induction false} RingLinesKinds(rows: seq<Row>)
    ensures forall i :: 0 <= i < |RingLines(rows)| ==> RingLines(rows)[i].RingPoint?
    decreases |rows|
  {
    if rows != [] {
      RingLinesKinds(rows[..|rows| - 1]);
    }
  }

  /** The second pass has a vertex for every row, group after group. */
  lemma {:induction false} RingsPoints(gs: seq<Group>)
    ensures Pick(Rings(gs), RingPointOf) == Positions(AllRows(gs))
    decreases |gs|
  {
    if gs != [] {
      var front, g := gs[..|gs| - 1], gs[|gs| - 1];
      RingsPoints(front);
      RingLinesPick(g.rows);
      RingBlockPoints(g);
      PickAppend(Rings(front), RingBlock(g), RingPointOf);
      PositionsAppend(AllRows(front), g.rows);
    }
  }

  lemma RingBlockPoints(g: Group)
    ensures Pick(RingBlock(g), RingPointOf) == Pick(RingLines(g.rows), RingPointOf)
  {
    PickDropNone(RingHead(g.name) + RingLines(g.rows), RingTail, RingPointOf);
    PickNoneThen(RingHead(g.name), RingLines(g.rows), RingPointOf);
  }

  /** The second pass writes no Folder, time stamp or point. */
  lemma {:induction false} RingsKinds(gs: seq<Group>)
    ensures forall i :: 0 <= i < |Rings(gs)| ==>
              !Rings(gs)[i].GroupName? && !Rings(gs)[i].When? && !Rings(gs)[i].Coordinates?
    decreases |gs|
  {
    if gs != [] {
      var front, g := gs[..|gs| - 1], gs[|gs| - 1];
      RingsKinds(front);
      RingLinesKinds(g.rows);
      var lines := RingLines(g.rows);
      var block := RingBlock(g);
      forall i | 0 <= i < |block| ensures !block[i].GroupName? && !block[i].When? && !block[i].Coordinates? {
        if 8 <= i < 8 + |lines| {
          assert block[i] == lines[i - 8];
        }
      }
    }
  }

  /** The prelude and the footer contribute nothing `f` picks. */
  lemma DocumentPickOf<T>(gs: seq<Group>, f: Write -> Option<T>)
    requires f(Head).None? && f(DocumentName).None? && f(Style).None? && f(Foot).None?
    ensures Pick(Document(gs), f) == Pick(Folders(gs), f) + Pick(Rings(gs), f)
  {
    PickBetween(Folders(gs), Rings(gs), f);
  }

  lemma PickBetween<T>(a: seq<Write>, b: seq<Write>, f: Write -> Option<T>)
    requires f(Head).None? && f(DocumentName).None? && f(Style).None? && f(Foot).None?
    ensures Pick(Prelude + a + b + [Foot], f) == Pick(a, f) + Pick(b, f)
  {
    PickBeforeFoot(Prelude + a + b, f);
    PickAppend(Prelude + a, b, f);
    PickAfterPrelude(a, f);
  }

  lemma PickBeforeFoot<T>(a: seq<Write>, f: Write -> Option<T>)
    requires f(Foot).None?
    ensures Pick(a + [Foot], f) == Pick(a, f)
  {
    assert (a + [Foot])[..|a|] == a;
  }

  lemma PickAfterPrelude<T>(a: seq<Write>, f: Write -> Option<T>)
    requires f(Head).None? && f(DocumentName).None? && f(Style).None?
    ensures Pick(Prelude + a, f) == Pick(a, f)
  {
    PickAppend(Prelude, a, f);
    PickNone(Prelude, f);
  }

  /** The whole document: the Folders are the groups in order, and both the
      point placemarks and the polygon vertices follow every row, group
      after group. */
  lemma DocumentPick(gs: seq<Group>)
    ensures Pick(Document(gs), FolderOf) == Names(gs)
    ensures Pick(Document(gs), StampOf) == Times(AllRows(gs))
    ensures Pick(Document(gs), PointOf) == Positions(AllRows(gs))
    ensures Pick(Document(gs), RingPointOf) == Positions(AllRows(gs))
  {
    DocumentNames(gs);
    DocumentStamps(gs);
    DocumentPoints(gs);
    DocumentRingPoints(gs);
  }

  lemma DocumentNames(gs: seq<Group>)
    ensures Pick(Document(gs), FolderOf) == Names(gs)
  {
    DocumentPickOf(gs, FolderOf);
    FoldersNames(gs);
    RingsKinds(gs);
    PickNone(Rings(gs), FolderOf);
  }

  lemma DocumentStamps(gs: seq<Group>)
    ensures Pick(Document(gs), StampOf) == Times(AllRows(gs))
  {
    DocumentPickOf(gs, StampOf);
    FoldersStamps(gs);
    RingsKinds(gs);
    PickNone(Rings(gs), StampOf);
  }

  lemma DocumentPoints(gs: seq<Group>)
    ensures Pick(Document(gs), PointOf) == Positions(AllRows(gs))
  {
    DocumentPickOf(gs, PointOf);
    FoldersPoints(gs);
    RingsKinds(gs);
    PickNone(Rings(gs), PointOf);
  }

  lemma DocumentRingPoints(gs: seq<Group>)
    ensures Pick(Document(gs), RingPointOf) == Positions(AllRows(gs))
  {
    DocumentPickOf(gs, RingPointOf);
    RingsPoints(gs);
    FoldersKinds(gs);
    PickNone(Folders(gs), RingPointOf);
  }

  /** For a frame: one Folder per vehicle in ascending order of name, and
      as many time stamps, points and polygon vertices as there are rows. */
  lemma FrameDocument(rows: seq<Row>)
    ensures var doc := Document(GroupBy(rows));
            && Pick(doc, FolderOf) == GroupKeys(rows)
            && |Pick(doc, StampOf)| == |rows|
            && |Pick(doc, PointOf)| == |rows|
            && Pick(doc, RingPointOf) == Pick(doc, PointOf)
  {
    var gs := GroupBy(rows);
    DocumentPick(gs);
    AllRowsTotal(gs);
    GroupByPartitions(rows);
    assert Names(gs) == GroupKeys(rows);
  }
}
