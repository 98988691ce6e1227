/** The frame-level steps between reading and writing: the column set that
    `convert_ecef2lla` produces, and `groupby(level=[0])`, which splits the
    rows by vehicle with the vehicles in ascending string order and each
    group's rows in frame order. */
module Frames {
  import opened Wrappers
  import opened Calendar

  const Cartesian: seq<string> := ["coor_x", "coor_y", "coor_z"]
  const Geodetic: seq<string> := ["lat", "long", "alt"]

  datatype ConvertError =
    | MissingCartesian    // `df[["coor_x", "coor_y", "coor_z"]]` raises KeyError
    /** `df.join(df_lla)` raises: the columns overlap. On a frame without
        rows `apply` never calls the reprojection and returns the cartesian
        columns themselves, so the join overlaps there too. */
    | OverlappingColumns

  /** Whether every one of `wanted` is a column of `cols`. */
  predicate HasAll(cols: seq<string>, wanted: seq<string>) {
    forall c :: c in wanted ==> c in cols
  }

  /** Whether some one of `candidates` is a column of `cols`. */
  predicate HasAny(cols: seq<string>, candidates: seq<string>) {
    exists c :: c in candidates && c in cols
  }

  /** `cols` without every column named in `drop`, order kept. */
  function Without(cols: seq<string>, drop: seq<string>): (r: seq<string>)
    ensures forall c :: c in r <==> c in cols && c !in drop
    decreases |cols|
  {
    if cols == [] then []
    else (if cols[0] in drop then [] else [cols[0]]) + Without(cols[1..], drop)
  }

  /** The columns of `convert_ecef2lla(df, remove)` for a frame with columns
      `cols` and `rows` rows: lat, long and alt are joined on the right, and
      the cartesian columns are dropped when `remove` is set. */
  function ConvertColumns(cols: seq<string>, rows: nat, remove: bool): (r: Result<seq<string>, ConvertError>)
    ensures r.Ok? <==> HasAll(cols, Cartesian) && rows > 0 && !HasAny(cols, Geodetic)
    ensures r.Err? ==> (r.error == MissingCartesian <==> !HasAll(cols, Cartesian))
    ensures r.Ok? ==> HasAll(r.value, Geodetic)
    ensures r.Ok? ==> forall c :: c in r.value ==> c in cols || c in Geodetic
    ensures r.Ok? && !remove ==> r.value == cols + Geodetic
    ensures r.Ok? && remove ==> !HasAny(r.value, Cartesian)
    ensures r.Ok? && remove ==> forall c :: c in cols && c !in Cartesian ==> c in r.value
  {
    if !HasAll(cols, Cartesian) then Err(MissingCartesian)
    else if rows == 0 || HasAny(cols, Geodetic) then Err(OverlappingColumns)
    else
      var joined := cols + Geodetic;
      Ok(if remove then Without(joined, Cartesian) else joined)
  }

  // ----- String order -----

  /** Python's `<` on strings: code point by code point, a proper prefix
      first. */
  predicate Less(a: string, b: string)
    decreases |a|
  {
    if a == [] then b != []
    else b != [] && (a[0] < b[0] || (a[0] == b[0] && Less(a[1..], b[1..])))
  }

  lemma {:induction false} LessIrreflexive(a: string)
    ensures !Less(a, a)
    decreases |a|
  {
    if a != [] {
      LessIrreflexive(a[1..]);
    }
  }

  lemma {:induction false} LessTransitive(a: string, b: string, c: string)
    requires Less(a, b) && Less(b, c)
    ensures Less(a, c)
    decreases |a|
  {
    if a != [] && a[0] == b[0] && b[0] == c[0] {
      LessTransitive(a[1..], b[1..], c[1..]);
    }
  }

  lemma {:induction false} LessTotal(a: string, b: string)
    requires a != b
    ensures Less(a, b) || Less(b, a)
    decreases |a|
  {
    if a != [] && b != [] && a[0] == b[0] {
      assert a == [a[0]] + a[1..] && b == [b[0]] + b[1..];
      LessTotal(a[1..], b[1..]);
    }
  }

  /** Sorted and without repetition. */
  predicate Ascending(ks: seq<string>) {
    forall i, j :: 0 <= i < j < |ks| ==> Less(ks[i], ks[j])
  }

  /** k put into its place in the ascending ks, unless already there. */
  function Insert(k: string, ks: seq<string>): (r: seq<string>)
    requires Ascending(ks)
    ensures Ascending(r)
    ensures forall x :: x in r <==> x == k || x in ks
    ensures |r| >= 1 && (Less(k, r[0]) || k == r[0] || (ks != [] && r[0] == ks[0]))
    decreases |ks|
  {
    if ks == [] then [k]
    else if k == ks[0] then ks
    else if Less(k, ks[0]) then
      var r := [k] + ks;
      forall i, j | 0 <= i < j < |r| ensures Less(r[i], r[j]) {
        if i == 0 && j > 1 {
          LessTransitive(k, ks[0], ks[j - 1]);
        }
      }
      r
    else
      var rest := Insert(k, ks[1..]);
      LessTotal(k, ks[0]);
      var r := [ks[0]] + rest;
      forall j | 0 <= j < |rest| ensures Less(ks[0], rest[j]) {
        assert rest[j] == k || rest[j] in ks[1..];
        if rest[j] != k {
          var m :| 0 <= m < |ks[1..]| && ks[1..][m] == rest[j];
          assert ks[m + 1] == rest[j];
        }
      }
      forall i, j | 0 <= i < j < |r| ensures Less(r[i], r[j]) {
        if i > 0 {
          assert r[i] == rest[i - 1] && r[j] == rest[j - 1];
        } else {
          assert r[j] == rest[j - 1];
        }
      }
      r
  }

  // ----- Grouping by vehicle -----

  /** A row of a frame with geodetic coordinates, indexed by
      (vehicle, date_time); the time is the civil UTC date-time of the
      index, altitude is in km. */
  datatype Row = Row(vehicle: string, time: CivilTime, lat: real, long: real, alt: real)

  datatype Frame = Frame(columns: seq<string>, rows: seq<Row>)

  /** The vehicles that occur in the rows. */
  function Vehicles(rows: seq<Row>): set<string> {
    set i | 0 <= i < |rows| :: rows[i].vehicle
  }

  lemma VehiclesSnoc(rows: seq<Row>)
    requires rows != []
    ensures Vehicles(rows) == Vehicles(rows[..|rows| - 1]) + {rows[|rows| - 1].vehicle}
  {
    var front := rows[..|rows| - 1];
    forall x | x in Vehicles(rows) ensures x in Vehicles(front) + {rows[|rows| - 1].vehicle} {
      var i :| 0 <= i < |rows| && rows[i].vehicle == x;
      if i < |front| {
        assert front[i].vehicle == x;
      }
    }
    forall x | x in Vehicles(front) ensures x in Vehicles(rows) {
      var i :| 0 <= i < |front| && front[i].vehicle == x;
      assert rows[i].vehicle == x;
    }
  }

  /** The group keys: every vehicle of the rows once, ascending. */
  function GroupKeys(rows: seq<Row>): (ks: seq<string>)
    ensures Ascending(ks)
    ensures forall x :: x in ks <==> x in Vehicles(rows)
    decreases |rows|
  {
    if rows == [] then []
    else
      VehiclesSnoc(rows);
      Insert(rows[|rows| - 1].vehicle, GroupKeys(rows[..|rows| - 1]))
  }

  /** The rows of vehicle k, in frame order. */
  function RowsOf(rows: seq<Row>, k: string): (r: seq<Row>)
    ensures |r| <= |rows|
    ensures forall i :: 0 <= i < |r| ==> r[i].vehicle == k && r[i] in rows
    decreases |rows|
  {
    if rows == [] then []
    else RowsOf(rows[..|rows| - 1], k) + (if rows[|rows| - 1].vehicle == k then [rows[|rows| - 1]] else [])
  }

  datatype Group = Group(name: string, rows: seq<Row>)

  /** `df.groupby(level=[0])`: one group per vehicle, ascending by name. */
  function GroupBy(rows: seq<Row>): (gs: seq<Group>)
    ensures |gs| == |GroupKeys(rows)|
    ensures forall i :: 0 <= i < |gs| ==> gs[i] == Group(GroupKeys(rows)[i], RowsOf(rows, GroupKeys(rows)[i]))
  {
    var ks := GroupKeys(rows);
    seq(|ks|, i requires 0 <= i < |ks| => Group(ks[i], RowsOf(rows, ks[i])))
  }

  /** A vehicle that occurs in the rows has a non-empty group. */
  lemma {:induction false} RowsOfPresent(rows: seq<Row>, k: string)
    requires k in Vehicles(rows)
    ensures |RowsOf(rows, k)| >= 1
    decreases |rows|
  {
    VehiclesSnoc(rows);
    if rows[|rows| - 1].vehicle != k {
      RowsOfPresent(rows[..|rows| - 1], k);
    }
  }

  /** The groups have distinct names in ascending order, cover every
      vehicle, and none is empty. */
  lemma GroupByNames(rows: seq<Row>)
    ensures var gs := GroupBy(rows);
            && (forall i, j :: 0 <= i < j < |gs| ==> Less(gs[i].name, gs[j].name))
            && (forall i :: 0 <= i < |rows| ==> exists g :: g in gs && g.name == rows[i].vehicle)
            && (forall g :: g in gs ==> |g.rows| >= 1 && forall r :: r in g.rows ==> r.vehicle == g.name)
  {
    var gs, ks := GroupBy(rows), GroupKeys(rows);
    forall i | 0 <= i < |rows| ensures exists g :: g in gs && g.name == rows[i].vehicle {
      assert rows[i].vehicle in Vehicles(rows);
      var m :| 0 <= m < |ks| && ks[m] == rows[i].vehicle;
      assert gs[m] in gs;
    }
    forall g | g in gs ensures |g.rows| >= 1 {
      var m :| 0 <= m < |gs| && gs[m] == g;
      RowsOfPresent(rows, ks[m]);
    }
  }

  /** Number of rows over all groups. */
  function Total(gs: seq<Group>): nat
    decreases |gs|
  {
    if gs == [] then 0 else Total(gs[..|gs| - 1]) + |gs[|gs| - 1].rows|
  }

  /** Number of rows over the groups of the keys ks. */
  function SizesOf(rows: seq<Row>, ks: seq<string>): nat
    decreases |ks|
  {
    if ks == [] then 0 else SizesOf(rows, ks[..|ks| - 1]) + |RowsOf(rows, ks[|ks| - 1])|
  }

  /** Number of rows whose vehicle is one of ks. */
  function CountIn(rows: seq<Row>, ks: seq<string>): nat
    decreases |rows|
  {
    if rows == [] then 0
    else CountIn(rows[..|rows| - 1], ks) + (if rows[|rows| - 1].vehicle in ks then 1 else 0)
  }

  /** Occurrences of v in the keys ks. */
  function Occurrences(ks: seq<string>, v: string): nat
    decreases |ks|
  {
    if ks == [] then 0 else Occurrences(ks[..|ks| - 1], v) + (if ks[|ks| - 1] == v then 1 else 0)
  }

  lemma {:induction false} OccurrencesOfDistinct(ks: seq<string>, v: string)
    requires Ascending(ks)
    ensures Occurrences(ks, v) == if v in ks then 1 else 0
    decreases |ks|
  {
    if ks != [] {
      var front := ks[..|ks| - 1];
      assert Ascending(front);
      OccurrencesOfDistinct(front, v);
      if ks[|ks| - 1] == v && v in front {
        var m :| 0 <= m < |front| && front[m] == v;
        assert Less(ks[m], ks[|ks| - 1]);
        LessIrreflexive(v);
      }
      assert v in ks <==> v in front || ks[|ks| - 1] == v;
    }
  }

  /** One more row adds one to the group of its own vehicle. */
  lemma {:induction false} SizesOfSnoc(rows: seq<Row>, r: Row, ks: seq<string>)
    ensures SizesOf(rows + [r], ks) == SizesOf(rows, ks) + Occurrences(ks, r.vehicle)
    decreases |ks|
  {
    if ks != [] {
      SizesOfSnoc(rows, r, ks[..|ks| - 1]);
      assert (rows + [r])[..|rows|] == rows;
    }
  }

  lemma {:induction false} SizesCount(rows: seq<Row>, ks: seq<string>)
    requires Ascending(ks)
    ensures SizesOf(rows, ks) == CountIn(rows, ks)
    decreases |rows|
  {
    if rows == [] {
      SizesOfEmpty(ks);
    } else {
      var front, r := rows[..|rows| - 1], rows[|rows| - 1];
      assert rows == front + [r];
      SizesCount(front, ks);
      SizesOfSnoc(front, r, ks);
      OccurrencesOfDistinct(ks, r.vehicle);
    }
  }

  lemma {:induction false} SizesOfEmpty(ks: seq<string>)
    ensures SizesOf([], ks) == 0
    decreases |ks|
  {
    if ks != [] {
      SizesOfEmpty(ks[..|ks| - 1]);
    }
  }

  lemma {:induction false} CountInAll(rows: seq<Row>, ks: seq<string>)
    requires forall x :: x in Vehicles(rows) ==> x in ks
    ensures CountIn(rows, ks) == |rows|
    decreases |rows|
  {
    if rows != [] {
      VehiclesSnoc(rows);
      CountInAll(rows[..|rows| - 1], ks);
    }
  }

  lemma {:induction false} TotalOfGroups(rows: seq<Row>, ks: seq<string>)
    requires |ks| <= |GroupKeys(rows)| && ks == GroupKeys(rows)[..|ks|]
    ensures Total(GroupBy(rows)[..|ks|]) == SizesOf(rows, ks)
    decreases |ks|
  {
    if ks != [] {
      var n := |ks|;
      assert ks[..n - 1] == GroupKeys(rows)[..n - 1];
      TotalOfGroups(rows, ks[..n - 1]);
      assert GroupBy(rows)[..n][..n - 1] == GroupBy(rows)[..n - 1];
    }
  }

  /** The groups partition the rows: their sizes add up to the row count. */
  lemma GroupByPartitions(rows: seq<Row>)
    ensures Total(GroupBy(rows)) == |rows|
  {
    var ks := GroupKeys(rows);
    assert ks == ks[..|ks|];
    TotalOfGroups(rows, ks);
    assert GroupBy(rows)[..|ks|] == GroupBy(rows);
    SizesCount(rows, ks);
    CountInAll(rows, ks);
  }
}
