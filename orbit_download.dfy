/** The arithmetic of `download_sp3`: which ultra-rapid orbit file covers an
    instant, which one precedes it, and where both sit on the server. */
module OrbitDownload {
  import opened Wrappers
  import opened Decimal
  import opened Calendar
  import opened GpsTime

  const FtpDataRoot: string := "/pub/igs/products/"

  /** The 6-hour bucket of a second of day given in micro-seconds:
      `int(gpsS) // 3600 // 6 * 6`. */
  function SlotHour(secondOfDay: int): (h: int)
    ensures 0 <= secondOfDay < MicrosPerDay ==> h == 0 || h == 6 || h == 12 || h == 18
    ensures 0 <= secondOfDay ==> h * MicrosPerHour <= secondOfDay < (h + 6) * MicrosPerHour
  {
    secondOfDay / MicrosPerSecond / 3600 / 6 * 6
  }

  /** Hours since the start of GPS week 0 of the slot (week, day, hour). */
  function SlotIndex(w: int, d: int, h: int): int {
    (w * 7 + d) * 24 + h
  }

  /** The unique (week, day, hour) with day in 0..6 and hour in 0..23 that
      encodes hour k. */
  function SlotOfIndex(k: int): (s: (int, int, int))
    ensures 0 <= s.1 < 7 && 0 <= s.2 < 24
    ensures SlotIndex(s.0, s.1, s.2) == k
  {
    (k / 168, k % 168 / 24, k % 24)
  }

  lemma SlotOfIndexOfSlot(w: int, d: int, h: int)
    requires 0 <= d < 7 && 0 <= h < 24
    ensures SlotOfIndex(SlotIndex(w, d, h)) == (w, d, h)
  {
    var k := SlotIndex(w, d, h);
    assert k == w * 168 + (d * 24 + h);
    assert k / 168 == w && k % 168 == d * 24 + h;
  }

  /** The slot 6 hours before (w, d, h), computed as the source does: step
      the hour back, then borrow a day, then borrow a week. */
  method PreviousSlot(w: int, d: int, h: int) returns (w2: int, d2: int, h2: int)
    ensures SlotIndex(w2, d2, h2) == SlotIndex(w, d, h) - 6
    ensures 0 <= h < 30 ==> 0 <= h2 < 24
    ensures 0 <= d < 7 ==> 0 <= d2 < 7
    ensures w2 == w || w2 == w - 1
    ensures 0 <= d < 7 && 0 <= h < 24 ==> (w2, d2, h2) == SlotOfIndex(SlotIndex(w, d, h) - 6)
  {
    w2, d2, h2 := w, d, h;
    h2 := h2 - 6;
    if h2 < 0 {
      h2 := h2 + 24;
      d2 := d2 - 1;
    }
    if d2 < 0 {
      d2 := d2 + 7;
      w2 := w2 - 1;
    }
    if 0 <= d < 7 && 0 <= h < 24 {
      SlotOfIndexOfSlot(w2, d2, h2);
    }
  }

  /** `"igu%d%d_%02d.sp3.Z" % (week, day, hour)`. */
  function OrbitFileName(w: int, d: int, h: int): string {
    "igu" + IntText(w) + IntText(d) + "_" + IntText02(h) + ".sp3.Z"
  }

  /** Reads week, day and hour back from a file name with a non-negative
      week; the day is the single digit before the underscore. */
  function ParseOrbitFileName(name: string): Option<(int, int, int)> {
    if |name| >= 14 && name[..3] == "igu" && name[|name| - 6..] == ".sp3.Z" && name[|name| - 9] == '_' then
      var mid := name[3..|name| - 9];
      var hh := name[|name| - 8..|name| - 6];
      if AllDigits(mid) && AllDigits(hh) then
        Some((DigitsValue(mid[..|mid| - 1]), DigitValue(mid[|mid| - 1]), DigitsValue(hh)))
      else None
    else None
  }

  /** The file name encodes its slot: it parses back to week, day and hour. */
  lemma ParseOrbitFileNameOfName(w: int, d: int, h: int)
    requires 0 <= w && 0 <= d < 10 && 0 <= h < 100
    ensures ParseOrbitFileName(OrbitFileName(w, d, h)) == Some((w, d, h))
  {
    var name := OrbitFileName(w, d, h);
    var ws, ds, hs := NatText(w), NatText(d), PadText(h, 2);
    assert name == "igu" + ws + ds + "_" + hs + ".sp3.Z";
    assert |ds| == 1 && |hs| == 2;
    var mid := name[3..|name| - 9];
    assert mid == ws + ds;
    assert name[|name| - 8..|name| - 6] == hs;
    assert name[|name| - 6..] == ".sp3.Z";
    assert name[|name| - 9] == '_';
    assert mid[..|mid| - 1] == ws;
    NatTextValue(w);
    NatTextValue(d);
  }

  /** `"%s%d/%s" % (ftp_data_root, week, name)`: the archive keeps each
      GPS week's products in a directory named after the week. */
  function ServerPath(week: int, name: string): string {
    FtpDataRoot + IntText(week) + "/" + name
  }

  /** Name of the file 6 hours before the slot (w, d, h). */
  function PreviousName(w: int, d: int, h: int): string {
    var (w2, d2, h2) := SlotOfIndex(SlotIndex(w, d, h) - 6);
    OrbitFileName(w2, d2, h2)
  }

  /** The fallback path as written: the previous file's name under the
      directory of the CURRENT week. */
  function FallbackPathAsWritten(w: int, d: int, h: int): string {
    ServerPath(w, PreviousName(w, d, h))
  }

  /** The fallback path as intended: the previous file under its own week. */
  function FallbackPath(w: int, d: int, h: int): string {
    ServerPath(SlotOfIndex(SlotIndex(w, d, h) - 6).0, PreviousName(w, d, h))
  }

  /** The corrected fallback always looks in the directory of the week that
      its own file name carries. */
  lemma FallbackInOwnWeek(w: int, d: int, h: int)
    requires 1 <= w && 0 <= d < 7 && 0 <= h < 24
    ensures var name := PreviousName(w, d, h);
            ParseOrbitFileName(name).Some? &&
            FallbackPath(w, d, h) == ServerPath(ParseOrbitFileName(name).value.0, name)
  {
    var p := SlotOfIndex(SlotIndex(w, d, h) - 6);
    assert p.0 >= 0;
    ParseOrbitFileNameOfName(p.0, p.1, p.2);
  }

  /** In the first 6 hours of a GPS week (day 0, bucket 0) the fallback as
      written asks directory w for the file of week w - 1, day 6, 18h. */
  lemma FallbackAsWrittenMissesWeek(w: int)
    requires 1 <= w
    ensures var name := PreviousName(w, 0, 0);
            ParseOrbitFileName(name) == Some((w - 1, 6, 18)) &&
            FallbackPathAsWritten(w, 0, 0) == ServerPath(w, name) &&
            FallbackPath(w, 0, 0) == ServerPath(w - 1, name)
  {
    var k := SlotIndex(w, 0, 0) - 6;
    assert k == (w - 1) * 168 + 162;
    assert SlotOfIndex(k) == (w - 1, 6, 18);
    var name := OrbitFileName(w - 1, 6, 18);
    assert PreviousName(w, 0, 0) == name;
    ParseOrbitFileNameOfName(w - 1, 6, 18);
    assert FallbackPath(w, 0, 0) == ServerPath(w - 1, name);
  }

  /** The primary file for a 6-hour slot, the one before it, and the
      server paths of both: the fallback path as the source builds it, under
      the current week, and as intended, under the previous file's week. */
  datatype OrbitFiles = OrbitFiles(name: string, path: string, previousName: string,
                                   previousPathAsWritten: string, previousPath: string)

  /** The names and paths `download_sp3` derives from the instant `dt`
      (UTC) before it contacts the server. */
  method OrbitCandidates(dt: Instant) returns (r: Result<OrbitFiles, TimeError>)
    ensures r.Ok? <==> Gps2Wdt(dt).Ok?
    ensures r.Err? ==> r.error == Gps2Wdt(dt).error
    ensures r.Ok? ==>
      var wt := Gps2Wdt(dt).value;
      var h := SlotHour(wt.secondOfDay);
      && (h == 0 || h == 6 || h == 12 || h == 18)
      && r.value.name == OrbitFileName(wt.week, wt.day, h)
      && r.value.path == ServerPath(wt.week, r.value.name)
      && r.value.previousName == PreviousName(wt.week, wt.day, h)
      && r.value.previousPathAsWritten == FallbackPathAsWritten(wt.week, wt.day, h)
      && r.value.previousPath == FallbackPath(wt.week, wt.day, h)
  {
    var wdt := Gps2Wdt(dt);
    if wdt.Err? {
      return Err(wdt.error);
    }
    var gpsW, gpsD, gpsS := wdt.value.week, wdt.value.day, wdt.value.secondOfDay;
    var gpsH := SlotHour(gpsS);
    var files := SlotFiles(gpsW, gpsD, gpsH);
    r := Ok(files);
  }

  /** The primary and the previous file of the slot (w, d, h) with their paths. */
  method SlotFiles(w: int, d: int, h: int) returns (f: OrbitFiles)
    requires 0 <= d < 7 && 0 <= h < 24
    ensures f.name == OrbitFileName(w, d, h) && f.path == ServerPath(w, f.name)
    ensures f.previousName == PreviousName(w, d, h)
    ensures f.previousPathAsWritten == FallbackPathAsWritten(w, d, h)
    ensures f.previousPath == FallbackPath(w, d, h)
  {
    var name := OrbitFileName(w, d, h);
    var w2, d2, h2 := PreviousSlot(w, d, h);
    var previous := OrbitFileName(w2, d2, h2);
    assert previous == PreviousName(w, d, h);
    f := OrbitFiles(name, ServerPath(w, name), previous, ServerPath(w, previous), ServerPath(w2, previous));
  }
}
