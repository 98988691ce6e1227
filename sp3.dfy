/** `read_sp3`: the orbit records of an SP3 precise-orbit file. After a
    fixed-size header, epoch lines (`*  yyyy mm dd hh mm ss.ssssssss`, GPS
    time) announce the instant of the data lines that follow them; every
    data line becomes one record stamped with the UTC version of the most
    recent epoch. */
module Sp3 {
  import opened Wrappers
  import opened Decimal
  import opened PyStrings
  import opened Calendar
  import opened GpsTime

  /** Lines of header the reader drops unread. */
  const HeaderLines: nat := 22

  /** Tokens of a data line that reach the frame: the vehicle and the eight
      value columns coor_x, coor_y, coor_z, clock, std_x, std_y, std_z, std_c. */
  const RecordTokens: nat := 9

  /** How the reader sees one line, by the tests it applies in order. */
  datatype Line =
    | Blank
    | Epoch(fields: seq<string>)
    | EndMarker
    | Data(first: string, rest: seq<string>)

  function Classify(ln: string): (c: Line)
    ensures c.Blank? <==> IsBlank(ln)
    ensures c.Epoch? <==> !IsBlank(ln) && StartsWith(ln, "*  ")
    ensures c.EndMarker? <==> !IsBlank(ln) && !StartsWith(ln, "*  ") && StartsWith(ln, "EOF")
    ensures c.Epoch? ==> c.fields == Tokens(ln)[1..]
    ensures c.Data? ==> Tokens(ln) == [c.first] + c.rest
  {
    if IsBlank(ln) then Blank
    else if StartsWith(ln, "*  ") then Epoch(Tokens(ln)[1..])
    else if StartsWith(ln, "EOF") then EndMarker
    else Data(Tokens(ln)[0], Tokens(ln)[1..])
  }

  /** Why reading stops with an exception. */
  datatype Sp3Error =
    | MissingField          // an epoch line with fewer than six fields
    | BadNumber             // a field that `int` or `float` rejects
    | BadDateTime           // fields that the `datetime` constructor rejects
    | TimeFailure(cause: TimeError)  // the GPS instant has no leap-table entry
    | NoEpoch               // a data line before any epoch line

  /** Index of the first '.' in s, or |s| when there is none. */
  function DotIndex(s: string): (k: nat)
    ensures k <= |s|
    ensures k < |s| ==> s[k] == '.'
    ensures forall i :: 0 <= i < k ==> s[i] != '.'
  {
    if s == [] || s[0] == '.' then 0 else 1 + DotIndex(s[1..])
  }

  /** The first six fraction digits, padded with zeros on the right. */
  function SixDigits(frac: string): (s: string)
    requires AllDigits(frac)
    ensures |s| == 6 && AllDigits(s)
    ensures |frac| < 6 ==> s == frac + Zeros(6 - |frac|)
  {
    if |frac| >= 6 then frac[..6] else frac + Zeros(6 - |frac|)
  }

  /** The sign `float()` reads off a token, and the rest of the token. */
  function SignSplit(tok: string): (r: (bool, string))
    ensures r.0 ==> |tok| > 0 && tok[0] == '-'
    ensures |r.1| + (if r.1 == tok then 0 else 1) == |tok|
  {
    if |tok| > 0 && (tok[0] == '-' || tok[0] == '+') then (tok[0] == '-', tok[1..]) else (false, tok)
  }

  /** An unsigned `digits[.digits]`: its whole part and its first six
      fraction digits, zero-filled. */
  function ParseUnsignedSeconds(body: string): (r: Option<(nat, nat)>)
    ensures r.Some? ==> r.value.1 < MicrosPerSecond
  {
    var k := DotIndex(body);
    var whole := body[..k];
    var frac := if k < |body| then body[k + 1..] else "";
    if AllDigits(whole) && AllDigits(frac) && |whole| + |frac| >= 1 then
      DigitsValueBound(SixDigits(frac));
      assert Pow10(6) == MicrosPerSecond;
      Some((DigitsValue(whole), DigitsValue(SixDigits(frac))))
    else None
  }

  /** The seconds field of an epoch line as `int(x)` and
      `int((x - int(x)) * 1e6)` over `x = float(tok)`: both parts truncated
      toward zero and carrying the sign of x. */
  function ParseSeconds(tok: string): (r: Option<(int, int)>)
    ensures r.Some? ==> -MicrosPerSecond < r.value.1 < MicrosPerSecond
    ensures r.Some? ==> (0 <= r.value.0 && 0 <= r.value.1) || (r.value.0 <= 0 && r.value.1 <= 0)
  {
    var sp := SignSplit(tok);
    match ParseUnsignedSeconds(sp.1)
    case None => None
    case Some(p) =>
      var sec: int, micro: int := p.0, p.1;
      if sp.0 then Some((-sec, -micro)) else Some((sec, micro))
  }

  /** The optional sign in front of a decimal. */
  datatype SignMark = NoSign | Plus | Minus

  function SignText(sign: SignMark): string {
    match sign
    case NoSign => ""
    case Plus => "+"
    case Minus => "-"
  }

  /** A decimal as `float()` accepts it without exponent: an optional sign,
      whole digits, and an optional point followed by fraction digits. */
  function DecimalText(sign: SignMark, ws: string, fs: string, point: bool): string {
    SignText(sign) + ws + (if point then "." + fs else "")
  }

  /** Any such decimal reads as its whole part and its first six fraction
      digits (zero-filled), both negated under a minus sign. */
  lemma ParseSecondsOfDecimal(sign: SignMark, ws: string, fs: string, point: bool)
    requires AllDigits(ws) && AllDigits(fs) && |ws| + |fs| >= 1
    requires point || fs == ""
    ensures ParseSeconds(DecimalText(sign, ws, fs, point)).Some?
    ensures var r := ParseSeconds(DecimalText(sign, ws, fs, point)).value;
            r.0 == (if sign == Minus then -(DigitsValue(ws) as int) else DigitsValue(ws) as int)
    ensures var r := ParseSeconds(DecimalText(sign, ws, fs, point)).value;
            Truncates(if sign == Minus then -r.1 else r.1, DigitsValue(fs), |fs|)
  {
    var tok := DecimalText(sign, ws, fs, point);
    var body := ws + (if point then "." + fs else "");
    DecimalSignSplit(sign, ws, fs, point);
    UnsignedDecimalTruncates(ws, fs, point);
    ParseSecondsOfSplit(tok);
    TruncatesSigned(sign == Minus, ParseSeconds(tok).value.1, ParseUnsignedSeconds(body).value.1,
                    DigitsValue(fs), |fs|);
  }

  lemma TruncatesSigned(neg: bool, r: int, u: int, v: nat, n: nat)
    requires r == (if neg then -u else u) && Truncates(u, v, n)
    ensures Truncates(if neg then -r else r, v, n)
  {
  }

  lemma UnsignedDecimalTruncates(ws: string, fs: string, point: bool)
    requires AllDigits(ws) && AllDigits(fs) && |ws| + |fs| >= 1
    requires point || fs == ""
    ensures var r := ParseUnsignedSeconds(ws + (if point then "." + fs else ""));
            && r.Some? && r.value.0 == DigitsValue(ws)
            && Truncates(r.value.1, DigitsValue(fs), |fs|)
  {
    UnsignedOfDecimal(ws, fs, point);
    SixDigitsTruncates(fs);
  }

  lemma SignedOfParts(tok: string, body: string, neg: bool, w: int, u: int)
    requires SignSplit(tok).0 == neg && SignSplit(tok).1 == body
    requires ParseUnsignedSeconds(body).Some?
    requires ParseUnsignedSeconds(body).value.0 == w && ParseUnsignedSeconds(body).value.1 == u
    ensures ParseSeconds(tok).Some?
    ensures ParseSeconds(tok).value.0 == (if neg then -w else w)
    ensures ParseSeconds(tok).value.1 == (if neg then -u else u)
  {
    ParseSecondsOfSplit(tok);
  }

  lemma DecimalSignSplit(sign: SignMark, ws: string, fs: string, point: bool)
    requires AllDigits(ws) && |ws| + |fs| >= 1
    requires point || fs == ""
    ensures SignSplit(DecimalText(sign, ws, fs, point)).0 == (sign == Minus)
    ensures SignSplit(DecimalText(sign, ws, fs, point)).1 == ws + (if point then "." + fs else "")
  {
    var body := ws + (if point then "." + fs else "");
    assert DecimalText(sign, ws, fs, point) == SignText(sign) + body;
    if |ws| > 0 { assert body[0] == ws[0]; } else { assert body[0] == '.'; }
    SignSplitOf(sign, body);
  }

  lemma ParseSecondsOfSplit(tok: string)
    ensures ParseSeconds(tok).Some? <==> ParseUnsignedSeconds(SignSplit(tok).1).Some?
    ensures ParseSeconds(tok).Some? ==>
              var neg, p := SignSplit(tok).0, ParseUnsignedSeconds(SignSplit(tok).1).value;
              && ParseSeconds(tok).value.0 == (if neg then -(p.0 as int) else p.0 as int)
              && ParseSeconds(tok).value.1 == (if neg then -(p.1 as int) else p.1 as int)
  {
  }

  lemma SignSplitOf(sign: SignMark, body: string)
    requires |body| > 0 && body[0] != '-' && body[0] != '+'
    ensures SignSplit(SignText(sign) + body) == (sign == Minus, body)
  {
    var tok := SignText(sign) + body;
    if sign == NoSign {
      assert tok == body;
    } else {
      assert tok[0] == SignText(sign)[0] && tok[1..] == body;
    }
  }

  lemma UnsignedOfDecimal(ws: string, fs: string, point: bool)
    requires AllDigits(ws) && AllDigits(fs) && |ws| + |fs| >= 1
    requires point || fs == ""
    ensures var r := ParseUnsignedSeconds(ws + (if point then "." + fs else ""));
            r.Some? && r.value.0 == DigitsValue(ws) && r.value.1 == DigitsValue(SixDigits(fs))
  {
    var body := ws + (if point then "." + fs else "");
    assert forall i :: 0 <= i < |ws| ==> body[i] == ws[i];
    if point {
      var tail := "." + fs;
      assert body == ws + tail && body[|ws|..] == tail;
      assert body[|ws|] == '.';
      assert body[|ws| + 1..] == tail[1..] == fs;
      DotIndexAt(body, |ws|);
    } else {
      assert body == ws;
      assert forall i :: 0 <= i < |ws| ==> body[i] != '.';
    }
    assert body[..|ws|] == ws;
    UnsignedOfParts(body, ws, fs);
  }

  lemma UnsignedOfParts(body: string, ws: string, fs: string)
    requires AllDigits(ws) && AllDigits(fs) && |ws| + |fs| >= 1
    requires DotIndex(body) == |ws| && body[..|ws|] == ws
    requires (if |ws| < |body| then body[|ws| + 1..] else "") == fs
    ensures var r := ParseUnsignedSeconds(body);
            r.Some? && r.value.0 == DigitsValue(ws) && r.value.1 == DigitsValue(SixDigits(fs))
  {
  }

  /** An unsigned decimal with at least six fraction digits reads as its
      whole part and its first six fraction digits. */
  lemma ParseSecondsOfParts(ws: string, fs: string, rest: string)
    requires |ws| >= 1 && AllDigits(ws) && |fs| == 6 && AllDigits(fs) && AllDigits(rest)
    ensures ParseSeconds(ws + "." + fs + rest) == Some((DigitsValue(ws) as int, DigitsValue(fs) as int))
  {
    var tok := DecimalText(NoSign, ws, fs + rest, true);
    LongDecimalParts(ws, fs, rest);
    SomePair(ParseSeconds(tok), DigitsValue(ws), DigitsValue(fs));
    UnsignedText(ws, fs, rest);
  }

  lemma UnsignedText(ws: string, fs: string, rest: string)
    ensures DecimalText(NoSign, ws, fs + rest, true) == ws + "." + fs + rest
  {
  }

  lemma LongDecimalParts(ws: string, fs: string, rest: string)
    requires |ws| >= 1 && AllDigits(ws) && |fs| == 6 && AllDigits(fs) && AllDigits(rest)
    ensures AllDigits(fs + rest)
    ensures var r := ParseSeconds(DecimalText(NoSign, ws, fs + rest, true));
            r.Some? && r.value.0 == DigitsValue(ws) && r.value.1 == DigitsValue(fs)
  {
    var frac := fs + rest;
    assert AllDigits(frac);
    assert SixDigits(frac) == fs by {
      assert frac[..6] == fs;
    }
    DecimalSignSplit(NoSign, ws, frac, true);
    UnsignedOfDecimal(ws, frac, true);
    SignedOfParts(DecimalText(NoSign, ws, frac, true), ws + ("." + frac), false, DigitsValue(ws), DigitsValue(fs));
  }

  lemma SomePair(r: Option<(int, int)>, a: int, b: int)
    requires r.Some? && r.value.0 == a && r.value.1 == b
    ensures r == Some((a, b))
  {
  }

  /** m micro-seconds is the fraction v / 10^n truncated toward zero:
      m / 10^6 <= v / 10^n < (m + 1) / 10^6. */
  predicate Truncates(m: int, v: nat, n: nat) {
    0 <= m && m * Pow10(n) <= v * MicrosPerSecond < (m + 1) * Pow10(n)
  }

  /** The six fraction digits are the fraction truncated to micro-seconds. */
  lemma SixDigitsTruncates(fs: string)
    requires AllDigits(fs)
    ensures Truncates(DigitsValue(SixDigits(fs)), DigitsValue(fs), |fs|)
  {
    if |fs| >= 6 {
      LongFractionTruncates(fs);
    } else {
      ShortFractionTruncates(fs);
    }
  }

  lemma LongFractionTruncates(fs: string)
    requires AllDigits(fs) && |fs| >= 6
    ensures Truncates(DigitsValue(SixDigits(fs)), DigitsValue(fs), |fs|)
  {
    var p, q := fs[..6], fs[6..];
    assert SixDigits(fs) == p;
    SplitFractionValue(fs);
    MicrosShift(|fs|);
    DigitsValueBound(q);
    TruncateLong(DigitsValue(p), DigitsValue(fs), |fs|, DigitsValue(q), Pow10(|q|));
  }

  lemma SplitFractionValue(fs: string)
    requires AllDigits(fs) && |fs| >= 6
    ensures DigitsValue(fs) == DigitsValue(fs[..6]) * Pow10(|fs| - 6) + DigitsValue(fs[6..])
  {
    var p, q := fs[..6], fs[6..];
    assert fs == p + q;
    DigitsValueAppend(p, q);
    assert |q| == |fs| - 6;
  }

  lemma MicrosShift(n: nat)
    requires n >= 6
    ensures Pow10(n) == MicrosPerSecond * Pow10(n - 6)
  {
    assert Pow10(6) == MicrosPerSecond;
    Pow10Add(6, n - 6);
  }

  lemma ShortFractionTruncates(fs: string)
    requires AllDigits(fs) && |fs| < 6
    ensures Truncates(DigitsValue(SixDigits(fs)), DigitsValue(fs), |fs|)
  {
    var k := 6 - |fs|;
    AppendZerosValue(fs, k);
    MicrosSplit(|fs|);
    TruncateShort(DigitsValue(SixDigits(fs)), DigitsValue(fs + Zeros(k)), DigitsValue(fs), |fs|, Pow10(k));
  }

  lemma MicrosSplit(n: nat)
    requires n <= 6
    ensures MicrosPerSecond == Pow10(n) * Pow10(6 - n)
  {
    assert Pow10(6) == MicrosPerSecond;
    Pow10Add(n, 6 - n);
  }

  lemma TruncateLong(u: nat, v: nat, n: nat, vq: int, pq: int)
    requires 0 <= vq < pq && v == u * pq + vq && Pow10(n) == MicrosPerSecond * pq
    ensures Truncates(u, v, n)
  {
    var p := Pow10(n);
    assert u * p == (u * pq) * MicrosPerSecond;
    assert v * MicrosPerSecond == (u * pq) * MicrosPerSecond + vq * MicrosPerSecond;
    assert (u + 1) * p == (u * pq) * MicrosPerSecond + pq * MicrosPerSecond;
    assert vq * MicrosPerSecond < pq * MicrosPerSecond;
  }

  lemma TruncateShort(u: nat, w: nat, v: nat, n: nat, pz: int)
    requires u == w && w == v * pz && MicrosPerSecond == Pow10(n) * pz
    ensures Truncates(u, v, n)
  {
    var p := Pow10(n);
    assert u * p == v * MicrosPerSecond;
  }

  /** `"%d.%06d" % (s, us)` followed by further decimals: the seconds field
      as a writer with at least micro-second precision prints it. */
  function SecondsText(s: nat, us: nat, rest: string): string {
    NatText(s) + "." + PadText(us, 6) + rest
  }

  /** Seconds written with at least six decimals read back exactly. */
  lemma ParseSecondsOfText(s: nat, us: nat, rest: string)
    requires us < MicrosPerSecond && AllDigits(rest)
    ensures ParseSeconds(SecondsText(s, us, rest)) == Some((s, us))
  {
    assert |PadText(us, 6)| == 6 by {
      if |NatText(us)| > 6 {
        Pow10Monotone(6, |NatText(us)| - 1);
        NatTextLeadingDigit(us);
        assert false;
      }
    }
    NatTextValue(s);
    ParseSecondsOfParts(NatText(s), PadText(us, 6), rest);
  }

  lemma {:induction false} DotIndexAt(s: string, k: nat)
    requires k < |s| && s[k] == '.'
    requires forall i :: 0 <= i < k ==> s[i] != '.'
    ensures DotIndex(s) == k
    decreases k
  {
    if k > 0 {
      DotIndexAt(s[1..], k - 1);
    }
  }

  /** The `i`-th epoch field through `int`. */
  function IntField(fields: seq<string>, i: nat): (r: Result<int, Sp3Error>)
    ensures r.Ok? <==> i < |fields| && ParseInt(fields[i]).Some?
    ensures r.Ok? ==> ParseInt(fields[i]) == Some(r.value)
    ensures r.Err? ==> r.error == if i < |fields| then BadNumber else MissingField
  {
    if i >= |fields| then Err(MissingField)
    else match ParseInt(fields[i])
      case None => Err(BadNumber)
      case Some(n) => Ok(n)
  }

  /** Six or more fields whose first five `int` accepts, whose sixth is a
      seconds value, and which together name a valid date-time. */
  predicate EpochFieldsValid(fields: seq<string>) {
    && |fields| >= 6
    && ParseInt(fields[0]).Some? && ParseInt(fields[1]).Some? && ParseInt(fields[2]).Some?
    && ParseInt(fields[3]).Some? && ParseInt(fields[4]).Some? && ParseSeconds(fields[5]).Some?
    && ValidDateTime(DateTime(ParseInt(fields[0]).value, ParseInt(fields[1]).value,
                              ParseInt(fields[2]).value, ParseInt(fields[3]).value,
                              ParseInt(fields[4]).value, ParseSeconds(fields[5]).value.0,
                              ParseSeconds(fields[5]).value.1))
  }

  /** The civil date and time an epoch line spells out (still GPS time),
      field by field in the order the source converts them. */
  function EpochDateTime(fields: seq<string>): (r: Result<DateTime, Sp3Error>)
    ensures |fields| < 6 ==> r.Err?
    ensures r.Ok? <==> EpochFieldsValid(fields)
    ensures r.Ok? ==> ValidDateTime(r.value)
    ensures r.Ok? ==>
      && ParseInt(fields[0]) == Some(r.value.year)
      && ParseInt(fields[1]) == Some(r.value.month)
      && ParseInt(fields[2]) == Some(r.value.day)
      && ParseInt(fields[3]) == Some(r.value.hour)
      && ParseInt(fields[4]) == Some(r.value.minute)
      && ParseSeconds(fields[5]) == Some((r.value.second, r.value.microsecond))
  {
    var y :- IntField(fields, 0);
    var m :- IntField(fields, 1);
    var d :- IntField(fields, 2);
    var h :- IntField(fields, 3);
    var mi :- IntField(fields, 4);
    if |fields| < 6 then Err(MissingField)
    else match ParseSeconds(fields[5])
      case None => Err(BadNumber)
      case Some(sm) =>
        var t := DateTime(y, m, d, h, mi, sm.0, sm.1);
        if ValidDateTime(t) then Ok(t) else Err(BadDateTime)
  }

  /** The fields an epoch line for the valid date-time t carries: the
      integer fields in `%d` and the seconds with six or more decimals. */
  function EpochFields(t: DateTime, extraDecimals: string): seq<string>
    requires ValidDateTime(t)
  {
    [IntText(t.year), IntText(t.month), IntText(t.day), IntText(t.hour), IntText(t.minute),
     SecondsText(t.second, t.microsecond, extraDecimals)]
  }

  /** An epoch line written from a date-time is read back as that date-time. */
  lemma EpochDateTimeOfFields(t: DateTime, extraDecimals: string, more: seq<string>)
    requires ValidDateTime(t) && AllDigits(extraDecimals)
    ensures EpochDateTime(EpochFields(t, extraDecimals) + more) == Ok(t)
  {
    var fs := EpochFields(t, extraDecimals) + more;
    assert fs[0] == IntText(t.year) && fs[1] == IntText(t.month) && fs[2] == IntText(t.day);
    assert fs[3] == IntText(t.hour) && fs[4] == IntText(t.minute);
    assert fs[5] == SecondsText(t.second, t.microsecond, extraDecimals);
    IntFieldsParse(t.year, t.month, t.day, t.hour, t.minute);
    ParseSecondsOfText(t.second, t.microsecond, extraDecimals);
    assert IntField(fs, 0) == Ok(t.year);
    assert IntField(fs, 1) == Ok(t.month);
    assert IntField(fs, 2) == Ok(t.day);
    assert IntField(fs, 3) == Ok(t.hour);
    assert IntField(fs, 4) == Ok(t.minute);
  }

  /** Every integer field reads back as the number it was written from. */
  lemma IntFieldsParse(a: int, b: int, c: int, d: int, f: int)
    ensures ParseInt(IntText(a)) == Some(a) && ParseInt(IntText(b)) == Some(b)
    ensures ParseInt(IntText(c)) == Some(c) && ParseInt(IntText(d)) == Some(d)
    ensures ParseInt(IntText(f)) == Some(f)
  {
    ParseIntOfText(a);
    ParseIntOfText(b);
    ParseIntOfText(c);
    ParseIntOfText(d);
    ParseIntOfText(f);
  }

  /** `time_gps2utc` of the epoch line's date-time. */
  function EpochInstant(fields: seq<string>): (r: Result<Instant, Sp3Error>)
    ensures r.Ok? ==> EpochDateTime(fields).Ok? &&
                      Gps2Utc(ToInstant(EpochDateTime(fields).value)) == Ok(r.value)
    ensures EpochDateTime(fields).Err? ==> r == Err(EpochDateTime(fields).error)
    ensures EpochDateTime(fields).Ok? && r.Err? ==>
              r.error == TimeFailure(NoLeapEntry) && ToInstant(EpochDateTime(fields).value) < TableStart
  {
    var t :- EpochDateTime(fields);
    var u := Gps2Utc(ToInstant(t));
    if u.Err? then Err(TimeFailure(u.error)) else Ok(u.value)
  }

  /** One row of the frame, indexed by (vehicle, date_time). The values are
      the tokens after the vehicle, at most eight; columns past the last
      token are missing. */
  datatype OrbitRecord = OrbitRecord(vehicle: string, time: Instant, values: seq<string>)

  function Min(a: int, b: int): int {
    if a <= b then a else b
  }

  /** The row of a data line from its first token and the tokens after
      it: the first nine tokens in all, the vehicle without its first
      character. */
  function MakeRecord(t: Instant, first: string, rest: seq<string>): OrbitRecord {
    OrbitRecord(DropFirst(first), t, rest[..Min(|rest|, RecordTokens - 1)])
  }

  /** Python's `s[1:]`. */
  function DropFirst(s: string): string {
    if s == [] then [] else s[1..]
  }

  /** The reader's state: `cur_time` and the rows written so far. */
  datatype ParserState = ParserState(current: Option<Instant>, records: seq<OrbitRecord>)

  const Start: ParserState := ParserState(None, [])

  /** One pass of the loop body over one classified line. */
  function Step(st: ParserState, c: Line): Result<ParserState, Sp3Error> {
    match c
    case Blank => Ok(st)
    case Epoch(fields) =>
      var t :- EpochInstant(fields);
      Ok(st.(current := Some(t)))
    case EndMarker => Ok(st)
    case Data(first, rest) =>
      if st.current.None? then Err(NoEpoch)
      else Ok(st.(records := st.records + [MakeRecord(st.current.value, first, rest)]))
  }

  /** The loop over the lines L from state st: the first error stops it. */
  function Run(st: ParserState, L: seq<Line>): Result<ParserState, Sp3Error>
    decreases |L|
  {
    if L == [] then Ok(st)
    else
      var s :- Run(st, L[..|L| - 1]);
      Step(s, L[|L| - 1])
  }

  /** Continue a run that has not failed over further lines. */
  function Then(r: Result<ParserState, Sp3Error>, L: seq<Line>): Result<ParserState, Sp3Error> {
    if r.Err? then r else Run(r.value, L)
  }

  /** `f` applied to each element, in order. */
  function MapSeq<A, B>(s: seq<A>, f: A -> B): (r: seq<B>)
    ensures |r| == |s|
    ensures forall i :: 0 <= i < |s| ==> r[i] == f(s[i])
  {
    seq(|s|, i requires 0 <= i < |s| => f(s[i]))
  }

  lemma MapSeqAppend<A, B>(a: seq<A>, b: seq<A>, f: A -> B)
    ensures MapSeq(a + b, f) == MapSeq(a, f) + MapSeq(b, f)
  {
    assert forall i :: 0 <= i < |a| ==> (a + b)[i] == a[i];
    assert forall i :: |a| <= i < |a + b| ==> (a + b)[i] == b[i - |a|];
  }

  /** Each line as the reader classifies it. */
  function Classified(lines: seq<string>): seq<Line> {
    MapSeq(lines, Classify)
  }

  /** `readlines()[22:]`. */
  function Body(lines: seq<string>): seq<string> {
    if |lines| >= HeaderLines then lines[HeaderLines..] else []
  }

  /** What `read_sp3` gives back: False when the file cannot be opened, an
      exception, or the frame of records. */
  datatype Sp3Read =
    | CannotOpen
    | Raised(error: Sp3Error)
    | Frame(records: seq<OrbitRecord>)

  /** The outcome of reading a file whose lines are `file` (None when it
      cannot be opened). */
  function ReadResult(file: Option<seq<string>>): Sp3Read {
    match file
    case None => CannotOpen
    case Some(lines) =>
      match Run(Start, Classified(Body(lines)))
      case Err(e) => Raised(e)
      case Ok(s) => Frame(s.records)
  }

  /** `read_sp3`, over the lines of the file. */
  method ReadSp3(file: Option<seq<string>>) returns (r: Sp3Read)
    ensures r == ReadResult(file)
  {
    if file.None? {
      return CannotOpen;
    }
    var lines := Body(file.value);
    ghost var L := Classified(lines);
    var curTime: Option<Instant> := None;
    var out: seq<OrbitRecord> := [];
    for i := 0 to |lines|
      invariant Run(Start, L[..i]) == Ok(ParserState(curTime, out))
    {
      var ln := lines[i];
      RunPrefixStep(L, i);
      assert L[i] == Classify(ln);
      if IsBlank(ln) {
        continue;
      }
      if StartsWith(ln, "*  ") {
        var t := EpochInstant(Tokens(ln)[1..]);
        if t.Err? {
          RunStopsAt(L, i);
          return Raised(t.error);
        }
        curTime := Some(t.value);
        continue;
      }
      if StartsWith(ln, "EOF") {
        continue;
      }
      if curTime.None? {
        RunStopsAt(L, i);
        return Raised(NoEpoch);
      }
      var toks := Tokens(ln);
      out := out + [MakeRecord(curTime.value, toks[0], toks[1..])];
    }
    assert L[..|L|] == L;
    return Frame(out);
  }

  // ----- The run over a concatenation -----

  /** One more line: the run so far, then one step. */
  lemma RunSnoc(st: ParserState, P: seq<Line>, x: Line)
    ensures Run(st, P + [x]) == if Run(st, P).Err? then Run(st, P) else Step(Run(st, P).value, x)
  {
    assert (P + [x])[..|P|] == P;
  }

  /** Reading A then B is reading A and carrying on with B. */
  lemma {:induction false} RunAppend(st: ParserState, A: seq<Line>, B: seq<Line>)
    ensures Run(st, A + B) == Then(Run(st, A), B)
    decreases |B|
  {
    if B == [] {
      assert A + B == A;
    } else {
      var B' := B[..|B| - 1];
      assert A + B == (A + B') + [B[|B| - 1]];
      RunSnoc(st, A + B', B[|B| - 1]);
      RunAppend(st, A, B');
    }
  }

  /** The run over the first i + 1 lines: the first i, then line i. */
  lemma RunPrefixStep(L: seq<Line>, i: nat)
    requires i < |L|
    ensures Run(Start, L[..i + 1]) ==
            if Run(Start, L[..i]).Err? then Run(Start, L[..i]) else Step(Run(Start, L[..i]).value, L[i])
  {
    RunSnoc(Start, L[..i], L[i]);
    assert L[..i + 1] == L[..i] + [L[i]];
  }

  /** A run that fails at line i fails as a whole. */
  lemma RunStopsAt(L: seq<Line>, i: nat)
    requires i < |L| && Run(Start, L[..i + 1]).Err?
    ensures Run(Start, L) == Run(Start, L[..i + 1])
  {
    RunErrorSticks(Start, L, i + 1);
  }

  /** Once a prefix fails, the whole run fails the same way. */
  lemma RunErrorSticks(st: ParserState, L: seq<Line>, k: nat)
    requires k <= |L| && Run(st, L[..k]).Err?
    ensures Run(st, L) == Run(st, L[..k])
  {
    assert L == L[..k] + L[k..];
    RunAppend(st, L[..k], L[k..]);
  }

  /** Blank lines and `EOF` lines change nothing: inserting one anywhere
      leaves the outcome as it was. */
  lemma RunSkipsLine(st: ParserState, A: seq<Line>, b: Line, B: seq<Line>)
    requires b.Blank? || b.EndMarker?
    ensures Run(st, A + [b] + B) == Run(st, A + B)
  {
    RunAppend(st, A + [b], B);
    RunAppend(st, A, B);
    RunSnoc(st, A, b);
  }

  /** The header's text never matters, and neither do blank or `EOF`
      lines after it. */
  lemma ReadSkipsLine(header: seq<string>, other: seq<string>, A: seq<string>, b: string, B: seq<string>)
    requires |header| == HeaderLines && |other| == HeaderLines
    requires IsBlank(b) || (!StartsWith(b, "*  ") && StartsWith(b, "EOF"))
    ensures ReadResult(Some(header + A + [b] + B)) == ReadResult(Some(other + A + B))
  {
    BodyAround(header, A, b, B);
    BodyJoined(other, A, B);
    RunSkipsLine(Start, Classified(A), Classify(b), Classified(B));
    SameRunSameRead(header + A + [b] + B, other + A + B);
  }

  lemma BodyAfterHeader(header: seq<string>, rest: seq<string>)
    requires |header| == HeaderLines
    ensures Body(header + rest) == rest
  {
    assert (header + rest)[HeaderLines..] == rest;
  }

  lemma ClassifiedAppend(A: seq<string>, B: seq<string>)
    ensures Classified(A + B) == Classified(A) + Classified(B)
  {
    MapSeqAppend(A, B, Classify);
  }

  lemma ClassifiedAround(A: seq<string>, b: string, B: seq<string>)
    ensures Classified(A + [b] + B) == Classified(A) + [Classify(b)] + Classified(B)
  {
    MapSeqAppend(A + [b], B, Classify);
    MapSeqAppend(A, [b], Classify);
    assert MapSeq([b], Classify) == [Classify(b)];
  }

  lemma BodyAround(header: seq<string>, A: seq<string>, b: string, B: seq<string>)
    requires |header| == HeaderLines
    ensures Classified(Body(header + A + [b] + B)) == Classified(A) + [Classify(b)] + Classified(B)
  {
    BodyAfterHeader(header, A + [b] + B);
    ClassifiedAround(A, b, B);
  }

  lemma BodyJoined(header: seq<string>, A: seq<string>, B: seq<string>)
    requires |header| == HeaderLines
    ensures Classified(Body(header + A + B)) == Classified(A) + Classified(B)
  {
    assert header + A + B == header + (A + B);
    BodyAfterHeader(header, A + B);
    ClassifiedAppend(A, B);
  }

  lemma SameRunSameRead(lines: seq<string>, lines': seq<string>)
    requires Run(Start, Classified(Body(lines))) == Run(Start, Classified(Body(lines')))
    ensures ReadResult(Some(lines)) == ReadResult(Some(lines'))
  {
  }

  // ----- What a successful run has produced -----

  /** Index of the last epoch line of L, if any. */
  function LastEpochLine(L: seq<Line>): (r: Option<nat>)
    ensures r.Some? ==> r.value < |L| && L[r.value].Epoch?
    ensures r.Some? ==> forall k :: r.value < k < |L| ==> !L[k].Epoch?
    ensures r.None? <==> forall k :: 0 <= k < |L| ==> !L[k].Epoch?
    decreases |L|
  {
    if L == [] then None
    else if L[|L| - 1].Epoch? then Some(|L| - 1)
    else
      var r := LastEpochLine(L[..|L| - 1]);
      assert forall k :: 0 <= k < |L| - 1 ==> L[..|L| - 1][k] == L[k];
      r
  }

  /** Number of data lines in L. */
  function DataCount(L: seq<Line>): (n: nat)
    ensures n <= |L|
    decreases |L|
  {
    if L == [] then 0
    else DataCount(L[..|L| - 1]) + (if L[|L| - 1].Data? then 1 else 0)
  }

  /** The data line c, read after the lines P, is the record `recs[k]` for
      k = DataCount(P): its time is the UTC instant of the last epoch line
      of P, its vehicle and values come from the line's own tokens. */
  ghost predicate Emits(P: seq<Line>, c: Line, recs: seq<OrbitRecord>)
    requires c.Data?
  {
    var e := LastEpochLine(P);
    && DataCount(P) < |recs|
    && e.Some?
    && EpochInstant(P[e.value].fields) == Ok(recs[DataCount(P)].time)
    && recs[DataCount(P)].vehicle == DropFirst(c.first)
    && recs[DataCount(P)].values == c.rest[..Min(|c.rest|, RecordTokens - 1)]
  }

  /** Every data line of L is the record its position among the data
      lines selects. */
  ghost predicate AllEmit(L: seq<Line>, recs: seq<OrbitRecord>) {
    forall j :: 0 <= j < |L| && L[j].Data? ==> Emits(L[..j], L[j], recs)
  }

  /** A state that a run over L from the start can have reached. */
  ghost predicate Tracks(L: seq<Line>, s: ParserState) {
    && (LastEpochLine(L).None? ==> s.current.None?)
    && (LastEpochLine(L).Some? ==>
          s.current.Some? && EpochInstant(L[LastEpochLine(L).value].fields) == Ok(s.current.value))
    && |s.records| == DataCount(L)
    && AllEmit(L, s.records)
  }

  /** A run that succeeds holds the epoch of the last epoch line and one
      record per data line, in line order, each stamped with the epoch
      that precedes it. */
  lemma {:induction false} RunTracks(L: seq<Line>)
    requires Run(Start, L).Ok?
    ensures Tracks(L, Run(Start, L).value)
    decreases |L|
  {
    if L != [] {
      var P, x := L[..|L| - 1], L[|L| - 1];
      assert L == P + [x];
      RunSnoc(Start, P, x);
      RunTracks(P);
      TracksStep(P, x, Run(Start, P).value, Run(Start, L).value);
    }
  }

  /** One more line keeps the state in step with the lines read. */
  lemma TracksStep(P: seq<Line>, x: Line, s': ParserState, s: ParserState)
    requires Tracks(P, s') && Step(s', x) == Ok(s)
    ensures Tracks(P + [x], s)
  {
    if x.Data? {
      TracksData(P, x, s', s);
    } else {
      TracksOther(P, x, s', s);
    }
  }

  lemma TracksOther(P: seq<Line>, x: Line, s': ParserState, s: ParserState)
    requires Tracks(P, s') && Step(s', x) == Ok(s) && !x.Data?
    ensures Tracks(P + [x], s)
  {
    var L := P + [x];
    assert L[..|L| - 1] == P;
    assert s.records == s'.records + [];
    AllEmitSnoc(P, x, s'.records, []);
  }

  lemma TracksData(P: seq<Line>, x: Line, s': ParserState, s: ParserState)
    requires Tracks(P, s') && Step(s', x) == Ok(s) && x.Data?
    ensures Tracks(P + [x], s)
  {
    var L := P + [x];
    assert L[..|L| - 1] == P;
    var rec := MakeRecord(s'.current.value, x.first, x.rest);
    assert s.records == s'.records + [rec];
    assert Emits(P, x, s.records);
    AllEmitSnoc(P, x, s'.records, [rec]);
  }

  lemma AllEmitSnoc(P: seq<Line>, x: Line, recs: seq<OrbitRecord>, more: seq<OrbitRecord>)
    requires AllEmit(P, recs)
    requires x.Data? ==> Emits(P, x, recs + more)
    ensures AllEmit(P + [x], recs + more)
  {
    var L := P + [x];
    forall j | 0 <= j < |L| && L[j].Data? ensures Emits(L[..j], L[j], recs + more) {
      if j < |P| {
        assert L[..j] == P[..j] && L[j] == P[j];
        EmitsGrow(P[..j], P[j], recs, more);
      } else {
        assert L[..j] == P;
      }
    }
  }

  lemma EmitsGrow(P: seq<Line>, c: Line, recs: seq<OrbitRecord>, more: seq<OrbitRecord>)
    requires c.Data? && Emits(P, c, recs)
    ensures Emits(P, c, recs + more)
  {
    assert (recs + more)[DataCount(P)] == recs[DataCount(P)];
  }

  /** With no epoch line read yet, a run has either stopped for a data
      line or holds no epoch. */
  lemma {:induction false} RunWithoutEpoch(L: seq<Line>)
    requires forall k :: 0 <= k < |L| ==> !L[k].Epoch?
    ensures Run(Start, L) == Err(NoEpoch) || (Run(Start, L).Ok? && Run(Start, L).value.current.None?)
    decreases |L|
  {
    if L != [] {
      var P := L[..|L| - 1];
      assert L == P + [L[|L| - 1]];
      RunSnoc(Start, P, L[|L| - 1]);
      RunWithoutEpoch(P);
    }
  }

  /** A data line with no epoch line before it makes the run fail. */
  lemma DataBeforeEpochFails(L: seq<Line>, j: nat)
    requires j < |L| && L[j].Data?
    requires forall k :: 0 <= k < j ==> !L[k].Epoch?
    ensures Run(Start, L) == Err(NoEpoch)
  {
    var P := L[..j];
    RunWithoutEpoch(P);
    assert L[..j + 1] == P + [L[j]];
    RunSnoc(Start, P, L[j]);
    RunErrorSticks(Start, L, j + 1);
  }

  /** `read_sp3` raises for a data line (after the header) that no epoch
      line precedes, and returns no frame. */
  lemma ReadDataBeforeEpoch(lines: seq<string>, j: nat)
    requires HeaderLines <= j < |lines| && Classify(lines[j]).Data?
    requires forall k :: HeaderLines <= k < j ==> !Classify(lines[k]).Epoch?
    ensures ReadResult(Some(lines)) == Raised(NoEpoch)
  {
    var L := Classified(Body(lines));
    var j' := j - HeaderLines;
    assert L[j'] == Classify(lines[j]);
    forall k | 0 <= k < j' ensures !L[k].Epoch? {
      assert L[k] == Classify(lines[HeaderLines + k]);
    }
    DataBeforeEpochFails(L, j');
  }

  /** A frame holds exactly one record per data line after the header, in
      line order; the record of data line j is stamped with the UTC instant
      of the last epoch line before j. */
  lemma ReadFrame(lines: seq<string>)
    requires ReadResult(Some(lines)).Frame?
    ensures var L, recs := Classified(Body(lines)), ReadResult(Some(lines)).records;
            && |recs| == DataCount(L)
            && forall j :: 0 <= j < |L| && L[j].Data? ==> Emits(L[..j], L[j], recs)
  {
    RunTracks(Classified(Body(lines)));
  }
}
