/**
 * The EXIF rules shared by every indexer: GPS degree/minute/second triples and
 * hemisphere references become signed decimal degrees, and the camera's
 * `YYYY:MM:DD HH:MM:SS` timestamp becomes a `YYYY-MM-DD` date. Tags are the
 * string-keyed map exifread returns; its binary parse is not modelled.
 */
module Exif {
  import opened Wrappers
  import opened Text

  /** An EXIF rational as exifread reports it; `float()` of one with a zero denominator raises. */
  datatype Ratio = Ratio(num: int, den: int)

  /** One decoded tag: its printable form (`str(tag)`) and its component values (`tag.values`). */
  datatype TagValue = TagValue(printable: string, values: seq<Ratio>)

  type Tags = map<string, TagValue>

  const GPS_LATITUDE := "GPS GPSLatitude"
  const GPS_LATITUDE_REF := "GPS GPSLatitudeRef"
  const GPS_LONGITUDE := "GPS GPSLongitude"
  const GPS_LONGITUDE_REF := "GPS GPSLongitudeRef"
  const DATE_TIME_ORIGINAL := "EXIF DateTimeOriginal"
  const DATE_TIME := "DateTime"

  // ---------------------------------------------------------------------
  // GPS
  // ---------------------------------------------------------------------

  /** `float(r)`, or None where it raises. */
  function RatioValue(r: Ratio): Option<real>
  {
    if r.den == 0 then None else Some(r.num as real / r.den as real)
  }

  /** `float(v[0]) + float(v[1])/60 + float(v[2])/3600`, or None where it raises. */
  function Degrees(v: seq<Ratio>): Option<real>
  {
    if |v| < 3 then None
    else
      match (RatioValue(v[0]), RatioValue(v[1]), RatioValue(v[2]))
      case (Some(d), Some(m), Some(s)) => Some(d + m / 60.0 + s / 3600.0)
      case _ => None
  }

  /** `str(exif_data.get(key, default))` */
  function RefOf(tags: Tags, key: string, default: string): string
  {
    if key in tags then tags[key].printable else default
  }

  /** `extract_gps_from_exif`: a (latitude, longitude) pair, or None. */
  function ExtractGps(tags: Tags): Option<(real, real)>
  {
    if GPS_LATITUDE in tags && GPS_LONGITUDE in tags then
      var latRef := RefOf(tags, GPS_LATITUDE_REF, "N");
      var lngRef := RefOf(tags, GPS_LONGITUDE_REF, "E");
      match (Degrees(tags[GPS_LATITUDE].values), Degrees(tags[GPS_LONGITUDE].values))
      case (Some(lat), Some(lng)) =>
        Some((if latRef == "S" then -lat else lat, if lngRef == "W" then -lng else lng))
      case _ => None
    else None
  }

  /** Three components, none with a zero denominator: the triple converts without raising. */
  predicate Convertible(v: seq<Ratio>)
  {
    |v| >= 3 && v[0].den != 0 && v[1].den != 0 && v[2].den != 0
  }

  /** The decimal degrees of a triple, written out from its raw numerators and denominators. */
  function Sexagesimal(v: seq<Ratio>): real
    requires Convertible(v)
  {
    v[0].num as real / v[0].den as real
    + (v[1].num as real / v[1].den as real) / 60.0
    + (v[2].num as real / v[2].den as real) / 3600.0
  }

  /**
   * A pair is returned exactly when both coordinate tags are present and both
   * convert; one axis is never returned alone.
   */
  lemma GpsPresence(tags: Tags)
    ensures ExtractGps(tags).Some?
      <==> GPS_LATITUDE in tags && GPS_LONGITUDE in tags
           && Convertible(tags[GPS_LATITUDE].values) && Convertible(tags[GPS_LONGITUDE].values)
  {
    if GPS_LATITUDE in tags && GPS_LONGITUDE in tags {
      DegreesWhenConvertible(tags[GPS_LATITUDE].values);
      DegreesWhenConvertible(tags[GPS_LONGITUDE].values);
    }
  }

  lemma DegreesWhenConvertible(v: seq<Ratio>)
    ensures Degrees(v).Some? <==> Convertible(v)
    ensures Convertible(v) ==> Degrees(v) == Some(Sexagesimal(v))
  {
  }

  /**
   * Each axis is degrees + minutes/60 + seconds/3600; latitude is negated exactly
   * when its reference reads "S", longitude exactly when it reads "W", and a
   * missing reference counts as "N" or "E".
   */
  lemma GpsFormula(tags: Tags)
    requires ExtractGps(tags).Some?
    ensures GPS_LATITUDE in tags && GPS_LONGITUDE in tags
    ensures Convertible(tags[GPS_LATITUDE].values) && Convertible(tags[GPS_LONGITUDE].values)
    ensures var lat := Sexagesimal(tags[GPS_LATITUDE].values);
      ExtractGps(tags).value.0
      == if GPS_LATITUDE_REF in tags && tags[GPS_LATITUDE_REF].printable == "S" then -lat else lat
    ensures var lng := Sexagesimal(tags[GPS_LONGITUDE].values);
      ExtractGps(tags).value.1
      == if GPS_LONGITUDE_REF in tags && tags[GPS_LONGITUDE_REF].printable == "W" then -lng else lng
  {
    GpsPresence(tags);
    DegreesWhenConvertible(tags[GPS_LATITUDE].values);
    DegreesWhenConvertible(tags[GPS_LONGITUDE].values);
  }

  /** 37 deg 46' 30" N, 122 deg 25' 6" W is (37.775, -122.41833...). */
  lemma GpsSanFrancisco()
    ensures ExtractGps(map[
      GPS_LATITUDE := TagValue("[37, 46, 30]", [Ratio(37, 1), Ratio(46, 1), Ratio(30, 1)]),
      GPS_LATITUDE_REF := TagValue("N", []),
      GPS_LONGITUDE := TagValue("[122, 25, 6]", [Ratio(122, 1), Ratio(25, 1), Ratio(6, 1)]),
      GPS_LONGITUDE_REF := TagValue("W", [])])
      == Some((37.775, -(440706.0 / 3600.0)))
  {
  }

  // ---------------------------------------------------------------------
  // Dates
  // ---------------------------------------------------------------------

  datatype CalendarDate = CalendarDate(year: nat, month: nat, day: nat)
  datatype ClockTime = ClockTime(hour: nat, minute: nat, second: nat)

  predicate IsLeapYear(y: nat) { y % 4 == 0 && (y % 100 != 0 || y % 400 == 0) }

  function DaysInMonth(y: nat, m: nat): nat
    requires 1 <= m <= 12
  {
    if m == 2 then (if IsLeapYear(y) then 29 else 28)
    else if m == 4 || m == 6 || m == 9 || m == 11 then 30
    else 31
  }

  /** A date Python's `datetime` accepts (years 1 to 9999). */
  predicate ValidDate(d: CalendarDate)
  {
    1 <= d.year <= 9999 && 1 <= d.month <= 12 && 1 <= d.day <= DaysInMonth(d.year, d.month)
  }

  predicate ValidTime(t: ClockTime) { t.hour < 24 && t.minute < 60 && t.second < 60 }

  /** A calendar date as `datetime.fromtimestamp` produces one. */
  type Date = d: CalendarDate | ValidDate(d) witness CalendarDate(1970, 1, 1)

  /** `strftime('%Y:%m:%d %H:%M:%S')`: the timestamp form cameras write. */
  function ExifStamp(d: CalendarDate, t: ClockTime): string
  {
    ZeroPad(d.year, 4) + ":" + ZeroPad(d.month, 2) + ":" + ZeroPad(d.day, 2) + " "
    + ZeroPad(t.hour, 2) + ":" + ZeroPad(t.minute, 2) + ":" + ZeroPad(t.second, 2)
  }

  /** Exactly nineteen characters: digit fields separated as in `YYYY:MM:DD HH:MM:SS`. */
  predicate StampShape(s: string)
  {
    && |s| == 19
    && AllDigits(s[0..4]) && s[4] == ':' && AllDigits(s[5..7]) && s[7] == ':' && AllDigits(s[8..10])
    && s[10] == ' '
    && AllDigits(s[11..13]) && s[13] == ':' && AllDigits(s[14..16]) && s[16] == ':' && AllDigits(s[17..19])
  }

  /**
   * `datetime.strptime(s, '%Y:%m:%d %H:%M:%S')` on the canonical form: the date
   * and time it denotes, or None where it raises (bad field, impossible date,
   * trailing text).
   */
  function ParseStamp(s: string): Option<(CalendarDate, ClockTime)>
  {
    if !StampShape(s) then None
    else
      var d := CalendarDate(DigitsValue(s[0..4]), DigitsValue(s[5..7]), DigitsValue(s[8..10]));
      var t := ClockTime(DigitsValue(s[11..13]), DigitsValue(s[14..16]), DigitsValue(s[17..19]));
      if ValidDate(d) && ValidTime(t) then Some((d, t)) else None
  }

  /** `strftime('%Y-%m-%d')` */
  function IsoDate(d: CalendarDate): string
  {
    ZeroPad(d.year, 4) + "-" + ZeroPad(d.month, 2) + "-" + ZeroPad(d.day, 2)
  }

  /** The try block around `strptime(...).strftime('%Y-%m-%d')`: a date string, or None. */
  function StampToIsoDate(s: string): Option<string>
  {
    match ParseStamp(s)
    case Some((d, _)) => Some(IsoDate(d))
    case None => None
  }

  /** Three fields joined by one separator character, and where each lands. */
  lemma Fields3(x: string, y: string, z: string, sep: string)
    requires |sep| == 1
    ensures var s := x + sep + y + sep + z;
      && |s| == |x| + |y| + |z| + 2
      && s[..|x|] == x && s[|x|] == sep[0]
      && s[|x| + 1..|x| + 1 + |y|] == y && s[|x| + 1 + |y|] == sep[0]
      && s[|x| + |y| + 2..] == z
  {
    var s := x + sep + y + sep + z;
    assert s == x + (sep + (y + (sep + z)));
  }

  /** Where the six fields of a `YYYY:MM:DD HH:MM:SS` string land. */
  lemma StampFields(y: string, mo: string, d: string, h: string, mi: string, se: string)
    requires |y| == 4 && |mo| == 2 && |d| == 2 && |h| == 2 && |mi| == 2 && |se| == 2
    ensures var s := y + ":" + mo + ":" + d + " " + h + ":" + mi + ":" + se;
      && |s| == 19
      && s[0..4] == y && s[4] == ':' && s[5..7] == mo && s[7] == ':' && s[8..10] == d && s[10] == ' '
      && s[11..13] == h && s[13] == ':' && s[14..16] == mi && s[16] == ':' && s[17..19] == se
  {
    var date := y + ":" + mo + ":" + d;
    var time := h + ":" + mi + ":" + se;
    Fields3(y, mo, d, ":");
    Fields3(h, mi, se, ":");
    var s := y + ":" + mo + ":" + d + " " + h + ":" + mi + ":" + se;
    assert s == date + " " + time;
    assert s[..10] == date && s[11..] == time;
    assert s[0..4] == date[0..4];
    assert s[5..7] == date[5..7];
    assert s[8..10] == date[8..10];
    assert s[11..13] == time[0..2];
    assert s[14..16] == time[3..5];
    assert s[17..19] == time[6..8];
  }

  lemma ZeroPadWidth(n: nat, width: nat)
    requires width >= 1 && n < Pow10(width)
    ensures |ZeroPad(n, width)| == width
  {
    ZeroPadValue(n, width);
  }

  lemma StampLayout(d: CalendarDate, t: ClockTime)
    requires ValidDate(d) && ValidTime(t)
    ensures var s := ExifStamp(d, t);
      && |s| == 19
      && s[0..4] == ZeroPad(d.year, 4) && s[4] == ':' && s[5..7] == ZeroPad(d.month, 2) && s[7] == ':'
      && s[8..10] == ZeroPad(d.day, 2) && s[10] == ' ' && s[11..13] == ZeroPad(t.hour, 2) && s[13] == ':'
      && s[14..16] == ZeroPad(t.minute, 2) && s[16] == ':' && s[17..19] == ZeroPad(t.second, 2)
  {
    assert Pow10(4) == 10000 && Pow10(2) == 100;
    ZeroPadWidth(d.year, 4);
    ZeroPadWidth(d.month, 2);
    ZeroPadWidth(d.day, 2);
    ZeroPadWidth(t.hour, 2);
    ZeroPadWidth(t.minute, 2);
    ZeroPadWidth(t.second, 2);
    StampFields(ZeroPad(d.year, 4), ZeroPad(d.month, 2), ZeroPad(d.day, 2),
                ZeroPad(t.hour, 2), ZeroPad(t.minute, 2), ZeroPad(t.second, 2));
  }

  /** Parsing reads back the date and time of every well-formed camera timestamp. */
  lemma StampRoundTrip(d: CalendarDate, t: ClockTime)
    requires ValidDate(d) && ValidTime(t)
    ensures ParseStamp(ExifStamp(d, t)) == Some((d, t))
  {
    var s := ExifStamp(d, t);
    StampLayout(d, t);
    ZeroPadValue(d.year, 4);
    ZeroPadValue(d.month, 2);
    ZeroPadValue(d.day, 2);
    ZeroPadValue(t.hour, 2);
    ZeroPadValue(t.minute, 2);
    ZeroPadValue(t.second, 2);
    assert StampShape(s);
    assert CalendarDate(DigitsValue(s[0..4]), DigitsValue(s[5..7]), DigitsValue(s[8..10])) == d;
    assert ClockTime(DigitsValue(s[11..13]), DigitsValue(s[14..16]), DigitsValue(s[17..19])) == t;
  }

  /** Parsing accepts nothing but the exact stamp of the date and time it returns. */
  lemma StampParseExact(s: string)
    requires ParseStamp(s).Some?
    ensures ValidDate(ParseStamp(s).value.0) && ValidTime(ParseStamp(s).value.1)
    ensures ExifStamp(ParseStamp(s).value.0, ParseStamp(s).value.1) == s
  {
    var (d, t) := ParseStamp(s).value;
    StampLayout(d, t);
    PadOfValue(s[0..4]);
    PadOfValue(s[5..7]);
    PadOfValue(s[8..10]);
    PadOfValue(s[11..13]);
    PadOfValue(s[14..16]);
    PadOfValue(s[17..19]);
    var e := ExifStamp(d, t);
    assert forall i :: 0 <= i < 19 ==> e[i] == s[i] by {
      assert e[0..4] == s[0..4] && e[5..7] == s[5..7] && e[8..10] == s[8..10];
      assert e[11..13] == s[11..13] && e[14..16] == s[14..16] && e[17..19] == s[17..19];
      forall i | 0 <= i < 19 ensures e[i] == s[i] {
        if i < 4 { assert e[i] == e[0..4][i]; assert s[i] == s[0..4][i]; }
        else if 5 <= i < 7 { assert e[i] == e[5..7][i - 5]; assert s[i] == s[5..7][i - 5]; }
        else if 8 <= i < 10 { assert e[i] == e[8..10][i - 8]; assert s[i] == s[8..10][i - 8]; }
        else if 11 <= i < 13 { assert e[i] == e[11..13][i - 11]; assert s[i] == s[11..13][i - 11]; }
        else if 14 <= i < 16 { assert e[i] == e[14..16][i - 14]; assert s[i] == s[14..16][i - 14]; }
        else if 17 <= i < 19 { assert e[i] == e[17..19][i - 17]; assert s[i] == s[17..19][i - 17]; }
      }
    }
  }

  /**
   * A converted timestamp is its own date part with ':' replaced by '-';
   * appending anything to an accepted timestamp makes it rejected.
   */
  lemma StampToIsoDateShape(s: string, extra: string)
    requires StampToIsoDate(s).Some?
    ensures |s| == 19 && StampToIsoDate(s).value == s[0..4] + "-" + s[5..7] + "-" + s[8..10]
    ensures ValidDate(ParseStamp(s).value.0) && StampToIsoDate(s).value == IsoDate(ParseStamp(s).value.0)
    ensures extra != [] ==> StampToIsoDate(s + extra) == None
  {
    var (d, t) := ParseStamp(s).value;
    StampParseExact(s);
    StampLayout(d, t);
  }

  // ---------------------------------------------------------------------
  // Capture-date chains
  // ---------------------------------------------------------------------

  /**
   * The local indexers' chain: `EXIF DateTimeOriginal` if that key is present
   * (parsed or not), else `DateTime`; None when neither yields a date.
   */
  function CaptureDateWithFallback(tags: Tags): Option<string>
  {
    if DATE_TIME_ORIGINAL in tags then StampToIsoDate(tags[DATE_TIME_ORIGINAL].printable)
    else if DATE_TIME in tags then StampToIsoDate(tags[DATE_TIME].printable)
    else None
  }

  /** The Google Drive and NextCloud indexers read `EXIF DateTimeOriginal` only. */
  function CaptureDate(tags: Tags): Option<string>
  {
    if DATE_TIME_ORIGINAL in tags then StampToIsoDate(tags[DATE_TIME_ORIGINAL].printable) else None
  }

  /** Some date string of a real calendar date. */
  ghost predicate IsIsoDate(s: string) { exists d :: ValidDate(d) && s == IsoDate(d) }

  /**
   * `DateTime` is consulted only when `EXIF DateTimeOriginal` is absent, never
   * when it is present and malformed; any date found is a real calendar date.
   */
  lemma CaptureDateChain(tags: Tags)
    ensures DATE_TIME_ORIGINAL in tags ==> CaptureDateWithFallback(tags) == CaptureDate(tags)
    ensures DATE_TIME_ORIGINAL !in tags ==> CaptureDate(tags) == None
    ensures DATE_TIME_ORIGINAL !in tags && DATE_TIME in tags
      ==> CaptureDateWithFallback(tags) == StampToIsoDate(tags[DATE_TIME].printable)
    ensures CaptureDateWithFallback(tags).Some? ==> IsIsoDate(CaptureDateWithFallback(tags).value)
    ensures CaptureDate(tags).Some? ==> IsIsoDate(CaptureDate(tags).value)
  {
    if DATE_TIME_ORIGINAL in tags && CaptureDate(tags).Some? {
      StampToIsoDateShape(tags[DATE_TIME_ORIGINAL].printable, []);
    }
    if DATE_TIME_ORIGINAL !in tags && DATE_TIME in tags && CaptureDateWithFallback(tags).Some? {
      StampToIsoDateShape(tags[DATE_TIME].printable, []);
    }
  }

  // ---------------------------------------------------------------------
  // Date strings sort chronologically
  // ---------------------------------------------------------------------

  predicate DateBefore(a: CalendarDate, b: CalendarDate)
  {
    a.year < b.year || (a.year == b.year && (a.month < b.month || (a.month == b.month && a.day < b.day)))
  }

  lemma {:induction false} DigitsValueFront(s: string)
    requires AllDigits(s) && s != []
    ensures DigitsValue(s) == (s[0] as int - '0' as int) * Pow10(|s| - 1) + DigitsValue(s[1..])
    decreases |s|
  {
    if |s| > 1 {
      var t, u := s[..|s| - 1], s[1..];
      var d, e := s[0] as int - '0' as int, s[|s| - 1] as int - '0' as int;
      var p := Pow10(|s| - 2);
      DigitsValueFront(t);
      assert t[1..] == u[..|u| - 1] && t[0] == s[0] && u[|u| - 1] == s[|s| - 1];
      var m := DigitsValue(t[1..]);
      assert DigitsValue(t) == d * p + m;
      assert DigitsValue(u) == 10 * m + e;
      calc {
        DigitsValue(s);
        10 * DigitsValue(t) + e;
        10 * (d * p + m) + e;
        { TenfoldPlace(d, p); }
        d * (10 * p) + (10 * m + e);
        d * Pow10(|s| - 1) + DigitsValue(u);
      }
    } else {
      assert s[1..] == [];
      assert s[..|s| - 1] == [];
    }
  }

  lemma TenfoldPlace(d: int, p: int)
    ensures 10 * (d * p) == d * (10 * p)
  {
  }

  /** A leading digit decides between numbers whose remainders are below the place value. */
  lemma LeadingDigitOrder(da: nat, db: nat, ra: nat, rb: nat, p: nat)
    requires ra < p && rb < p && da < db
    ensures da * p + ra < db * p + rb
  {
    assert (da + 1) * p <= db * p by {
      var k := db - (da + 1);
      assert db * p == (da + 1) * p + k * p;
    }
  }

  /** Equal-length digit strings compare as strings the way their values compare. */
  lemma {:induction false} LexLessDigits(a: string, b: string)
    requires AllDigits(a) && AllDigits(b) && |a| == |b|
    ensures LexLess(a, b) <==> DigitsValue(a) < DigitsValue(b)
    decreases |a|
  {
    if a != [] {
      DigitsValueFront(a);
      DigitsValueFront(b);
      DigitsValueBound(a[1..]);
      DigitsValueBound(b[1..]);
      var p := Pow10(|a| - 1);
      var da: nat, db: nat := a[0] as int - '0' as int, b[0] as int - '0' as int;
      var ra, rb := DigitsValue(a[1..]), DigitsValue(b[1..]);
      assert DigitsValue(a) == da * p + ra && DigitsValue(b) == db * p + rb;
      if a[0] == b[0] {
        LexLessDigits(a[1..], b[1..]);
      } else if da < db {
        LeadingDigitOrder(da, db, ra, rb, p);
      } else {
        LeadingDigitOrder(db, da, rb, ra, p);
      }
    }
  }

  /** Strings that differ within their first `|x|` characters compare as those prefixes. */
  lemma {:induction false} LexLessPrefixes(x: string, y: string, r1: string, r2: string)
    requires |x| == |y| && x != y
    ensures LexLess(x + r1, y + r2) <==> LexLess(x, y)
    decreases |x|
  {
    assert x != [];
    if x[0] == y[0] {
      assert x[1..] != y[1..] by { assert x == [x[0]] + x[1..] && y == [y[0]] + y[1..]; }
      assert (x + r1)[1..] == x[1..] + r1 && (y + r2)[1..] == y[1..] + r2;
      LexLessPrefixes(x[1..], y[1..], r1, r2);
    }
  }

  /** Dash-joined strings whose first fields have equal length compare first field first. */
  lemma LexLessJoined(x: string, y: string, r1: string, r2: string)
    requires |x| == |y|
    ensures LexLess(x + "-" + r1, y + "-" + r2) <==> LexLess(x, y) || (x == y && LexLess(r1, r2))
  {
    assert x + "-" + r1 == x + ("-" + r1);
    assert y + "-" + r2 == y + ("-" + r2);
    if x != y {
      LexLessPrefixes(x, y, "-" + r1, "-" + r2);
    } else {
      LexLessCommonPrefix(x, "-" + r1, "-" + r2);
      LexLessCommonPrefix("-", r1, r2);
      LexLessIrreflexive(x);
    }
  }

  /** Dash-joined triples of equal-length fields compare field by field. */
  lemma LexLessTriple(a: string, b: string, ya: string, ma: string, da: string, yb: string, mb: string, db: string)
    requires |ya| == |yb| && |ma| == |mb| && |da| == |db|
    requires a == ya + "-" + ma + "-" + da && b == yb + "-" + mb + "-" + db
    ensures LexLess(a, b)
      <==> LexLess(ya, yb) || (ya == yb && (LexLess(ma, mb) || (ma == mb && LexLess(da, db))))
  {
    var ra, rb := ma + "-" + da, mb + "-" + db;
    var dash := "-";
    assert a == ya + dash + ra by { assert ya + dash + ma + dash + da == (ya + dash) + (ma + dash + da); }
    assert b == yb + dash + rb by { assert yb + dash + mb + dash + db == (yb + dash) + (mb + dash + db); }
    LexLessJoined(ya, yb, ra, rb);
    LexLessJoined(ma, mb, da, db);
  }

  /** Equal-width zero paddings are equal exactly when the numbers are. */
  lemma ZeroPadEqual(a: nat, b: nat, width: nat)
    requires width >= 1 && a < Pow10(width) && b < Pow10(width)
    ensures ZeroPad(a, width) == ZeroPad(b, width) <==> a == b
  {
    ZeroPadValue(a, width);
    ZeroPadValue(b, width);
  }

  /** Equal-width zero paddings compare as strings the way the numbers compare. */
  lemma ZeroPadOrder(a: nat, b: nat, width: nat)
    requires width >= 1 && a < Pow10(width) && b < Pow10(width)
    ensures |ZeroPad(a, width)| == width && |ZeroPad(b, width)| == width
    ensures LexLess(ZeroPad(a, width), ZeroPad(b, width)) <==> a < b
  {
    ZeroPadValue(a, width);
    ZeroPadValue(b, width);
    LexLessDigits(ZeroPad(a, width), ZeroPad(b, width));
  }

  /**
   * The manifest's reverse string sort is a reverse chronological sort: date
   * strings compare as the calendar dates they denote.
   */
  lemma IsoDateChronological(a: CalendarDate, b: CalendarDate)
    requires ValidDate(a) && ValidDate(b)
    ensures LexLess(IsoDate(a), IsoDate(b)) <==> DateBefore(a, b)
  {
    assert Pow10(4) == 10000 && Pow10(2) == 100;
    ZeroPadOrder(a.year, b.year, 4);
    ZeroPadOrder(a.month, b.month, 2);
    ZeroPadOrder(a.day, b.day, 2);
    ZeroPadEqual(a.year, b.year, 4);
    ZeroPadEqual(a.month, b.month, 2);
    LexLessTriple(IsoDate(a), IsoDate(b), ZeroPad(a.year, 4), ZeroPad(a.month, 2), ZeroPad(a.day, 2),
                  ZeroPad(b.year, 4), ZeroPad(b.month, 2), ZeroPad(b.day, 2));
  }
}
