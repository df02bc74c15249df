/**
 * The Python string operations the indexers rely on, on the ASCII range:
 * character classes, case mapping, substring search, `split` fields,
 * `strip`, `title`, decimal formatting with zero padding, and the
 * code-point order Python uses to compare strings.
 */
module Text {
  import opened Wrappers

  // ---------------------------------------------------------------------
  // Character classes (ASCII; Python's Unicode classes are not modelled)
  // ---------------------------------------------------------------------

  predicate IsUpper(c: char) { 'A' <= c <= 'Z' }
  predicate IsLower(c: char) { 'a' <= c <= 'z' }
  predicate IsLetter(c: char) { IsUpper(c) || IsLower(c) }
  predicate IsDigit(c: char) { '0' <= c <= '9' }
  predicate IsAlnum(c: char) { IsLetter(c) || IsDigit(c) }

  /** `str.isspace` on the ASCII range: space, tab to carriage return, and the four separators. */
  predicate IsSpace(c: char) { c == ' ' || 9 <= c as int <= 13 || 28 <= c as int <= 31 }

  function ToLower(c: char): char { if IsUpper(c) then (c as int + 32) as char else c }
  function ToUpper(c: char): char { if IsLower(c) then (c as int - 32) as char else c }

  /** `s.lower()` */
  function Lower(s: string): string { seq(|s|, i requires 0 <= i < |s| => ToLower(s[i])) }

  /** `s.upper()` */
  function Upper(s: string): string { seq(|s|, i requires 0 <= i < |s| => ToUpper(s[i])) }

  /** `s.replace(a, b)` for one-character arguments. */
  function ReplaceChar(s: string, a: char, b: char): string
  {
    seq(|s|, i requires 0 <= i < |s| => if s[i] == a then b else s[i])
  }

  predicate StartsWith(s: string, prefix: string) { |prefix| <= |s| && s[..|prefix|] == prefix }
  predicate EndsWith(s: string, suffix: string) { |suffix| <= |s| && s[|s| - |suffix|..] == suffix }

  // ---------------------------------------------------------------------
  // Substring search and `split` fields
  // ---------------------------------------------------------------------

  predicate OccursAt(s: string, pat: string, i: int)
  {
    0 <= i && i + |pat| <= |s| && s[i..i + |pat|] == pat
  }

  /** The first occurrence of `pat` at or after `from`, as `str.find` reports it. */
  function FindFrom(s: string, pat: string, from: nat): (r: Option<nat>)
    ensures r.Some? ==> from <= r.value && OccursAt(s, pat, r.value)
    ensures r.Some? ==> forall j :: from <= j < r.value ==> !OccursAt(s, pat, j)
    ensures r.None? ==> forall j :: from <= j ==> !OccursAt(s, pat, j)
    decreases |s| - from
  {
    if from + |pat| > |s| then None
    else if s[from..from + |pat|] == pat then Some(from)
    else FindFrom(s, pat, from + 1)
  }

  function Find(s: string, pat: string): Option<nat> { FindFrom(s, pat, 0) }

  /** Python's `pat in s`. */
  predicate Contains(s: string, pat: string) { Find(s, pat).Some? }

  /** An occurrence with none before it is the one `find` reports. */
  lemma FindFirstAt(s: string, pat: string, k: nat)
    requires OccursAt(s, pat, k)
    requires forall j :: 0 <= j < k ==> !OccursAt(s, pat, j)
    ensures Find(s, pat) == Some(k)
  {
  }

  /** A string none of whose characters starts the pattern does not contain it. */
  lemma FindAbsent(s: string, pat: string)
    requires pat != [] && forall i :: 0 <= i < |s| ==> s[i] != pat[0]
    ensures Find(s, pat) == None
  {
    forall k | OccursAt(s, pat, k) ensures s[k] == pat[0] {
      assert s[k..k + |pat|][0] == s[k];
    }
  }

  /** Past the end of `head`, an occurrence in `head + tail` is an occurrence in `tail`. */
  lemma OccursAtShift(head: string, tail: string, pat: string, k: nat)
    requires k >= |head|
    ensures OccursAt(head + tail, pat, k) <==> OccursAt(tail, pat, k - |head|)
  {
    if k + |pat| <= |head + tail| {
      assert (head + tail)[k..k + |pat|] == tail[k - |head|..k - |head| + |pat|];
    }
  }

  /** No occurrence starts inside `head`, and `tail` has none: `head + tail` has none. */
  lemma FindAbsentAfter(head: string, tail: string, pat: string)
    requires forall k :: 0 <= k < |head| ==> !OccursAt(head + tail, pat, k)
    requires !Contains(tail, pat)
    ensures !Contains(head + tail, pat)
  {
    forall k: nat | k >= |head| ensures !OccursAt(head + tail, pat, k) {
      OccursAtShift(head, tail, pat, k);
    }
  }

  /** No `a` in `s` is directly followed by `b`. */
  ghost predicate NoPair(s: string, a: char, b: char)
  {
    forall j :: 0 <= j < |s| - 1 ==> s[j] != a || s[j + 1] != b
  }

  /** Two texts without the pair, not forming it at the seam, concatenate to one without it. */
  lemma NoPairConcat(s: string, t: string, a: char, b: char)
    requires NoPair(s, a, b) && NoPair(t, a, b)
    requires s != [] && t != [] && (s[|s| - 1] != a || t[0] != b)
    ensures NoPair(s + t, a, b)
  {
    var u := s + t;
    forall j | 0 <= j < |u| - 1 ensures u[j] != a || u[j + 1] != b {
      if j + 1 < |s| {
        assert u[j] == s[j] && u[j + 1] == s[j + 1];
      } else if j + 1 == |s| {
        assert u[j] == s[|s| - 1] && u[j + 1] == t[0];
      } else {
        assert u[j] == t[j - |s|] && u[j + 1] == t[j - |s| + 1];
      }
    }
  }

  /** No position before `k` starts the first two characters of `pat`, so none starts `pat`. */
  lemma NoOccurrenceBefore(s: string, pat: string, k: nat)
    requires |pat| >= 2 && k < |s|
    requires forall j :: 0 <= j < k ==> s[j] != pat[0] || s[j + 1] != pat[1]
    ensures forall j :: 0 <= j < k ==> !OccursAt(s, pat, j)
  {
    forall j | 0 <= j < k ensures !OccursAt(s, pat, j) {
      if j + |pat| <= |s| {
        assert s[j..j + |pat|][0] == s[j] && s[j..j + |pat|][1] == s[j + 1];
      }
    }
  }

  /** `LStrip` stops at the first non-space character, so text after one is kept whole. */
  lemma {:induction false} LStripConcat(x: string, y: string)
    requires y != [] && !IsSpace(y[0])
    ensures LStrip(x + y) == LStrip(x) + y
    decreases |x|
  {
    if x == [] {
      assert x + y == y;
    } else if IsSpace(x[0]) {
      LStripConcat(x[1..], y);
      assert (x + y)[1..] == x[1..] + y;
    }
  }

  /** `s.split(sep)[0]`: the text before the first `sep`, or all of `s`. */
  function Before(s: string, sep: string): string
  {
    match Find(s, sep)
    case Some(i) => s[..i]
    case None => s
  }

  /** The text after the first occurrence of `sep`. */
  function After(s: string, sep: string): string
    requires Contains(s, sep)
  {
    s[Find(s, sep).value + |sep|..]
  }

  /** `s.split(sep)[1]`: the text between the first and the second `sep`. */
  function SecondField(s: string, sep: string): string
    requires Contains(s, sep)
  {
    Before(After(s, sep), sep)
  }

  /** `s.split(sep)[-1]` for a one-character separator: the text after the last `sep`. */
  function LastField(s: string, sep: char): string
    decreases |s|
  {
    if s == [] || s[|s| - 1] == sep then [] else LastField(s[..|s| - 1], sep) + [s[|s| - 1]]
  }

  /** The last field of `head + tail`, where `head` ends in `sep` and `tail` has none, is `tail`. */
  lemma {:induction false} LastFieldAfterSep(head: string, tail: string, sep: char)
    requires |head| > 0 && head[|head| - 1] == sep
    requires forall i :: 0 <= i < |tail| ==> tail[i] != sep
    ensures LastField(head + tail, sep) == tail
    decreases |tail|
  {
    if tail == [] {
      assert head + tail == head;
    } else {
      var init := tail[..|tail| - 1];
      LastFieldAfterSep(head, init, sep);
      assert (head + tail)[..|head + tail| - 1] == head + init;
      assert tail == init + [tail[|tail| - 1]];
    }
  }

  /** The number of occurrences of `c` in `s`. */
  function CountChar(s: string, c: char): nat
    decreases |s|
  {
    if s == [] then 0 else (if s[0] == c then 1 else 0) + CountChar(s[1..], c)
  }

  lemma {:induction false} CountCharSnoc(s: string, x: char, c: char)
    ensures CountChar(s + [x], c) == CountChar(s, c) + (if x == c then 1 else 0)
    decreases |s|
  {
    if s != [] {
      CountCharSnoc(s[1..], x, c);
      assert (s + [x])[1..] == s[1..] + [x];
    }
  }

  // ---------------------------------------------------------------------
  // split and join on one character
  // ---------------------------------------------------------------------

  /** `s.split(c)`: the pieces between the occurrences of `c`, at least one. */
  function Split(s: string, c: char): (parts: seq<string>)
    ensures |parts| >= 1
    decreases |s|
  {
    if s == [] then [[]]
    else
      var parts := Split(s[..|s| - 1], c);
      if s[|s| - 1] == c then parts + [[]]
      else parts[..|parts| - 1] + [parts[|parts| - 1] + [s[|s| - 1]]]
  }

  /** `c.join(parts)` */
  function Join(parts: seq<string>, c: char): string
    requires |parts| >= 1
    decreases |parts|
  {
    if |parts| == 1 then parts[0] else Join(parts[..|parts| - 1], c) + [c] + parts[|parts| - 1]
  }

  predicate Free(piece: string, c: char) { forall j :: 0 <= j < |piece| ==> piece[j] != c }

  /** Splitting finds one more piece than there are separators, none holding one, the last being `LastField`. */
  lemma {:induction false} SplitFacts(s: string, c: char)
    ensures |Split(s, c)| == CountChar(s, c) + 1
    ensures forall i :: 0 <= i < |Split(s, c)| ==> Free(Split(s, c)[i], c)
    ensures Split(s, c)[|Split(s, c)| - 1] == LastField(s, c)
    ensures Join(Split(s, c), c) == s
    decreases |s|
  {
    if s != [] {
      var init, x := s[..|s| - 1], s[|s| - 1];
      assert s == init + [x];
      SplitFacts(init, c);
      if x == c {
        SplitSepStep(init, c);
      } else {
        SplitCharStep(init, x, c);
      }
    }
  }

  /** The four facts of `SplitFacts` about one string. */
  ghost predicate SplitShaped(s: string, c: char)
  {
    && |Split(s, c)| == CountChar(s, c) + 1
    && (forall i :: 0 <= i < |Split(s, c)| ==> Free(Split(s, c)[i], c))
    && Split(s, c)[|Split(s, c)| - 1] == LastField(s, c)
    && Join(Split(s, c), c) == s
  }

  lemma SplitSepStep(init: string, c: char)
    requires SplitShaped(init, c)
    ensures SplitShaped(init + [c], c)
  {
    var s := init + [c];
    assert s[..|s| - 1] == init;
    CountCharSnoc(init, c, c);
    var parts := Split(init, c);
    assert Split(s, c) == parts + [[]];
    assert (parts + [[]])[..|parts|] == parts;
  }

  lemma SplitCharStep(init: string, x: char, c: char)
    requires x != c && SplitShaped(init, c)
    ensures SplitShaped(init + [x], c)
  {
    var s := init + [x];
    var parts := Split(init, c);
    assert s[..|s| - 1] == init;
    assert Split(s, c) == parts[..|parts| - 1] + [parts[|parts| - 1] + [x]];
    assert LastField(s, c) == LastField(init, c) + [x];
    CountCharSnoc(init, x, c);
    ExtendLastPiece(parts, x, c);
    JoinExtendLast(parts, x, c);
  }

  /** Extending the last piece by a non-separator keeps every piece free of separators. */
  lemma ExtendLastPiece(parts: seq<string>, x: char, c: char)
    requires |parts| >= 1 && x != c
    requires forall i :: 0 <= i < |parts| ==> Free(parts[i], c)
    ensures var n := |parts|; var q := parts[..n - 1] + [parts[n - 1] + [x]];
      forall i :: 0 <= i < |q| ==> Free(q[i], c)
  {
    var n := |parts|;
    var q := parts[..n - 1] + [parts[n - 1] + [x]];
    forall i | 0 <= i < |q| ensures Free(q[i], c) {
      if i < n - 1 { assert q[i] == parts[i]; }
      else { assert q[i] == parts[n - 1] + [x] && Free(parts[n - 1], c); }
    }
  }

  /** Extending the last piece extends the joined string. */
  lemma JoinExtendLast(parts: seq<string>, x: char, c: char)
    requires |parts| >= 1
    ensures var n := |parts|;
      Join(parts[..n - 1] + [parts[n - 1] + [x]], c) == Join(parts, c) + [x]
  {
    var n := |parts|;
    var q := parts[..n - 1] + [parts[n - 1] + [x]];
    assert q[..n - 1] == parts[..n - 1];
    if n > 1 {
      assert Join(parts, c) == Join(parts[..n - 1], c) + [c] + parts[n - 1];
    }
  }

  /** Splitting `head + c + tail` where `tail` has no `c` adds `tail` as a piece. */
  lemma {:induction false} SplitAppend(head: string, tail: string, c: char)
    requires Free(tail, c)
    ensures Split(head + [c] + tail, c) == Split(head, c) + [tail]
    decreases |tail|
  {
    if tail == [] {
      assert (head + [c] + tail)[..|head + [c]| - 1] == head;
    } else {
      var init := tail[..|tail| - 1];
      SplitAppend(head, init, c);
      assert (head + [c] + tail)[..|head + [c] + tail| - 1] == head + [c] + init;
      assert tail == init + [tail[|tail| - 1]];
    }
  }

  /** Joining pieces free of `c` and splitting again gives them back. */
  lemma {:induction false} JoinSplit(parts: seq<string>, c: char)
    requires |parts| >= 1 && forall i :: 0 <= i < |parts| ==> Free(parts[i], c)
    ensures Split(Join(parts, c), c) == parts
    decreases |parts|
  {
    if |parts| == 1 {
      JoinSplitOne(parts[0], c);
    } else {
      var init := parts[..|parts| - 1];
      JoinSplit(init, c);
      SplitAppend(Join(init, c), parts[|parts| - 1], c);
    }
  }

  lemma {:induction false} JoinSplitOne(piece: string, c: char)
    requires Free(piece, c)
    ensures Split(piece, c) == [piece]
    decreases |piece|
  {
    if piece != [] {
      JoinSplitOne(piece[..|piece| - 1], c);
      assert piece == piece[..|piece| - 1] + [piece[|piece| - 1]];
    }
  }

  // ---------------------------------------------------------------------
  // strip
  // ---------------------------------------------------------------------

  function LStrip(s: string): string
    decreases |s|
  {
    if s != [] && IsSpace(s[0]) then LStrip(s[1..]) else s
  }

  function RStrip(s: string): string
    decreases |s|
  {
    if s != [] && IsSpace(s[|s| - 1]) then RStrip(s[..|s| - 1]) else s
  }

  /** `s.strip()` */
  function Strip(s: string): string { RStrip(LStrip(s)) }

  lemma {:induction false} LStripShape(s: string)
    ensures exists k :: 0 <= k <= |s| && LStrip(s) == s[k..] && forall j :: 0 <= j < k ==> IsSpace(s[j])
    ensures LStrip(s) != [] ==> !IsSpace(LStrip(s)[0])
    decreases |s|
  {
    if s != [] && IsSpace(s[0]) {
      LStripShape(s[1..]);
      var k :| 0 <= k <= |s[1..]| && LStrip(s[1..]) == s[1..][k..] && forall j :: 0 <= j < k ==> IsSpace(s[1..][j]);
      assert LStrip(s) == s[k + 1..];
      assert forall j :: 0 <= j < k + 1 ==> IsSpace(s[j]) by {
        forall j | 0 <= j < k + 1 ensures IsSpace(s[j]) {
          if j > 0 { assert s[j] == s[1..][j - 1]; }
        }
      }
    } else {
      assert LStrip(s) == s[0..];
    }
  }

  lemma {:induction false} RStripShape(s: string)
    ensures exists k :: 0 <= k <= |s| && RStrip(s) == s[..k] && forall j :: k <= j < |s| ==> IsSpace(s[j])
    ensures RStrip(s) != [] ==> !IsSpace(RStrip(s)[|RStrip(s)| - 1])
    decreases |s|
  {
    if s != [] && IsSpace(s[|s| - 1]) {
      var t := s[..|s| - 1];
      RStripShape(t);
      var k :| 0 <= k <= |t| && RStrip(t) == t[..k] && forall j :: k <= j < |t| ==> IsSpace(t[j]);
      assert RStrip(s) == s[..k];
      assert forall j :: k <= j < |s| ==> IsSpace(s[j]) by {
        forall j | k <= j < |s| ensures IsSpace(s[j]) {
          if j < |s| - 1 { assert s[j] == t[j]; }
        }
      }
    } else {
      assert RStrip(s) == s[..|s|];
    }
  }

  lemma StripEnds(s: string)
    ensures var r := Strip(s); r != [] ==> !IsSpace(r[0]) && !IsSpace(r[|r| - 1])
  {
    LStripShape(s);
    var l := LStrip(s);
    RStripShape(l);
    var r := RStrip(l);
    var k :| 0 <= k <= |l| && r == l[..k];
    if r != [] {
      assert r[0] == l[0];
    }
  }

  lemma StripSlice(s: string)
    ensures exists i, j :: 0 <= i <= j <= |s| && Strip(s) == s[i..j]
  {
    LStripShape(s);
    var l := LStrip(s);
    var i :| 0 <= i <= |s| && l == s[i..];
    RStripShape(l);
    var k :| 0 <= k <= |l| && RStrip(l) == l[..k];
    assert l[..k] == s[i..i + k];
  }

  /** A stripped string neither starts nor ends with whitespace and is a slice of the input. */
  lemma StripShape(s: string)
    ensures var r := Strip(s); r != [] ==> !IsSpace(r[0]) && !IsSpace(r[|r| - 1])
    ensures exists i, j :: 0 <= i <= j <= |s| && Strip(s) == s[i..j]
  {
    StripEnds(s);
    StripSlice(s);
  }

  // ---------------------------------------------------------------------
  // `str.title()`
  // ---------------------------------------------------------------------

  /** Title-casing with the "previous character was cased" flag CPython keeps. */
  function TitleFrom(s: string, prevCased: bool): string
    decreases |s|
  {
    if s == [] then []
    else
      [if !IsLetter(s[0]) then s[0] else if prevCased then ToLower(s[0]) else ToUpper(s[0])]
      + TitleFrom(s[1..], IsLetter(s[0]))
  }

  /** `s.title()` */
  function TitleCase(s: string): string { TitleFrom(s, false) }

  lemma {:induction false} TitleFromAt(s: string, prevCased: bool, i: nat)
    requires i < |s|
    ensures |TitleFrom(s, prevCased)| == |s|
    ensures var before := if i == 0 then prevCased else IsLetter(s[i - 1]);
      TitleFrom(s, prevCased)[i]
      == if !IsLetter(s[i]) then s[i] else if before then ToLower(s[i]) else ToUpper(s[i])
    decreases |s|
  {
    TitleFromLength(s, prevCased);
    if i > 0 {
      TitleFromAt(s[1..], IsLetter(s[0]), i - 1);
    }
  }

  lemma {:induction false} TitleFromLength(s: string, prevCased: bool)
    ensures |TitleFrom(s, prevCased)| == |s|
    decreases |s|
  {
    if s != [] { TitleFromLength(s[1..], IsLetter(s[0])); }
  }

  /**
   * `title()` characterised position by position: a letter is upper-cased at
   * the start of a word (first position, or after a non-letter) and lower-cased
   * elsewhere; every other character is kept.
   */
  lemma TitleCaseAt(s: string, i: nat)
    requires i < |s|
    ensures |TitleCase(s)| == |s|
    ensures TitleCase(s)[i]
      == if !IsLetter(s[i]) then s[i]
         else if i > 0 && IsLetter(s[i - 1]) then ToLower(s[i])
         else ToUpper(s[i])
  {
    TitleFromAt(s, false, i);
  }

  // ---------------------------------------------------------------------
  // Decimal digits and zero padding (`{n:03d}`, `%m`, `%Y`)
  // ---------------------------------------------------------------------

  function DigitChar(d: nat): char
    requires d < 10
  {
    ('0' as int + d) as char
  }

  /** `str(n)` for a natural number. */
  function Decimal(n: nat): string
    decreases n
  {
    if n < 10 then [DigitChar(n)] else Decimal(n / 10) + [DigitChar(n % 10)]
  }

  function Zeros(k: nat): string { seq(k, _ => '0') }

  /** `f"{n:0{width}d}"`: the decimal digits of `n`, left-padded with zeros to at least `width`. */
  function ZeroPad(n: nat, width: nat): string
  {
    var d := Decimal(n);
    (if |d| < width then Zeros(width - |d|) else []) + d
  }

  predicate AllDigits(s: string) { forall i :: 0 <= i < |s| ==> IsDigit(s[i]) }

  /** `int(s)` for a string of decimal digits. */
  function DigitsValue(s: string): nat
    requires AllDigits(s)
    decreases |s|
  {
    if s == [] then 0 else 10 * DigitsValue(s[..|s| - 1]) + (s[|s| - 1] as int - '0' as int)
  }

  function Pow10(k: nat): nat { if k == 0 then 1 else 10 * Pow10(k - 1) }

  lemma {:induction false} DecimalValue(n: nat)
    ensures |Decimal(n)| >= 1 && AllDigits(Decimal(n)) && DigitsValue(Decimal(n)) == n
    decreases n
  {
    if n >= 10 {
      DecimalValue(n / 10);
      var d := Decimal(n);
      assert d[..|d| - 1] == Decimal(n / 10);
    }
  }

  lemma {:induction false} DecimalLength(n: nat, width: nat)
    requires width >= 1 && n < Pow10(width)
    ensures |Decimal(n)| <= width
    decreases n
  {
    if n >= 10 {
      assert width >= 2;
      DecimalLength(n / 10, width - 1);
    }
  }

  lemma {:induction false} ZerosValue(k: nat)
    ensures AllDigits(Zeros(k)) && DigitsValue(Zeros(k)) == 0
    decreases k
  {
    if k > 0 {
      assert Zeros(k)[..k - 1] == Zeros(k - 1);
      ZerosValue(k - 1);
    }
  }

  lemma {:induction false} LeadingZerosValue(k: nat, d: string)
    requires AllDigits(d)
    ensures AllDigits(Zeros(k) + d) && DigitsValue(Zeros(k) + d) == DigitsValue(d)
    decreases |d|
  {
    if d == [] {
      assert Zeros(k) + d == Zeros(k);
      ZerosValue(k);
    } else {
      var z := Zeros(k) + d;
      assert z[..|z| - 1] == Zeros(k) + d[..|d| - 1];
      LeadingZerosValue(k, d[..|d| - 1]);
    }
  }

  /** Zero padding is read back as the same number, and has at least `width` digits. */
  lemma ZeroPadValue(n: nat, width: nat)
    ensures AllDigits(ZeroPad(n, width)) && DigitsValue(ZeroPad(n, width)) == n
    ensures |ZeroPad(n, width)| >= width && |ZeroPad(n, width)| >= 1
    ensures width >= 1 && n < Pow10(width) ==> |ZeroPad(n, width)| == width
  {
    DecimalValue(n);
    var d := Decimal(n);
    if |d| < width {
      LeadingZerosValue(width - |d|, d);
    } else {
      assert ZeroPad(n, width) == d;
    }
    if width >= 1 && n < Pow10(width) {
      DecimalLength(n, width);
    }
  }

  lemma {:induction false} DigitsValueBound(s: string)
    requires AllDigits(s)
    ensures DigitsValue(s) < Pow10(|s|)
    decreases |s|
  {
    if s != [] { DigitsValueBound(s[..|s| - 1]); }
  }

  lemma {:induction false} DigitsValueInjective(a: string, b: string)
    requires AllDigits(a) && AllDigits(b) && |a| == |b|
    requires DigitsValue(a) == DigitsValue(b)
    ensures a == b
    decreases |a|
  {
    if a != [] {
      DigitsValueInjective(a[..|a| - 1], b[..|b| - 1]);
      assert a == a[..|a| - 1] + [a[|a| - 1]];
      assert b == b[..|b| - 1] + [b[|b| - 1]];
    }
  }

  /** A digit string is the zero padding of its own value to its own length. */
  lemma PadOfValue(s: string)
    requires AllDigits(s) && |s| >= 1
    ensures ZeroPad(DigitsValue(s), |s|) == s
  {
    DigitsValueBound(s);
    ZeroPadValue(DigitsValue(s), |s|);
    DigitsValueInjective(ZeroPad(DigitsValue(s), |s|), s);
  }

  // ---------------------------------------------------------------------
  // Python's string order (code point by code point)
  // ---------------------------------------------------------------------

  /** `a < b` on Python strings. */
  predicate LexLess(a: string, b: string)
    decreases |a|
  {
    if a == [] then b != []
    else if b == [] then false
    else if a[0] != b[0] then a[0] < b[0]
    else LexLess(a[1..], b[1..])
  }

  lemma {:induction false} LexLessIrreflexive(a: string)
    ensures !LexLess(a, a)
    decreases |a|
  {
    if a != [] { LexLessIrreflexive(a[1..]); }
  }

  lemma {:induction false} LexLessTransitive(a: string, b: string, c: string)
    requires LexLess(a, b) && LexLess(b, c)
    ensures LexLess(a, c)
    decreases |a|
  {
    if a != [] && a[0] == b[0] && b[0] == c[0] {
      LexLessTransitive(a[1..], b[1..], c[1..]);
    }
  }

  lemma {:induction false} LexLessTotal(a: string, b: string)
    requires a != b
    ensures LexLess(a, b) || LexLess(b, a)
    decreases |a|
  {
    if a != [] && b != [] && a[0] == b[0] {
      assert a == [a[0]] + a[1..] && b == [b[0]] + b[1..];
      LexLessTotal(a[1..], b[1..]);
    }
  }

  /** Two strings that differ first at position `k` compare as their characters there. */
  lemma {:induction false} LexLessAt(a: string, b: string, k: nat)
    requires k < |a| && k < |b| && a[..k] == b[..k] && a[k] != b[k]
    ensures LexLess(a, b) <==> a[k] < b[k]
    decreases k
  {
    if k > 0 {
      assert a[0] == a[..k][0] == b[..k][0] == b[0];
      assert a[1..][..k - 1] == a[..k][1..] == b[..k][1..] == b[1..][..k - 1];
      LexLessAt(a[1..], b[1..], k - 1);
    }
  }

  /** Strings with a common prefix compare as their remainders. */
  lemma {:induction false} LexLessCommonPrefix(p: string, a: string, b: string)
    ensures LexLess(p + a, p + b) <==> LexLess(a, b)
    decreases |p|
  {
    if p != [] {
      assert (p + a)[0] == p[0] == (p + b)[0];
      assert (p + a)[1..] == p[1..] + a && (p + b)[1..] == p[1..] + b;
      LexLessCommonPrefix(p[1..], a, b);
    } else {
      assert p + a == a && p + b == b;
    }
  }

  // ---------------------------------------------------------------------
  // Lines of a text file
  // ---------------------------------------------------------------------

  /** `"".join(lines)` */
  function Concat(lines: seq<string>): string
    decreases |lines|
  {
    if lines == [] then [] else Concat(lines[..|lines| - 1]) + lines[|lines| - 1]
  }

  /** `for line in f`: each line with its '\n', the last one possibly without. */
  function Lines(text: string): seq<string>
    decreases |text|
  {
    if text == [] then []
    else
      match Find(text, "\n")
      case Some(k) => [text[..k + 1]] + Lines(text[k + 1..])
      case None => [text]
  }

  lemma {:induction false} ConcatCons(x: string, rest: seq<string>)
    ensures Concat([x] + rest) == x + Concat(rest)
    decreases |rest|
  {
    if rest != [] {
      var init := rest[..|rest| - 1];
      ConcatCons(x, init);
      assert ([x] + rest)[..|rest|] == [x] + init;
    }
  }

  /** A line holding one '\n', at its end. */
  predicate IsLine(line: string)
  {
    line != [] && line[|line| - 1] == '\n' && forall i :: 0 <= i < |line| - 1 ==> line[i] != '\n'
  }

  /** Reading back the text written line by line gives the same lines. */
  lemma {:induction false} LinesOfConcat(lines: seq<string>)
    requires forall i :: 0 <= i < |lines| ==> IsLine(lines[i])
    ensures Lines(Concat(lines)) == lines
    decreases |lines|
  {
    if lines != [] {
      var x := lines[0];
      var rest := lines[1..];
      assert lines == [x] + rest;
      ConcatCons(x, rest);
      var text := x + Concat(rest);
      forall j | 0 <= j < |x| - 1 ensures !OccursAt(text, "\n", j) {
        assert text[j..j + 1][0] == x[j];
      }
      assert text[|x| - 1..|x|] == "\n";
      FindFirstAt(text, "\n", |x| - 1);
      assert text[..|x|] == x && text[|x|..] == Concat(rest);
      LinesOfConcat(rest);
    }
  }
}
