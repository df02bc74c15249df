/**
 * Names the indexers derive from a source file: `Path.stem`/`suffix`,
 * `os.path.splitext` and `basename`, the web-safe name, the
 * `{category}_{id:03d}_{safe}` output names, the title text and the folder
 * label used as a location.
 */
module Naming {
  import opened Wrappers
  import opened Text

  // ---------------------------------------------------------------------
  // Path pieces
  // ---------------------------------------------------------------------

  /** `s.rfind(c)`: the index of the last `c`, or None. */
  function LastIndexOf(s: string, c: char): (r: Option<nat>)
    ensures r.Some? ==> r.value < |s| && s[r.value] == c && forall j :: r.value < j < |s| ==> s[j] != c
    ensures r.None? ==> forall j :: 0 <= j < |s| ==> s[j] != c
    decreases |s|
  {
    if s == [] then None
    else if s[|s| - 1] == c then Some(|s| - 1)
    else LastIndexOf(s[..|s| - 1], c)
  }

  /** The position `Path.suffix` and `Path.stem` cut at: the last dot, unless it is the first or last character. */
  function SuffixStart(name: string): Option<nat>
  {
    match LastIndexOf(name, '.')
    case Some(i) => if 0 < i < |name| - 1 then Some(i) else None
    case None => None
  }

  /** `Path(name).stem` of a plain file name. */
  function PathStem(name: string): string
  {
    match SuffixStart(name)
    case Some(i) => name[..i]
    case None => name
  }

  /** `Path(name).suffix` of a plain file name. */
  function PathSuffix(name: string): string
  {
    match SuffixStart(name)
    case Some(i) => name[i..]
    case None => []
  }

  /**
   * Stem and suffix split the name; a suffix is a dot followed by at least
   * one character and no further dot, and leaves a non-empty stem.
   */
  lemma StemSuffix(name: string)
    ensures PathStem(name) + PathSuffix(name) == name
    ensures var x := PathSuffix(name);
      x == [] || (|x| >= 2 && x[0] == '.' && (forall j :: 1 <= j < |x| ==> x[j] != '.') && PathStem(name) != [])
  {
    match SuffixStart(name)
    case Some(i) =>
      assert name[..i] + name[i..] == name;
      var x := name[i..];
      forall j | 1 <= j < |x| ensures x[j] != '.' { assert x[j] == name[i + j]; }
    case None =>
  }

  /** `os.path.splitext(name)[0]` for a name without '/': leading dots never start an extension. */
  function SplitExtRoot(name: string): string
  {
    match LastIndexOf(name, '.')
    case Some(i) => if exists j :: 0 <= j < i && name[j] != '.' then name[..i] else name
    case None => name
  }

  /** `os.path.splitext` and `Path.stem` agree on names that neither start nor end with a dot. */
  lemma SplitExtAgreesWithStem(name: string)
    requires name != [] && name[0] != '.' && name[|name| - 1] != '.'
    ensures SplitExtRoot(name) == PathStem(name)
  {
  }

  /** `Path.stem` keeps a trailing dot that `os.path.splitext` removes. */
  lemma SplitExtDiffersOnTrailingDot()
    ensures PathStem("photo.") == "photo." && SplitExtRoot("photo.") == "photo"
  {
    assert LastIndexOf("photo.", '.') == Some(5);
    assert "photo."[0] != '.';
    assert "photo."[..5] == "photo";
  }

  /** `os.path.basename(path)`: the text after the last '/'. */
  function Basename(path: string): string { LastField(path, '/') }

  // ---------------------------------------------------------------------
  // The web-safe name
  // ---------------------------------------------------------------------

  predicate SafeChar(c: char) { IsAlnum(c) || c == ' ' || c == '-' || c == '_' }

  /**
   * `"".join(c for c in s if c.isalnum() or c in (' ', '-', '_'))`.
   * KeepSafeCounts says that every safe character is kept as often as it
   * occurs and every other one dropped; KeepSafeSingle and KeepSafeAppend
   * say that the order is kept.
   */
  function KeepSafe(s: string): (r: string)
    ensures forall i :: 0 <= i < |r| ==> SafeChar(r[i])
    ensures |r| <= |s|
    decreases |s|
  {
    if s == [] then []
    else (if SafeChar(s[0]) then [s[0]] else []) + KeepSafe(s[1..])
  }

  /** The filter keeps each safe character as often as it occurs and drops every other one. */
  lemma {:induction false} KeepSafeCounts(s: string)
    ensures forall c :: multiset(KeepSafe(s))[c] == (if SafeChar(c) then multiset(s)[c] else 0)
    decreases |s|
  {
    if s != [] {
      KeepSafeCounts(s[1..]);
      var h := if SafeChar(s[0]) then [s[0]] else [];
      assert s == [s[0]] + s[1..];
      assert KeepSafe(s) == h + KeepSafe(s[1..]);
      assert multiset(KeepSafe(s)) == multiset(h) + multiset(KeepSafe(s[1..]));
      assert multiset(s) == multiset([s[0]]) + multiset(s[1..]);
    }
  }

  /** One character is kept exactly when it is safe. */
  lemma KeepSafeSingle(c: char)
    ensures KeepSafe([c]) == (if SafeChar(c) then [c] else [])
  {
    assert [c][1..] == [];
  }

  /** The safe name: kept characters, trailing spaces removed, spaces to '_', lower case. */
  function SafeName(stem: string): string
  {
    Lower(ReplaceChar(RStrip(KeepSafe(stem)), ' ', '_'))
  }

  /** The characters a safe name is made of. */
  predicate SafeNameChar(c: char) { IsLower(c) || IsDigit(c) || c == '_' || c == '-' }

  lemma {:induction false} KeepSafeIdentity(s: string)
    requires forall i :: 0 <= i < |s| ==> SafeChar(s[i])
    ensures KeepSafe(s) == s
    decreases |s|
  {
    if s != [] {
      KeepSafeIdentity(s[1..]);
      assert s == [s[0]] + s[1..];
    }
  }

  lemma {:induction false} RStripIdentity(s: string)
    requires s == [] || !IsSpace(s[|s| - 1])
    ensures RStrip(s) == s
  {
  }

  /** A safe name is made of lower-case letters, digits, '_' and '-' only. */
  lemma SafeNameCharset(stem: string)
    ensures forall i :: 0 <= i < |SafeName(stem)| ==> SafeNameChar(SafeName(stem)[i])
    ensures |SafeName(stem)| <= |stem|
  {
    var kept := KeepSafe(stem);
    RStripShape(kept);
    var k :| 0 <= k <= |kept| && RStrip(kept) == kept[..k] && forall j :: k <= j < |kept| ==> IsSpace(kept[j]);
    var r := RStrip(kept);
    forall i | 0 <= i < |r| ensures SafeChar(r[i]) { assert r[i] == kept[i]; }
  }

  /** Sanitising a safe name changes nothing: sanitising twice equals sanitising once. */
  lemma SafeNameIdempotent(stem: string)
    ensures SafeName(SafeName(stem)) == SafeName(stem)
  {
    SafeNameCharset(stem);
    SafeNameFixed(SafeName(stem));
  }

  /** Trailing spaces of the stem never reach the safe name. */
  lemma SafeNameIgnoresTrailingSpace(stem: string)
    ensures SafeName(stem + " ") == SafeName(stem)
  {
    KeepSafeAppend(stem, " ");
    assert KeepSafe(" ") == " ";
    var k := KeepSafe(stem) + " ";
    assert k[..|k| - 1] == KeepSafe(stem);
  }

  lemma {:induction false} KeepSafeAppend(a: string, b: string)
    ensures KeepSafe(a + b) == KeepSafe(a) + KeepSafe(b)
    decreases |a|
  {
    if a == [] {
      assert a + b == b;
    } else {
      assert (a + b)[0] == a[0] && (a + b)[1..] == a[1..] + b;
      KeepSafeAppend(a[1..], b);
    }
  }

  /** A stem of safe characters that does not end in a space only has its spaces and case changed. */
  lemma SafeNameOfSafeStem(stem: string)
    requires forall i :: 0 <= i < |stem| ==> SafeChar(stem[i])
    requires stem == [] || stem[|stem| - 1] != ' '
    ensures SafeName(stem) == Lower(ReplaceChar(stem, ' ', '_'))
  {
    KeepSafeIdentity(stem);
    RStripIdentity(stem);
  }

  lemma BeachDayReplaced()
    ensures ReplaceChar("Beach Day", ' ', '_') == "Beach_Day"
  {
    var r := ReplaceChar("Beach Day", ' ', '_');
    forall i | 0 <= i < 9 ensures r[i] == "Beach_Day"[i] { }
  }

  lemma BeachDayLowered()
    ensures Lower("Beach_Day") == "beach_day"
  {
    var l := Lower("Beach_Day");
    forall i | 0 <= i < 9 ensures l[i] == "beach_day"[i] { }
  }

  lemma BeachDayKept()
    ensures forall i :: 0 <= i < 9 ==> SafeChar("Beach Day"[i])
  {
  }

  lemma SpacedStemExample()
    ensures SafeName("Beach Day") == "beach_day"
  {
    BeachDayKept();
    SafeNameOfSafeStem("Beach Day");
    BeachDayReplaced();
    BeachDayLowered();
  }

  lemma SnakeStemExample()
    ensures SafeName("beach_day") == "beach_day"
  {
    var s := "beach_day";
    assert forall i :: 0 <= i < |s| ==> SafeNameChar(s[i]);
    SafeNameFixed(s);
  }

  /** A string already made of safe-name characters is its own safe name. */
  lemma SafeNameFixed(s: string)
    requires forall i :: 0 <= i < |s| ==> SafeNameChar(s[i])
    ensures SafeName(s) == s
  {
    SafeNameCharsKept(s);
    assert s == [] || !IsSpace(s[|s| - 1]);
    RStripIdentity(s);
    SafeNameCharsUnchanged(s);
  }

  lemma SafeNameCharsKept(s: string)
    requires forall i :: 0 <= i < |s| ==> SafeNameChar(s[i])
    ensures KeepSafe(s) == s
  {
    forall i | 0 <= i < |s| ensures SafeChar(s[i]) { }
    KeepSafeIdentity(s);
  }

  lemma SafeNameCharsUnchanged(s: string)
    requires forall i :: 0 <= i < |s| ==> SafeNameChar(s[i])
    ensures ReplaceChar(s, ' ', '_') == s && Lower(s) == s
  {
    assert ReplaceChar(s, ' ', '_') == s;
    assert Lower(s) == s;
  }

  /** Different stems can share a safe name: "Beach Day" and "beach_day" both give "beach_day". */
  lemma SafeNameCollision()
    ensures SafeName("Beach Day") == SafeName("beach_day") == "beach_day"
  {
    SpacedStemExample();
    SnakeStemExample();
  }

  // ---------------------------------------------------------------------
  // Output names
  // ---------------------------------------------------------------------

  /** `f"{category}_{photo_id:03d}_{safe_name}.jpg"` */
  function FullName(category: string, id: nat, safe: string): string
  {
    category + "_" + ZeroPad(id, 3) + "_" + safe + ".jpg"
  }

  /** `f"{category}_{photo_id:03d}_{safe_name}_thumb.jpg"` */
  function ThumbName(category: string, id: nat, safe: string): string
  {
    category + "_" + ZeroPad(id, 3) + "_" + safe + "_thumb.jpg"
  }

  /** The thumbnail name is the full-size name with `_thumb` before the extension. */
  lemma ThumbNameOfFullName(category: string, id: nat, safe: string)
    ensures var f := FullName(category, id, safe);
      ThumbName(category, id, safe) == f[..|f| - 4] + "_thumb.jpg"
  {
    var p := category + "_" + ZeroPad(id, 3) + "_" + safe;
    assert FullName(category, id, safe) == p + ".jpg";
    assert (p + ".jpg")[..|p|] == p;
  }

  /** The id field reads back: the name carries the id zero-padded to at least three digits. */
  lemma FullNameId(category: string, id: nat, safe: string)
    ensures var f := FullName(category, id, safe);
      var d := ZeroPad(id, 3);
      && f[..|category| + 1] == category + "_"
      && |f| >= |category| + 1 + |d|
      && f[|category| + 1..|category| + 1 + |d|] == d
      && |d| >= 3 && AllDigits(d) && DigitsValue(d) == id
  {
    ZeroPadValue(id, 3);
    var d := ZeroPad(id, 3);
    var f := FullName(category, id, safe);
    assert f == (category + "_") + (d + ("_" + safe + ".jpg"));
  }

  /** For one category and one safe name, different ids give different output names. */
  lemma FullNameInjective(category: string, i: nat, j: nat, safe: string)
    requires FullName(category, i, safe) == FullName(category, j, safe)
    ensures i == j
  {
    var di, dj := ZeroPad(i, 3), ZeroPad(j, 3);
    var tail := "_" + safe + ".jpg";
    assert FullName(category, i, safe) == (category + "_") + di + tail;
    assert FullName(category, j, safe) == (category + "_") + dj + tail;
    assert |di| == |dj|;
    var n := |category| + 1;
    assert di == FullName(category, i, safe)[n..n + |di|];
    assert dj == FullName(category, j, safe)[n..n + |dj|];
    ZeroPadValue(i, 3);
    ZeroPadValue(j, 3);
  }

  /** For one category and one id, the output name determines the safe name. */
  lemma FullNameSafeInjective(category: string, id: nat, a: string, b: string)
    ensures FullName(category, id, a) == FullName(category, id, b) <==> a == b
  {
    var p := category + "_" + ZeroPad(id, 3) + "_";
    assert FullName(category, id, a) == p + a + ".jpg";
    assert FullName(category, id, b) == p + b + ".jpg";
    if FullName(category, id, a) == FullName(category, id, b) {
      assert |a| == |b|;
      assert a == (p + a + ".jpg")[|p|..|p| + |a|];
      assert b == (p + b + ".jpg")[|p|..|p| + |b|];
    }
  }

  // ---------------------------------------------------------------------
  // Title and folder label
  // ---------------------------------------------------------------------

  /** `s.replace('_', ' ').replace('-', ' ')` */
  function Spaced(s: string): (r: string)
    ensures |r| == |s|
    ensures forall i :: 0 <= i < |r| ==> r[i] == (if s[i] == '_' || s[i] == '-' then ' ' else s[i])
  {
    ReplaceChar(ReplaceChar(s, '_', ' '), '-', ' ')
  }

  /** `stem.replace('_', ' ').replace('-', ' ').title()` */
  function Title(stem: string): string { TitleCase(Spaced(stem)) }

  /**
   * The title has the stem's length; '_' and '-' become spaces; a letter is
   * upper case exactly at the start of a word and lower case inside one;
   * other characters are kept.
   */
  lemma TitleText(stem: string, i: nat)
    requires i < |stem|
    ensures |Title(stem)| == |stem|
    ensures stem[i] == '_' || stem[i] == '-' ==> Title(stem)[i] == ' '
    ensures IsLetter(stem[i]) && (i == 0 || !IsLetter(stem[i - 1])) ==> Title(stem)[i] == ToUpper(stem[i])
    ensures IsLetter(stem[i]) && i > 0 && IsLetter(stem[i - 1]) ==> Title(stem)[i] == ToLower(stem[i])
    ensures !IsLetter(stem[i]) && stem[i] != '_' && stem[i] != '-' ==> Title(stem)[i] == stem[i]
  {
    TitleCaseAt(Spaced(stem), i);
  }

  /** A folder name shown as a location: `replace('_', ' ').replace('-', ' ')`. */
  function FolderLabel(parent: string): string { Spaced(parent) }
}
