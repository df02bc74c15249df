/**
 * The records of `photos.json` and the assembly steps every indexer shares:
 * the per-file collection loop, the category-by-category append with its
 * `len(self.photos) + 1` id, and the final `sort(key=date, reverse=True)`.
 */
module Manifest {
  import opened Wrappers
  import opened Text
  import opened Sorting
  import Exif

  /**
   * The `location` field: the coordinate label `f"{lat:.4f}, {lng:.4f}"`
   * (kept as the exact pair), or a place name such as "Unknown".
   */
  datatype Location = Coordinates(lat: real, lng: real) | Place(name: string)

  const UNKNOWN := "Unknown"

  /**
   * One entry of `photos.json`. Keys only some producers write are Options:
   * `original_file` (local, simple, generator), `google_drive_folder`
   * (Google Drive) and `file_id` (added by the file-id helper).
   */
  datatype Record = Record(
    id: nat,
    title: string,
    category: string,
    thumbnail: string,
    full: string,
    lat: Option<real>,
    lng: Option<real>,
    location: Location,
    date: string,
    filename: string,
    originalFile: Option<string>,
    driveFolder: Option<string>,
    fileId: Option<string>)

  /** The `lat`, `lng` and `location` fields of a record built from an optional GPS pair. */
  predicate GpsFieldsAgree(r: Record, gps: Option<(real, real)>)
  {
    && (r.lat.Some? <==> gps.Some?) && (r.lng.Some? <==> gps.Some?)
    && (gps.Some? ==> r.lat == Some(gps.value.0) && r.lng == Some(gps.value.1)
                      && r.location == Coordinates(gps.value.0, gps.value.1))
    && (gps.None? ==> r.location.Place?)
  }

  // ---------------------------------------------------------------------
  // The per-file loop
  // ---------------------------------------------------------------------

  /** `for f in files: metadata = process(f); if metadata: photos.append(metadata)` */
  function Collected<T>(items: seq<T>, process: T -> Option<Record>): seq<Record>
    decreases |items|
  {
    if items == [] then []
    else
      var last := process(items[|items| - 1]);
      Collected(items[..|items| - 1], process) + (if last.Some? then [last.value] else [])
  }

  /** The per-file loop of every `scan_directory`, run statement by statement. */
  method CollectEach<T>(items: seq<T>, process: T -> Option<Record>) returns (photos: seq<Record>)
    ensures photos == Collected(items, process)
  {
    photos := [];
    for i := 0 to |items|
      invariant photos == Collected(items[..i], process)
    {
      assert items[..i + 1] == items[..i] + [items[i]];
      CollectedSnoc(items[..i], items[i], process);
      var metadata := process(items[i]);
      if metadata.Some? {
        photos := photos + [metadata.value];
      }
    }
    assert items[..|items|] == items;
  }

  /** Every collected record comes from one item, in item order, and a failed item leaves no trace. */
  lemma {:induction false} CollectedMembers<T>(items: seq<T>, process: T -> Option<Record>)
    ensures |Collected(items, process)| <= |items|
    ensures forall r :: r in Collected(items, process) <==> exists i :: 0 <= i < |items| && process(items[i]) == Some(r)
    decreases |items|
  {
    if items != [] {
      var init := items[..|items| - 1];
      CollectedMembers(init, process);
      forall r ensures r in Collected(items, process) <==> exists i :: 0 <= i < |items| && process(items[i]) == Some(r) {
        if r in Collected(init, process) {
          var i :| 0 <= i < |init| && process(init[i]) == Some(r);
          assert items[i] == init[i];
        }
        if exists i :: 0 <= i < |items| && process(items[i]) == Some(r) {
          var i :| 0 <= i < |items| && process(items[i]) == Some(r);
          if i < |init| { assert init[i] == items[i]; }
        }
      }
    }
  }

  /** Collection distributes over concatenation, so a loop can extend it one item at a time. */
  lemma {:induction false} CollectedSnoc<T>(items: seq<T>, x: T, process: T -> Option<Record>)
    ensures Collected(items + [x], process)
      == Collected(items, process) + (if process(x).Some? then [process(x).value] else [])
  {
    assert (items + [x])[..|items|] == items;
  }

  /** When no item yields a record, nothing is collected. */
  lemma {:induction false} CollectedNone<T>(items: seq<T>, process: T -> Option<Record>)
    requires forall i :: 0 <= i < |items| ==> process(items[i]).None?
    ensures Collected(items, process) == []
    decreases |items|
  {
    if items != [] {
      CollectedNone(items[..|items| - 1], process);
    }
  }

  /** The items that pass `keep`, in their order. */
  function Kept<T>(items: seq<T>, keep: T -> bool): seq<T>
    decreases |items|
  {
    if items == [] then []
    else
      var x := items[|items| - 1];
      Kept(items[..|items| - 1], keep) + (if keep(x) then [x] else [])
  }

  /** An item is kept exactly when it is one of the items and passes `keep`. */
  lemma {:induction false} KeptMembers<T>(items: seq<T>, keep: T -> bool)
    ensures |Kept(items, keep)| <= |items|
    ensures forall x :: x in Kept(items, keep) <==> x in items && keep(x)
    decreases |items|
  {
    if items != [] {
      var init, x := items[..|items| - 1], items[|items| - 1];
      KeptMembers(init, keep);
      assert items == init + [x];
    }
  }

  /** Items that yield no record can be dropped before collecting. */
  lemma {:induction false} CollectedKept<T>(items: seq<T>, keep: T -> bool, process: T -> Option<Record>)
    requires forall i :: 0 <= i < |items| && !keep(items[i]) ==> process(items[i]).None?
    ensures Collected(items, process) == Collected(Kept(items, keep), process)
    decreases |items|
  {
    if items != [] {
      var init, x := items[..|items| - 1], items[|items| - 1];
      assert forall i :: 0 <= i < |init| ==> init[i] == items[i];
      CollectedKept(init, keep, process);
      var k := Kept(init, keep);
      assert Collected(items, process) == Collected(init, process) + (if process(x).Some? then [process(x).value] else []);
      if keep(x) {
        assert Kept(items, keep) == k + [x];
        CollectedSnoc(k, x, process);
      } else {
        assert Kept(items, keep) == k;
      }
    }
  }

  /** When every item yields a record, the records are the items' records one for one. */
  lemma {:induction false} CollectedAll<T>(items: seq<T>, process: T -> Option<Record>)
    requires forall i :: 0 <= i < |items| ==> process(items[i]).Some?
    ensures |Collected(items, process)| == |items|
    ensures forall i :: 0 <= i < |items| ==> Collected(items, process)[i] == process(items[i]).value
    decreases |items|
  {
    if items != [] {
      var init := items[..|items| - 1];
      CollectedAll(init, process);
    }
  }

  // ---------------------------------------------------------------------
  // Appending category after category
  // ---------------------------------------------------------------------

  /** A scanner: the records one category yields, given its name, its directory and the id in force. */
  type Scanner = (string, string, nat) -> seq<Record>

  /**
   * `for category, directory in photo_directories: self.photos.extend(scan(directory, category))`,
   * where each scan sees `len(self.photos) + 1` as its id.
   */
  function Appended(categories: seq<(string, string)>, photos: seq<Record>, scan: Scanner): seq<Record>
    decreases |categories|
  {
    if categories == [] then photos
    else
      var (category, directory) := categories[0];
      Appended(categories[1..], photos + scan(category, directory, |photos| + 1), scan)
  }

  /** One step of the category loop: scanning category `i` moves it out of the remaining suffix. */
  lemma AppendedStep(categories: seq<(string, string)>, i: nat, photos: seq<Record>, scan: Scanner)
    requires i < |categories|
    ensures Appended(categories[i..], photos, scan)
      == Appended(categories[i + 1..], photos + scan(categories[i].0, categories[i].1, |photos| + 1), scan)
  {
    assert categories[i..][0] == categories[i];
    assert categories[i..][1..] == categories[i + 1..];
  }

  /** Every record of `s` carries `category` and `id`. */
  predicate Stamped(s: seq<Record>, category: string, id: nat)
  {
    forall r :: r in s ==> r.category == category && r.id == id
  }

  /** Every record a scan returns carries the scan's category and the id it was given. */
  ghost predicate StampsScan(scan: Scanner)
  {
    forall category, directory, id :: Stamped(scan(category, directory, id), category, id)
  }

  /** The number of records in `s` whose category is not `category`. */
  function CountOther(s: seq<Record>, category: string): nat
    decreases |s|
  {
    if s == [] then 0
    else CountOther(s[..|s| - 1], category) + (if s[|s| - 1].category != category then 1 else 0)
  }

  /** Each record's id is 1 + the number of records of other categories before it. */
  ghost predicate IdsCountEarlierCategories(s: seq<Record>)
  {
    forall i :: 0 <= i < |s| ==> s[i].id == 1 + CountOther(s[..i], s[i].category)
  }

  lemma {:induction false} CountOtherConcat(a: seq<Record>, b: seq<Record>, category: string)
    ensures CountOther(a + b, category) == CountOther(a, category) + CountOther(b, category)
    decreases |b|
  {
    if b == [] {
      assert a + b == a;
    } else {
      assert (a + b)[..|a + b| - 1] == a + b[..|b| - 1];
      CountOtherConcat(a, b[..|b| - 1], category);
    }
  }

  lemma {:induction false} CountOtherNone(s: seq<Record>, category: string)
    requires forall r :: r in s ==> r.category == category
    ensures CountOther(s, category) == 0
    decreases |s|
  {
    if s != [] { CountOtherNone(s[..|s| - 1], category); }
  }

  lemma {:induction false} CountOtherAll(s: seq<Record>, category: string)
    requires forall r :: r in s ==> r.category != category
    ensures CountOther(s, category) == |s|
    decreases |s|
  {
    if s != [] { CountOtherAll(s[..|s| - 1], category); }
  }

  /** One category's block keeps the id property when its category is new. */
  lemma BlockIds(start: seq<Record>, block: seq<Record>, category: string)
    requires IdsCountEarlierCategories(start)
    requires forall r :: r in start ==> r.category != category
    requires forall r :: r in block ==> r.category == category && r.id == |start| + 1
    ensures IdsCountEarlierCategories(start + block)
  {
    var s := start + block;
    forall i | 0 <= i < |s| ensures s[i].id == 1 + CountOther(s[..i], s[i].category) {
      if i < |start| {
        assert s[..i] == start[..i];
        assert s[i] == start[i];
      } else {
        var k := i - |start|;
        assert s[i] == block[k];
        assert s[..i] == start + block[..k];
        CountOtherConcat(start, block[..k], category);
        CountOtherAll(start, category);
        assert forall r :: r in block[..k] ==> r in block;
        CountOtherNone(block[..k], category);
      }
    }
  }

  /**
   * The id quirk: `self.photos` grows only after a whole category has been
   * scanned, so every record of one category shares one id, namely 1 + the
   * number of records of the categories scanned before it.
   */
  lemma {:induction false} AppendedIds(categories: seq<(string, string)>, start: seq<Record>, scan: Scanner)
    requires StampsScan(scan)
    requires IdsCountEarlierCategories(start)
    requires forall i, j :: 0 <= i < j < |categories| ==> categories[i].0 != categories[j].0
    requires forall r, i :: r in start && 0 <= i < |categories| ==> r.category != categories[i].0
    ensures IdsCountEarlierCategories(Appended(categories, start, scan))
    decreases |categories|
  {
    if categories != [] {
      var (category, directory) := categories[0];
      var block := scan(category, directory, |start| + 1);
      BlockIds(start, block, category);
      var next := start + block;
      forall r, i | r in next && 0 <= i < |categories[1..]| ensures r.category != categories[1..][i].0 {
        assert categories[1..][i] == categories[i + 1];
        if r in block {
          assert r.category == categories[0].0;
        } else {
          assert r in start;
        }
      }
      forall i, j | 0 <= i < j < |categories[1..]| ensures categories[1..][i].0 != categories[1..][j].0 {
        assert categories[1..][i] == categories[i + 1] && categories[1..][j] == categories[j + 1];
      }
      AppendedIds(categories[1..], next, scan);
    }
  }

  /** Two records of one category in an assembled list carry the same id. */
  lemma SameCategorySameId(s: seq<Record>, i: nat, j: nat)
    requires IdsCountEarlierCategories(s)
    requires i < j < |s| && s[i].category == s[j].category
    requires forall k :: i < k < j ==> s[k].category == s[i].category
    ensures s[i].id == s[j].id
  {
    RunCountsNothing(s, i, j);
    assert s[j].id == 1 + CountOther(s[..j], s[j].category);
  }

  /** A run of records of one category adds nothing to the count of other categories. */
  lemma RunCountsNothing(s: seq<Record>, i: nat, j: nat)
    requires i < j <= |s|
    requires forall k :: i < k < j ==> s[k].category == s[i].category
    ensures CountOther(s[..j], s[i].category) == CountOther(s[..i], s[i].category)
  {
    var c := s[i].category;
    var before, run := s[..i], s[i..j];
    assert s[..j] == before + run;
    CountOtherConcat(before, run, c);
    forall r | r in run ensures r.category == c {
      var k :| 0 <= k < |run| && run[k] == r;
      assert run[k] == s[i + k];
    }
    CountOtherNone(run, c);
  }

  /** The appended list is the old list followed by each category's scan, in order. */
  lemma {:induction false} AppendedExtends(categories: seq<(string, string)>, start: seq<Record>, scan: Scanner)
    ensures |Appended(categories, start, scan)| >= |start|
    ensures Appended(categories, start, scan)[..|start|] == start
    decreases |categories|
  {
    if categories != [] {
      var (category, directory) := categories[0];
      var next := start + scan(category, directory, |start| + 1);
      AppendedExtends(categories[1..], next, scan);
      assert next[..|start|] == start;
    }
  }

  /** With the three configured categories the fold is three scans in order, each seeing the length so far. */
  lemma AppendedThree(categories: seq<(string, string)>, start: seq<Record>, scan: Scanner)
    requires |categories| == 3
    ensures var a := scan(categories[0].0, categories[0].1, |start| + 1);
      var b := scan(categories[1].0, categories[1].1, |start| + |a| + 1);
      var c := scan(categories[2].0, categories[2].1, |start| + |a| + |b| + 1);
      Appended(categories, start, scan) == start + a + b + c
  {
    var a := scan(categories[0].0, categories[0].1, |start| + 1);
    var b := scan(categories[1].0, categories[1].1, |start| + |a| + 1);
    var c := scan(categories[2].0, categories[2].1, |start| + |a| + |b| + 1);
    var rest1, rest2 := categories[1..], categories[2..];
    assert rest1[0] == categories[1] && rest1[1..] == rest2;
    assert rest2[0] == categories[2] && rest2[1..] == [];
    assert Appended(categories, start, scan) == Appended(rest1, start + a, scan);
    assert |start + a| == |start| + |a|;
    assert Appended(rest1, start + a, scan) == Appended(rest2, start + a + b, scan);
    assert |start + a + b| == |start| + |a| + |b|;
    assert Appended(rest2, start + a + b, scan) == Appended([], start + a + b + c, scan);
  }

  /** The three scans of a fresh run over three categories, each seeing the id in force when it runs. */
  function FreshScans(categories: seq<(string, string)>, scan: Scanner): (seq<Record>, seq<Record>, seq<Record>)
    requires |categories| == 3
  {
    var a := scan(categories[0].0, categories[0].1, 1);
    var b := scan(categories[1].0, categories[1].1, |a| + 1);
    var c := scan(categories[2].0, categories[2].1, |a| + |b| + 1);
    (a, b, c)
  }

  /** `r` belongs to one of the three scans and carries that scan's category and id. */
  predicate FromFreshScan(categories: seq<(string, string)>, scans: (seq<Record>, seq<Record>, seq<Record>), r: Record)
    requires |categories| == 3
  {
    var (a, b, c) := scans;
    || (r in a && r.category == categories[0].0 && r.id == 1)
    || (r in b && r.category == categories[1].0 && r.id == |a| + 1)
    || (r in c && r.category == categories[2].0 && r.id == |a| + |b| + 1)
  }

  /**
   * In the sorted manifest of a fresh run over three categories, every record
   * comes from one scan: the first category's records have id 1, the
   * second's 1 + the size of the first scan, the third's 1 + the sizes of the
   * first two.
   */
  lemma FreshThreeIds(categories: seq<(string, string)>, scan: Scanner, r: Record)
    requires |categories| == 3 && StampsScan(scan)
    requires r in SortByDate(Appended(categories, [], scan))
    ensures FromFreshScan(categories, FreshScans(categories, scan), r)
  {
    SortedMember(Appended(categories, [], scan), r);
    FreshScansJoined(categories, scan);
    FreshScansStamped(categories, scan);
    var scans := FreshScans(categories, scan);
    ThreeMember(scans.0, scans.1, scans.2, r);
  }

  lemma FreshScansJoined(categories: seq<(string, string)>, scan: Scanner)
    requires |categories| == 3
    ensures var scans := FreshScans(categories, scan);
      Appended(categories, [], scan) == [] + scans.0 + scans.1 + scans.2
  {
    AppendedThree(categories, [], scan);
  }

  lemma FreshScansStamped(categories: seq<(string, string)>, scan: Scanner)
    requires |categories| == 3 && StampsScan(scan)
    ensures var (a, b, c) := FreshScans(categories, scan);
      && Stamped(a, categories[0].0, 1)
      && Stamped(b, categories[1].0, |a| + 1)
      && Stamped(c, categories[2].0, |a| + |b| + 1)
  {
  }

  lemma SortedMember(photos: seq<Record>, r: Record)
    requires r in SortByDate(photos)
    ensures r in photos
  {
    assert r in multiset(SortByDate(photos));
  }

  lemma ThreeMember(a: seq<Record>, b: seq<Record>, c: seq<Record>, r: Record)
    requires r in [] + a + b + c
    ensures r in a || r in b || r in c
  {
    assert [] + a + b + c == a + (b + c);
  }

  // ---------------------------------------------------------------------
  // The final date sort
  // ---------------------------------------------------------------------

  function DateKey(r: Record): string { r.date }

  /** `photos.sort(key=lambda x: x['date'], reverse=True)` */
  function SortByDate(photos: seq<Record>): (r: seq<Record>)
    ensures multiset(r) == multiset(photos) && |r| == |photos|
    ensures SortedDesc(r, DateKey, LexLess)
    ensures forall d :: WithKey(r, DateKey, d) == WithKey(photos, DateKey, d)
  {
    SortDescPermutation(photos, DateKey, LexLess);
    LexLessIsStrictTotalOrder();
    SortDescSorted(photos, DateKey, LexLess);
    forall d { SortDescStable(photos, DateKey, LexLess, d); }
    SortDesc(photos, DateKey, LexLess)
  }

  lemma LexLessIsStrictTotalOrder()
    ensures StrictTotalOrder(LexLess)
  {
    forall a { LexLessIrreflexive(a); }
    forall a, b, c | LexLess(a, b) && LexLess(b, c) ensures LexLess(a, c) { LexLessTransitive(a, b, c); }
    forall a, b | a != b ensures LexLess(a, b) || LexLess(b, a) { LexLessTotal(a, b); }
  }

  /** In the sorted manifest a record dated "Unknown" comes before every record with a real date. */
  lemma UnknownSortsFirst(photos: seq<Record>, i: nat, j: nat)
    requires i < |SortByDate(photos)| && j < |SortByDate(photos)|
    requires SortByDate(photos)[i].date == UNKNOWN
    requires Exif.IsIsoDate(SortByDate(photos)[j].date)
    ensures i < j
  {
    var s := SortByDate(photos);
    var d :| Exif.ValidDate(d) && s[j].date == Exif.IsoDate(d);
    UnknownAfterDigits(d);
    DatedAfterUnknown(s, i, j);
  }

  /** In a list sorted by descending date, a record dated below "Unknown" comes after one dated "Unknown". */
  lemma DatedAfterUnknown(s: seq<Record>, i: nat, j: nat)
    requires SortedDesc(s, DateKey, LexLess)
    requires i < |s| && j < |s| && s[i].date == UNKNOWN
    requires LexLess(s[j].date, UNKNOWN)
    ensures i < j
  {
    LexLessIrreflexive(UNKNOWN);
  }

  /** A date string starts with a digit, which is below 'U'. */
  lemma IsoDateStartsWithDigit(d: Exif.CalendarDate)
    requires Exif.ValidDate(d)
    ensures |Exif.IsoDate(d)| >= 1 && IsDigit(Exif.IsoDate(d)[0])
  {
    var y := ZeroPad(d.year, 4);
    ZeroPadLeadingDigit(d.year, 4);
    var a1 := y + "-";
    var a2 := a1 + ZeroPad(d.month, 2);
    var a3 := a2 + "-";
    assert Exif.IsoDate(d) == a3 + ZeroPad(d.day, 2);
    assert a1[0] == y[0] && a2[0] == a1[0] && a3[0] == a2[0];
    assert (a3 + ZeroPad(d.day, 2))[0] == a3[0];
  }

  lemma ZeroPadLeadingDigit(n: nat, width: nat)
    ensures |ZeroPad(n, width)| >= 1 && IsDigit(ZeroPad(n, width)[0])
  {
    ZeroPadValue(n, width);
  }

  /** Any date string is less than "Unknown", so the reverse sort puts "Unknown" first. */
  lemma UnknownAfterDigits(d: Exif.CalendarDate)
    requires Exif.ValidDate(d)
    ensures LexLess(Exif.IsoDate(d), UNKNOWN)
  {
    IsoDateStartsWithDigit(d);
    var s := Exif.IsoDate(d);
    assert s[..0] == UNKNOWN[..0];
    LexLessAt(s, UNKNOWN, 0);
  }

  /** On real dates the sorted manifest runs from the newest date to the oldest. */
  lemma SortedNewestFirst(photos: seq<Record>, i: nat, j: nat, a: Exif.CalendarDate, b: Exif.CalendarDate)
    requires i < j < |SortByDate(photos)|
    requires Exif.ValidDate(a) && Exif.ValidDate(b)
    requires SortByDate(photos)[i].date == Exif.IsoDate(a) && SortByDate(photos)[j].date == Exif.IsoDate(b)
    ensures !Exif.DateBefore(a, b)
  {
    Exif.IsoDateChronological(a, b);
  }
}
