/** The small helpers of the exporter: date formatting, the document filename
    builder, category names of voucher positions, and the selection of files
    that `deleteAllFilesInDirectory` removes. */
module Helper {
  import opened Wrappers
  import opened Text
  import opened Records

  // ---------------------------------------------------------------------------
  // dateToString

  /** The year as `toISOString` writes it: four digits for years 0 to 9999,
      otherwise a sign and six digits. */
  function YearText(y: int): string
    requires MinYear <= y <= MaxYear
  {
    Pow10Values();
    if 0 <= y <= 9999 then Padded(y, 4)
    else if y < 0 then "-" + Padded(-y, 6)
    else "+" + Padded(y, 6)
  }

  /** The calendar date in the ISO 8601 extended format `YYYY-MM-DD`. */
  function FormatDate(d: LocalDate): string
  {
    Pow10Values();
    YearText(d.year) + "-" + Padded(d.month, 2) + "-" + Padded(d.day, 2)
  }

  /** `dateToString(date)`: the date part of the ISO rendering of the local wall-clock time.
      For a four-digit year it is a ten-character `YYYY-MM-DD` text naming the local date. */
  function DateToString(t: Instant): (s: string)
    ensures 0 <= t.local.year <= 9999 ==> |s| == 10 && ParseIsoDate(s) == Some(t.local)
  {
    if 0 <= t.local.year <= 9999 then
      DateStringRoundTrip(t.local);
      FormatDate(t.local)
    else FormatDate(t.local)
  }

  /** Reads a `YYYY-MM-DD` text back into a calendar date; the inverse of `FormatDate`. */
  function ParseIsoDate(s: string): Option<CalendarDate>
  {
    if |s| == 10 && s[4] == '-' && s[7] == '-'
       && AllDigits(s[..4]) && AllDigits(s[5..7]) && AllDigits(s[8..])
    then Some(CalendarDate(ParseDigits(s[..4]), ParseDigits(s[5..7]), ParseDigits(s[8..])))
    else None
  }

  /** For a four-digit year, the date text has ten characters, dashes at indices 4
      and 7, digits elsewhere, and reads back as the same date. */
  lemma DateStringRoundTrip(d: LocalDate)
    requires 0 <= d.year <= 9999
    ensures var s := FormatDate(d);
      |s| == 10 && s[4] == '-' && s[7] == '-'
      && AllDigits(s[..4]) && AllDigits(s[5..7]) && AllDigits(s[8..])
      && ParseIsoDate(s) == Some(d)
  {
    Pow10Values();
    var y, m, dd := Padded(d.year, 4), Padded(d.month, 2), Padded(d.day, 2);
    assert YearText(d.year) == y;
    DashedSlices(y, m, dd);
    PaddedRoundTrip(d.year, 4);
    PaddedRoundTrip(d.month, 2);
    PaddedRoundTrip(d.day, 2);
  }

  /** Where the three fields of a `YYYY-MM-DD` text sit. */
  lemma DashedSlices(y: string, m: string, d: string)
    requires |y| == 4 && |m| == 2 && |d| == 2
    ensures var s := y + "-" + m + "-" + d;
      |s| == 10 && s[4] == '-' && s[7] == '-' && s[..4] == y && s[5..7] == m && s[8..] == d
  {
  }

  /** Every well-formed date text that names a valid date is the formatting of that date. */
  lemma ParsedDateFormatsBack(s: string)
    requires ParseIsoDate(s).Some? && ValidDate(ParseIsoDate(s).value)
    ensures FormatDate(ParseIsoDate(s).value) == s
  {
    Pow10Values();
    ParsedPadsBack(s[..4]);
    ParsedPadsBack(s[5..7]);
    ParsedPadsBack(s[8..]);
    assert s == s[..4] + "-" + s[5..7] + "-" + s[8..];
  }

  /** Calendar order: earlier year, then earlier month, then earlier day. */
  predicate DateBefore(a: CalendarDate, b: CalendarDate)
  {
    a.year < b.year
    || (a.year == b.year && (a.month < b.month || (a.month == b.month && a.day < b.day)))
  }

  /** Texts of the form `head-rest` with equally long heads compare by head, then by rest. */
  lemma DashedOrder(x1: string, r1: string, x2: string, r2: string)
    requires |x1| == |x2|
    ensures TextBefore(x1 + "-" + r1, x2 + "-" + r2) <==> TextBefore(x1, x2) || (x1 == x2 && TextBefore(r1, r2))
  {
    assert x1 + "-" + r1 == x1 + ("-" + r1);
    assert x2 + "-" + r2 == x2 + ("-" + r2);
    TextBeforeConcat(x1, "-" + r1, x2, "-" + r2);
    TextBeforeConcat("-", r1, "-", r2);
    assert !TextBefore("-", "-");
  }

  /** Zero-padded renderings of one width compare as the numbers do, and agree exactly when they do. */
  lemma PaddedCompare(n: nat, m: nat, width: nat)
    requires n < Pow10(width) && m < Pow10(width)
    ensures TextBefore(Padded(n, width), Padded(m, width)) <==> n < m
    ensures Padded(n, width) == Padded(m, width) <==> n == m
  {
    PaddedOrder(n, m, width);
    PaddedRoundTrip(n, width);
    PaddedRoundTrip(m, width);
  }

  /** Date texts of four-digit years sort as the dates do, which is what makes the
      pay date a sortable filename prefix. */
  lemma DateTextSortable(a: LocalDate, b: LocalDate)
    requires 0 <= a.year <= 9999 && 0 <= b.year <= 9999
    ensures DateBefore(a, b) <==> TextBefore(FormatDate(a), FormatDate(b))
  {
    Pow10Values();
    var ya, ma, da := Padded(a.year, 4), Padded(a.month, 2), Padded(a.day, 2);
    var yb, mb, db := Padded(b.year, 4), Padded(b.month, 2), Padded(b.day, 2);
    assert FormatDate(a) == ya + "-" + (ma + "-" + da);
    assert FormatDate(b) == yb + "-" + (mb + "-" + db);
    DashedOrder(ya, ma + "-" + da, yb, mb + "-" + db);
    DashedOrder(ma, da, mb, db);
    PaddedCompare(a.year, b.year, 4);
    PaddedCompare(a.month, b.month, 2);
    PaddedCompare(a.day, b.day, 2);
  }

  // ---------------------------------------------------------------------------
  // buildDocumentFileName

  /** `String(id)`: the text as given, or the decimal rendering of the number. */
  function IdText(id: Id): string
  {
    match id
    case TextId(s) => s
    case NumberId(n) => if n < 0 then "-" + Decimal(-n) else Decimal(n)
  }

  /** Distinct numeric ids are rendered as distinct texts. */
  lemma NumberIdTextInjective(a: int, b: int)
    requires a != b
    ensures IdText(NumberId(a)) != IdText(NumberId(b))
  {
    var ta, tb := IdText(NumberId(a)), IdText(NumberId(b));
    if a < 0 && b >= 0 {
      assert ta[0] == '-' && IsDigit(tb[0]);
    } else if a >= 0 && b < 0 {
      assert tb[0] == '-' && IsDigit(ta[0]);
    } else if a < 0 {
      DecimalInjective(-a, -b);
      assert ta[1..] == Decimal(-a) && tb[1..] == Decimal(-b);
    } else {
      DecimalInjective(a, b);
    }
  }

  lemma DecimalInjective(n: nat, m: nat)
    requires n != m
    ensures Decimal(n) != Decimal(m)
  {
    DecimalRoundTrip(n);
    DecimalRoundTrip(m);
  }

  /** The default of the `extension` parameter; the builder puts its own dot in front of it. */
  const DefaultExtension: string := ".pdf"

  /** The present parts of a filename, in the fixed order pay date, name, id, extra info. */
  function FileNameParts(payDate: Option<Instant>, name: string, id: Option<Id>, extraInfo: string): seq<string>
  {
    (if payDate.Some? then [DateToString(payDate.value)] else [])
    + (if name != "" then [name] else [])
    + (if IdPresent(id) then [IdText(id.value)] else [])
    + (if extraInfo != "" then [extraInfo] else [])
  }

  /** The filename `buildDocumentFileName` returns for these arguments. */
  function FileName(payDate: Option<Instant>, name: string, id: Option<Id>, extraInfo: string, extension: string): string
  {
    Join(FileNameParts(payDate, name, id, extraInfo), "-") + "." + extension
  }

  /** `buildDocumentFileName`: pushes the present parts one by one, joins them with
      `-` and appends a dot and the extension. */
  method BuildDocumentFileName(payDate: Option<Instant>, name: string, id: Option<Id>, extraInfo: string, extension: string)
    returns (fileName: string)
    ensures fileName == FileName(payDate, name, id, extraInfo, extension)
    ensures |fileName| > |extension| && fileName[|fileName| - |extension| - 1..] == "." + extension
  {
    var fileNameParts: seq<string> := [];
    if payDate.Some? {
      fileNameParts := fileNameParts + [DateToString(payDate.value)];
    }
    if name != "" {
      fileNameParts := fileNameParts + [name];
    }
    if IdPresent(id) {
      fileNameParts := fileNameParts + [IdText(id.value)];
    }
    if extraInfo != "" {
      fileNameParts := fileNameParts + [extraInfo];
    }
    assert fileNameParts == FileNameParts(payDate, name, id, extraInfo);
    fileName := Join(fileNameParts, "-") + "." + extension;
    assert fileName == Join(fileNameParts, "-") + ("." + extension);
  }

  /** The non-empty texts of a list, in order. */
  function NonEmpty(texts: seq<string>): (r: seq<string>)
  {
    if texts == [] then []
    else (if texts[0] != "" then [texts[0]] else []) + NonEmpty(texts[1..])
  }

  lemma NonEmptyOfFour(a: string, b: string, c: string, d: string)
    ensures NonEmpty([a, b, c, d])
         == (if a != "" then [a] else []) + (if b != "" then [b] else [])
          + (if c != "" then [c] else []) + (if d != "" then [d] else [])
  {
    var ed := if d != "" then [d] else [];
    assert [d][1..] == [];
    assert NonEmpty([d]) == ed + NonEmpty([]) == ed;
    var ec := (if c != "" then [c] else []) + ed;
    assert [c, d][1..] == [d];
    assert NonEmpty([c, d]) == ec;
    var eb := (if b != "" then [b] else []) + ec;
    assert [b, c, d][1..] == [c, d];
    assert NonEmpty([b, c, d]) == eb;
    assert [a, b, c, d][1..] == [b, c, d];
    assert NonEmpty([a, b, c, d]) == (if a != "" then [a] else []) + eb;
  }

  /** The date text and the text of a present id are never empty. */
  lemma PartsNonEmpty(t: Instant, id: Option<Id>)
    ensures DateToString(t) != ""
    ensures IdPresent(id) ==> IdText(id.value) != ""
  {
    Pow10Values();
    assert |DateToString(t)| >= 6;
  }

  /** The parts are exactly the non-empty ones among the four candidates date, name,
      id and extra info, where an absent date or id counts as empty; every candidate
      that is present is non-empty, so none is lost and none is doubled. */
  lemma FileNamePartsArePresentCandidates(payDate: Option<Instant>, name: string, id: Option<Id>, extraInfo: string)
    ensures FileNameParts(payDate, name, id, extraInfo)
         == NonEmpty([if payDate.Some? then DateToString(payDate.value) else "",
                      name,
                      if IdPresent(id) then IdText(id.value) else "",
                      extraInfo])
  {
    var c0 := if payDate.Some? then DateToString(payDate.value) else "";
    var c2 := if IdPresent(id) then IdText(id.value) else "";
    if payDate.Some? {
      PartsNonEmpty(payDate.value, id);
    } else if IdPresent(id) {
      assert IdText(id.value) != "";
    }
    NonEmptyOfFour(c0, name, c2, extraInfo);
  }

  /** With no date, name, id or extra info the filename is just a dot and the extension. */
  lemma FileNameWithoutParts(id: Option<Id>, extension: string)
    requires !IdPresent(id)
    ensures FileName(None, "", id, "", extension) == "." + extension
  {
    assert FileNameParts(None, "", id, "") == [];
  }

  /** Called without an extension the builder ends the name in two dots before `pdf`. */
  lemma DefaultExtensionName(payDate: Option<Instant>, name: string, id: Option<Id>, extraInfo: string)
    ensures var f := FileName(payDate, name, id, extraInfo, DefaultExtension);
      |f| >= 5 && f[|f| - 5..] == "..pdf"
  {
  }

  /** The id makes the filename unique: two filenames that agree in every other
      argument and carry present ids are equal only if the ids are written alike. */
  lemma FileNameIdUnique(payDate: Option<Instant>, name: string, id1: Id, id2: Id, extraInfo: string, extension: string)
    requires IdPresent(Some(id1)) && IdPresent(Some(id2))
    requires FileName(payDate, name, Some(id1), extraInfo, extension) == FileName(payDate, name, Some(id2), extraInfo, extension)
    ensures IdText(id1) == IdText(id2)
  {
    var pre := (if payDate.Some? then [DateToString(payDate.value)] else []) + (if name != "" then [name] else []);
    var post := if extraInfo != "" then [extraInfo] else [];
    assert FileNameParts(payDate, name, Some(id1), extraInfo) == pre + [IdText(id1)] + post;
    assert FileNameParts(payDate, name, Some(id2), extraInfo) == pre + [IdText(id2)] + post;
    var j1, j2 := Join(pre + [IdText(id1)] + post, "-"), Join(pre + [IdText(id2)] + post, "-");
    var tail := "." + extension;
    assert FileName(payDate, name, Some(id1), extraInfo, extension) == j1 + tail;
    assert FileName(payDate, name, Some(id2), extraInfo, extension) == j2 + tail;
    assert j1 == (j1 + tail)[..|j1|];
    assert j2 == (j2 + tail)[..|j2|];
    JoinMiddleInjective(pre, IdText(id1), IdText(id2), post, "-");
  }

  /** A filename that carries a pay date begins with the date text. */
  lemma FileNameStartsWithDate(payDate: Instant, name: string, id: Option<Id>, extraInfo: string, extension: string)
    ensures var f := FileName(Some(payDate), name, id, extraInfo, extension);
      var d := DateToString(payDate);
      |d| <= |f| && f[..|d|] == d
  {
    var parts := FileNameParts(Some(payDate), name, id, extraInfo);
    JoinStartsWithFirst(parts, "-");
    var j := Join(parts, "-");
    var d := DateToString(payDate);
    assert FileName(Some(payDate), name, id, extraInfo, extension)[..|d|] == j[..|d|];
  }

  /** Filenames sort by pay date: for four-digit years, a document paid earlier gets
      a filename that sorts before that of a document paid later, whatever the other parts. */
  lemma FileNamesSortByPayDate(
    p1: Instant, name1: string, id1: Option<Id>, extra1: string, ext1: string,
    p2: Instant, name2: string, id2: Option<Id>, extra2: string, ext2: string)
    requires 0 <= p1.local.year <= 9999 && 0 <= p2.local.year <= 9999
    requires DateBefore(p1.local, p2.local)
    ensures TextBefore(FileName(Some(p1), name1, id1, extra1, ext1), FileName(Some(p2), name2, id2, extra2, ext2))
  {
    var f1, f2 := FileName(Some(p1), name1, id1, extra1, ext1), FileName(Some(p2), name2, id2, extra2, ext2);
    var d1, d2 := DateToString(p1), DateToString(p2);
    FileNameStartsWithDate(p1, name1, id1, extra1, ext1);
    FileNameStartsWithDate(p2, name2, id2, extra2, ext2);
    DateStringRoundTrip(p1.local);
    DateStringRoundTrip(p2.local);
    DateTextSortable(p1.local, p2.local);
    assert f1 == d1 + f1[|d1|..];
    assert f2 == d2 + f2[|d2|..];
    TextBeforeConcat(d1, f1[|d1|..], d2, f2[|d2|..]);
  }

  // ---------------------------------------------------------------------------
  // getCategories

  /** `position.accountingType.name || ""`. */
  function CategoryName(p: Position): string
  {
    OrElse(p.accountingType.name, "")
  }

  /** `getCategories`: the category name of each position, in position order. */
  function GetCategories(positions: seq<Position>): (categories: seq<string>)
    ensures |categories| == |positions|
    ensures forall i :: 0 <= i < |positions| ==>
      (Present(positions[i].accountingType.name) ==> categories[i] == positions[i].accountingType.name.value)
      && (!Present(positions[i].accountingType.name) ==> categories[i] == "")
  {
    if positions == [] then []
    else [CategoryName(positions[0])] + GetCategories(positions[1..])
  }

  /** Categories of concatenated position lists are the concatenated categories. */
  lemma {:induction false} GetCategoriesAppend(xs: seq<Position>, ys: seq<Position>)
    ensures GetCategories(xs + ys) == GetCategories(xs) + GetCategories(ys)
  {
    if xs != [] {
      assert (xs + ys)[1..] == xs[1..] + ys;
      GetCategoriesAppend(xs[1..], ys);
    } else {
      assert xs + ys == ys;
    }
  }

  // ---------------------------------------------------------------------------
  // deleteAllFilesInDirectory

  datatype EntryKind = RegularFile | Subdirectory | OtherEntry

  /** One entry of a directory listing read with `withFileTypes`. */
  datatype DirEntry = DirEntry(name: string, kind: EntryKind)

  /** `name.startsWith(".")`. */
  predicate Hidden(name: string)
  {
    |name| > 0 && name[0] == '.'
  }

  /** An entry the deletion removes: a regular file whose name does not start with a dot. */
  predicate Deletable(e: DirEntry)
  {
    e.kind == RegularFile && !Hidden(e.name)
  }

  /** The names of the deletable entries, in listing order. */
  function FilesToDelete(entries: seq<DirEntry>): (names: seq<string>)
    ensures |names| <= |entries|
    ensures forall n :: n in names <==> exists i :: 0 <= i < |entries| && Deletable(entries[i]) && entries[i].name == n
  {
    if entries == [] then []
    else
      var rest := FilesToDelete(entries[1..]);
      assert forall i :: 1 <= i < |entries| ==> entries[i] == entries[1..][i - 1];
      if Deletable(entries[0]) then [entries[0].name] + rest else rest
  }

  /** The listing after the entries with the given names have been unlinked. */
  function RemoveNames(entries: seq<DirEntry>, gone: set<string>): seq<DirEntry>
  {
    if entries == [] then []
    else (if entries[0].name in gone then [] else [entries[0]]) + RemoveNames(entries[1..], gone)
  }

  /** An entry survives unlinking exactly when its name was not unlinked. */
  lemma {:induction false} RemoveNamesKeeps(entries: seq<DirEntry>, gone: set<string>, e: DirEntry)
    ensures e in RemoveNames(entries, gone) <==> e in entries && e.name !in gone
  {
    if entries != [] {
      RemoveNamesKeeps(entries[1..], gone, e);
      assert e in entries <==> e == entries[0] || e in entries[1..];
    }
  }

  lemma {:induction false} RemoveNamesTwice(entries: seq<DirEntry>, a: set<string>, b: set<string>)
    ensures RemoveNames(RemoveNames(entries, a), b) == RemoveNames(entries, a + b)
  {
    if entries != [] {
      RemoveNamesTwice(entries[1..], a, b);
      var r := RemoveNames(entries, a);
      if entries[0].name !in a {
        assert r == [entries[0]] + RemoveNames(entries[1..], a);
        assert r[0] == entries[0] && r[1..] == RemoveNames(entries[1..], a);
        assert RemoveNames(r, b) == (if entries[0].name in b then [] else [entries[0]]) + RemoveNames(r[1..], b);
      } else {
        assert r == RemoveNames(entries[1..], a);
      }
    }
  }

  predicate DistinctNames(entries: seq<DirEntry>)
  {
    forall i, j :: 0 <= i < j < |entries| ==> entries[i].name != entries[j].name
  }

  /** The names whose unlink succeeds, out of the selected ones. */
  function Unlinked(files: seq<string>, unlinkFails: set<string>): set<string>
  {
    set n | n in files && n !in unlinkFails
  }

  /** Deleting spares everything else: in a directory (whose names are distinct) every
      directory, hidden file and other entry is still there afterwards, nothing new
      appears, and a non-hidden regular file remains only if its unlink failed. */
  lemma DeletionSparesOthers(entries: seq<DirEntry>, unlinkFails: set<string>)
    requires DistinctNames(entries)
    ensures var after := RemoveNames(entries, Unlinked(FilesToDelete(entries), unlinkFails));
      (forall e :: e in entries && !Deletable(e) ==> e in after)
      && (forall e :: e in after ==> e in entries)
      && (forall e :: e in after && Deletable(e) ==> e.name in unlinkFails)
  {
    var gone := Unlinked(FilesToDelete(entries), unlinkFails);
    var after := RemoveNames(entries, gone);
    forall e | e in entries && !Deletable(e)
      ensures e in after
    {
      RemoveNamesKeeps(entries, gone, e);
      var k :| 0 <= k < |entries| && entries[k] == e;
      forall i | 0 <= i < |entries| && Deletable(entries[i])
        ensures entries[i].name != e.name
      {
        assert i != k;
      }
    }
    forall e | e in after
      ensures e in entries
      ensures Deletable(e) ==> e.name in unlinkFails
    {
      RemoveNamesKeeps(entries, gone, e);
      if Deletable(e) {
        var k :| 0 <= k < |entries| && entries[k] == e;
        assert e.name in FilesToDelete(entries);
      }
    }
  }

  /** The directory the export writes into, as the file-system provider shows it. */
  class Directory {
    var entries: seq<DirEntry>

    constructor (entries: seq<DirEntry>)
      ensures this.entries == entries
    {
      this.entries := entries;
    }

    /** `deleteAllFilesInDirectory`: lists the directory, then unlinks every non-hidden
        regular file. Every unlink is issued even after one fails; the answer is `true`
        only if the listing and every unlink succeed, and no failure escapes as an error.
        `listingFails` and `unlinkFails` stand for the provider's errors. A directory
        lists each name once. */
    method DeleteAllFiles(listingFails: bool, unlinkFails: set<string>) returns (ok: bool)
      requires DistinctNames(entries)
      modifies this
      ensures ok <==> !listingFails && forall n :: n in FilesToDelete(old(entries)) ==> n !in unlinkFails
      ensures entries == if listingFails then old(entries)
                         else RemoveNames(old(entries), Unlinked(FilesToDelete(old(entries)), unlinkFails))
    {
      if listingFails {
        return false;
      }
      var files := FilesToDelete(entries);
      ghost var listed := entries;
      ok := true;
      assert Unlinked(files[..0], unlinkFails) == {};
      assert RemoveNames(listed, {}) == listed by {
        RemoveNamesNone(listed);
      }
      for i := 0 to |files|
        invariant ok <==> forall j :: 0 <= j < i ==> files[j] !in unlinkFails
        invariant entries == RemoveNames(listed, Unlinked(files[..i], unlinkFails))
      {
        assert files[..i + 1] == files[..i] + [files[i]];
        if files[i] in unlinkFails {
          ok := false;
          assert Unlinked(files[..i + 1], unlinkFails) == Unlinked(files[..i], unlinkFails);
        } else {
          RemoveNamesTwice(listed, Unlinked(files[..i], unlinkFails), {files[i]});
          entries := RemoveNames(entries, {files[i]});
          assert Unlinked(files[..i + 1], unlinkFails) == Unlinked(files[..i], unlinkFails) + {files[i]};
        }
      }
      assert files[..|files|] == files;
    }
  }

  lemma {:induction false} RemoveNamesNone(entries: seq<DirEntry>)
    ensures RemoveNames(entries, {}) == entries
  {
    if entries != [] {
      RemoveNamesNone(entries[1..]);
    }
  }
}
