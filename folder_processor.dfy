/**
 * `process_folder`: walk the directory listing, send every `.xml` name to
 * the XML extractor, keep the non-empty records in listing order, and
 * export them under the union of both mappings' columns, or warn when
 * there is nothing to export.
 */
module FolderProcessor {
  import opened Text
  import opened Fields
  import opened XmlExtractor
  import opened ColumnUnion

  /** `filename.lower().endswith(".xml")`: a passing name has at least four
      characters and a dot in the fourth place from the end. */
  predicate IsXmlName(name: string): (b: bool)
    ensures b ==> |name| >= 4 && name[|name| - 4] == '.'
  {
    EndsWith(Lower(name), ".xml")
  }

  /** The suffix test in terms of the name itself: its last four characters
      are a dot and the letters x, m, l in either case. */
  lemma IsXmlNameSpelled(name: string)
    ensures IsXmlName(name) <==>
      && |name| >= 4
      && name[|name| - 4] == '.'
      && name[|name| - 3] in "xX"
      && name[|name| - 2] in "mM"
      && name[|name| - 1] in "lL"
  {
    var low := Lower(name);
    if |name| >= 4 {
      var n := |name|;
      assert low[n - 4..] == [low[n - 4], low[n - 3], low[n - 2], low[n - 1]];
      assert ".xml" == ['.', 'x', 'm', 'l'];
      assert low[n - 4] == LowerChar(name[n - 4]) && low[n - 3] == LowerChar(name[n - 3]);
      assert low[n - 2] == LowerChar(name[n - 2]) && low[n - 1] == LowerChar(name[n - 1]);
    }
  }

  /** The `.met` branch is commented out, so `.met` names are never extracted. */
  lemma MetNameNotExtracted(name: string)
    requires EndsWith(Lower(name), ".met")
    ensures !IsXmlName(name)
  {
    var low := Lower(name);
    assert low[|low| - 3] == 'm';
  }

  /** One directory entry: its name and what `ET.parse` does with the file. */
  datatype DirEntry = DirEntry(name: string, xml: XmlSource)

  /** The state of `all_records` after some entries, or the `OSError` that
      ended the scan. */
  datatype Scan = Scanned(records: seq<Record>) | Aborted(name: string, message: string)

  /** The body of the `for filename in os.listdir` loop, for one entry: an
      ended scan stays ended and a name failing the suffix test changes
      nothing; for an `.xml` entry, a parsed file's record is appended exactly
      when it is non-empty, a parse error changes nothing, and an `OSError`
      ends the scan with the entry's name and the error's message. */
  function Step(s: Scan, e: DirEntry, m: FieldMapping): (r: Scan)
    ensures s.Aborted? ==> r == s
    ensures !IsXmlName(e.name) ==> r == s
    ensures s.Scanned? && IsXmlName(e.name) && e.xml.Document? ==>
      var record := XmlRecord(e.xml.find, m);
      r == if record != map[] then Scanned(s.records + [record]) else s
    ensures s.Scanned? && IsXmlName(e.name) && e.xml.ParseError? ==> r == s
    ensures s.Scanned? && IsXmlName(e.name) && e.xml.OsError? ==> r == Aborted(e.name, e.xml.message)
  {
    match s
    case Aborted(_, _) => s
    case Scanned(records) =>
      if !IsXmlName(e.name) then s
      else match XmlExtraction(e.xml, m)
        case Raised(message) => Aborted(e.name, message)
        case NoRecord => s
        case Extracted(record) => if record != map[] then Scanned(records + [record]) else s
  }

  /** What `all_records` is meant to hold after the listing: the record of
      every `.xml` entry whose file parsed to a non-empty record, in listing
      order. */
  function NonEmptyExtractions(entries: seq<DirEntry>, m: FieldMapping): seq<Record> {
    if entries == [] then []
    else
      var e := entries[|entries| - 1];
      var earlier := NonEmptyExtractions(entries[..|entries| - 1], m);
      if ParsesNonEmpty(e, m) then earlier + [XmlRecord(e.xml.find, m)] else earlier
  }

  /** An `.xml` entry whose file parsed to a non-empty record. */
  predicate ParsesNonEmpty(e: DirEntry, m: FieldMapping) {
    IsXmlName(e.name) && e.xml.Document? && XmlRecord(e.xml.find, m) != map[]
  }

  /** The loop over the whole listing: unless an `OSError` ended it, it has
      collected exactly the non-empty records of the `.xml` entries, in
      listing order. */
  function ScanFolder(entries: seq<DirEntry>, m: FieldMapping): (r: Scan)
    ensures r.Scanned? ==> r.records == NonEmptyExtractions(entries, m)
  {
    if entries == [] then Scanned([])
    else Step(ScanFolder(entries[..|entries| - 1], m), entries[|entries| - 1], m)
  }

  /** How a run ends: a spreadsheet written with these columns and rows, the
      "no valid data" warning, or the `OSError` escaping `process_folder`. */
  datatype Run = Exported(columns: seq<string>, rows: seq<Record>) | NoData | Crashed(name: string, message: string)

  /** A run ends in an export of at least one row under the column union,
      in the warning, or in the escaping error, as the scan decides. */
  function RunOf(entries: seq<DirEntry>, xml: FieldMapping, met: FieldMapping): (r: Run)
    ensures r.Exported? ==> r.rows != [] && r.columns == AllColumns(xml, met)
    ensures r.Exported? ==> r.rows == NonEmptyExtractions(entries, xml)
    ensures r.NoData? ==> NonEmptyExtractions(entries, xml) == []
    ensures r.Crashed? <==> ScanFolder(entries, xml).Aborted?
    ensures r.Crashed? ==>
      r.name == ScanFolder(entries, xml).name && r.message == ScanFolder(entries, xml).message
  {
    match ScanFolder(entries, xml)
    case Aborted(name, message) => Crashed(name, message)
    case Scanned(records) =>
      if records != [] then Exported(AllColumns(xml, met), records) else NoData
  }

  /** Once an `OSError` has escaped, later entries are never looked at. */
  lemma {:induction false} AbortIsFinal(entries: seq<DirEntry>, k: nat, m: FieldMapping)
    requires k <= |entries| && ScanFolder(entries[..k], m).Aborted?
    ensures ScanFolder(entries, m) == ScanFolder(entries[..k], m)
    decreases |entries| - k
  {
    if k < |entries| {
      assert entries[..k + 1][..k] == entries[..k];
      AbortIsFinal(entries, k + 1, m);
    } else {
      assert entries[..k] == entries;
    }
  }

  method ProcessFolder(entries: seq<DirEntry>, xml: FieldMapping, met: FieldMapping) returns (run: Run)
    ensures run == RunOf(entries, xml, met)
  {
    var allRecords: seq<Record> := [];
    var i := 0;
    while i < |entries|
      invariant 0 <= i <= |entries|
      invariant ScanFolder(entries[..i], xml) == Scanned(allRecords)
    {
      var entry := entries[i];
      assert entries[..i + 1][..i] == entries[..i];
      var record: XmlOutcome := NoRecord;
      if IsXmlName(entry.name) {
        record := ExtractFromXml(entry.xml, xml);
      }
      match record {
        case Raised(message) =>
          AbortIsFinal(entries, i + 1, xml);
          return Crashed(entry.name, message);
        case NoRecord =>
        case Extracted(r) =>
          if r != map[] {
            allRecords := allRecords + [r];
          }
      }
      i := i + 1;
    }
    assert entries[..|entries|] == entries;
    if allRecords != [] {
      run := Exported(AllColumns(xml, met), allRecords);
    } else {
      run := NoData;
    }
  }

  /** A scan that ended did so at an `.xml` entry of the listing whose parse
      raised `OSError`, and reports that entry's name and message. */
  lemma AbortedAtOsError(entries: seq<DirEntry>, m: FieldMapping)
    ensures ScanFolder(entries, m).Aborted? ==>
      exists i :: && 0 <= i < |entries| && IsXmlName(entries[i].name)
                  && entries[i].name == ScanFolder(entries, m).name
                  && entries[i].xml.OsError? && entries[i].xml.message == ScanFolder(entries, m).message
  {
    if ScanFolder(entries, m).Aborted? {
      var i := AbortingEntry(entries, m);
    }
  }

  /** The index of the entry that ended a scan. */
  lemma {:induction false} AbortingEntry(entries: seq<DirEntry>, m: FieldMapping) returns (i: nat)
    requires ScanFolder(entries, m).Aborted?
    ensures i < |entries| && IsXmlName(entries[i].name) && entries[i].xml.OsError?
    ensures entries[i].name == ScanFolder(entries, m).name
    ensures entries[i].xml.message == ScanFolder(entries, m).message
  {
    assert entries != [];
    var n := |entries| - 1;
    if ScanFolder(entries[..n], m).Aborted? {
      i := AbortingEntry(entries[..n], m);
      assert entries[i] == entries[..n][i];
    } else {
      i := n;
    }
  }

  /** An `.xml` entry whose parse raises `OSError` always ends the scan:
      together with `AbortedAtOsError`, the run crashes exactly when some
      `.xml` entry raises `OSError`. */
  lemma OsErrorAborts(entries: seq<DirEntry>, i: nat, m: FieldMapping)
    requires i < |entries| && IsXmlName(entries[i].name) && entries[i].xml.OsError?
    ensures ScanFolder(entries, m).Aborted?
  {
    assert entries[..i + 1][..i] == entries[..i];
    assert ScanFolder(entries[..i + 1], m).Aborted?;
    AbortIsFinal(entries, i + 1, m);
  }

  /** Scanning one part of the listing after another. */
  function Then(first: Scan, second: Scan): Scan {
    match first
    case Aborted(_, _) => first
    case Scanned(records) =>
      match second
      case Aborted(_, _) => second
      case Scanned(more) => Scanned(records + more)
  }

  /** Records keep listing order: those of earlier entries come before those
      of later ones, and the first escaping error ends the scan. */
  lemma {:induction false} ScanAppend(a: seq<DirEntry>, b: seq<DirEntry>, m: FieldMapping)
    ensures ScanFolder(a + b, m) == Then(ScanFolder(a, m), ScanFolder(b, m))
  {
    if b == [] {
      assert a + b == a;
    } else {
      var n := |b| - 1;
      ScanAppend(a, b[..n], m);
      assert (a + b)[..|a + b| - 1] == a + b[..n];
      assert (a + b)[|a + b| - 1] == b[n];
      StepThen(ScanFolder(a, m), ScanFolder(b[..n], m), b[n], m);
    }
  }

  /** One more entry after two parts of the listing extends the second part. */
  lemma StepThen(first: Scan, second: Scan, e: DirEntry, m: FieldMapping)
    ensures Step(Then(first, second), e, m) == Then(first, Step(second, e, m))
  {
    if first.Scanned? && second.Scanned? && XmlExtraction(e.xml, m).Extracted? {
      assert (first.records + second.records) + [XmlExtraction(e.xml, m).record]
          == first.records + (second.records + [XmlExtraction(e.xml, m).record]);
    }
  }

  /** The entries whose names pass the suffix test, in listing order. */
  function XmlEntries(entries: seq<DirEntry>): (r: seq<DirEntry>)
    ensures |r| <= |entries|
    ensures forall i :: 0 <= i < |r| ==> IsXmlName(r[i].name)
  {
    if entries == [] then []
    else
      var rest := XmlEntries(entries[..|entries| - 1]);
      if IsXmlName(entries[|entries| - 1].name) then rest + [entries[|entries| - 1]] else rest
  }

  /** Entries whose names fail the suffix test, `.met` files among them,
      change nothing: the scan sees only the `.xml` entries. */
  lemma {:induction false} OnlyXmlNamesCount(entries: seq<DirEntry>, m: FieldMapping)
    ensures ScanFolder(entries, m) == ScanFolder(XmlEntries(entries), m)
  {
    if entries != [] {
      var n := |entries| - 1;
      var last := entries[n];
      OnlyXmlNamesCount(entries[..n], m);
      var rest := XmlEntries(entries[..n]);
      if IsXmlName(last.name) {
        assert (rest + [last])[..|rest|] == rest;
      }
    }
  }

  /** `record` is what the extractor made of some `.xml` entry of the listing. */
  ghost predicate FromXmlEntry(entries: seq<DirEntry>, m: FieldMapping, record: Record) {
    exists i :: 0 <= i < |entries| && IsXmlName(entries[i].name)
                && XmlExtraction(entries[i].xml, m) == Extracted(record)
  }

  /** Every collected record is non-empty, has exactly the XML mapping's
      columns, and is what the extractor made of some `.xml` entry; there are
      at most as many records as `.xml` entries. */
  /** A record extracted from an entry of a prefix of the listing is
      extracted from an entry of the whole listing. */
  lemma FromXmlEntryPrefix(entries: seq<DirEntry>, n: nat, m: FieldMapping, record: Record)
    requires n <= |entries| && FromXmlEntry(entries[..n], m, record)
    ensures FromXmlEntry(entries, m, record)
  {
    var init := entries[..n];
    var i :| 0 <= i < n && IsXmlName(init[i].name) && XmlExtraction(init[i].xml, m) == Extracted(record);
    assert entries[i] == init[i];
  }

  lemma RecordsComeFromXmlEntries(entries: seq<DirEntry>, m: FieldMapping)
    ensures ScanFolder(entries, m).Scanned? ==>
      && |ScanFolder(entries, m).records| <= |XmlEntries(entries)|
      && forall r :: r in ScanFolder(entries, m).records ==>
           r != map[] && r.Keys == (set c | c in Keys(m)) && FromXmlEntry(entries, m, r)
  {
    ExtractionsFromXmlEntries(entries, m);
  }

  /** The intended records are non-empty, have exactly the XML mapping's
      columns, are each the extraction of some `.xml` entry, and are no more
      than the `.xml` entries. */
  lemma {:induction false} ExtractionsFromXmlEntries(entries: seq<DirEntry>, m: FieldMapping)
    ensures |NonEmptyExtractions(entries, m)| <= |XmlEntries(entries)|
    ensures forall r :: r in NonEmptyExtractions(entries, m) ==>
      r != map[] && r.Keys == (set c | c in Keys(m)) && FromXmlEntry(entries, m, r)
  {
    if entries != [] {
      var n := |entries| - 1;
      var init, last := entries[..n], entries[n];
      ExtractionsFromXmlEntries(init, m);
      var before := NonEmptyExtractions(init, m);
      assert |XmlEntries(entries)| == |XmlEntries(init)| + (if IsXmlName(last.name) then 1 else 0);
      forall r | r in before ensures FromXmlEntry(entries, m, r) {
        FromXmlEntryPrefix(entries, n, m, r);
      }
      if ParsesNonEmpty(last, m) {
        var record := XmlRecord(last.xml.find, m);
        assert NonEmptyExtractions(entries, m) == before + [record];
        XmlOutcomeShape(last.xml, m);
        assert XmlExtraction(last.xml, m) == Extracted(record);
        assert FromXmlEntry(entries, m, record);
      } else {
        assert NonEmptyExtractions(entries, m) == before;
      }
    }
  }

  /** Conversely, the non-empty record of every parsed `.xml` entry is among
      the intended records: none is dropped. */
  lemma {:induction false} ExtractionsComplete(entries: seq<DirEntry>, m: FieldMapping)
    ensures forall i :: 0 <= i < |entries| && ParsesNonEmpty(entries[i], m) ==>
              XmlRecord(entries[i].xml.find, m) in NonEmptyExtractions(entries, m)
  {
    if entries != [] {
      var n := |entries| - 1;
      var before := NonEmptyExtractions(entries[..n], m);
      ExtractionsComplete(entries[..n], m);
      assert before <= NonEmptyExtractions(entries, m);
      forall i | 0 <= i < |entries| && ParsesNonEmpty(entries[i], m)
        ensures XmlRecord(entries[i].xml.find, m) in NonEmptyExtractions(entries, m)
      {
        if i < n {
          assert entries[..n][i] == entries[i];
          assert XmlRecord(entries[i].xml.find, m) in before;
        }
      }
    }
  }

  /** A spreadsheet is written only when some record was collected; its
      columns are the union of both mappings' columns, and every row fits
      under them. */
  lemma ExportedRowsFit(entries: seq<DirEntry>, xml: FieldMapping, met: FieldMapping)
    ensures RunOf(entries, xml, met).Exported? <==>
      ScanFolder(entries, xml).Scanned? && ScanFolder(entries, xml).records != []
    ensures RunOf(entries, xml, met).NoData? <==> ScanFolder(entries, xml) == Scanned([])
    ensures RunOf(entries, xml, met).Exported? ==>
      var run := RunOf(entries, xml, met);
      && run.columns == AllColumns(xml, met)
      && forall k :: 0 <= k < |run.rows| ==> forall c :: c in run.rows[k] ==> c in run.columns
  {
    RecordsComeFromXmlEntries(entries, xml);
    AllColumnsLayout(xml, met);
  }

  /** With an empty XML mapping every parsed record is `{}` and is dropped,
      so no spreadsheet is ever written. */
  lemma {:induction false} EmptyXmlMappingNeverExports(entries: seq<DirEntry>, xml: FieldMapping, met: FieldMapping)
    requires |xml| == 0
    ensures ScanFolder(entries, xml).Scanned? ==> ScanFolder(entries, xml).records == []
    ensures !RunOf(entries, xml, met).Exported?
  {
    if entries != [] {
      var last := entries[|entries| - 1];
      EmptyXmlMappingNeverExports(entries[..|entries| - 1], xml, met);
      if last.xml.Document? {
        XmlRecordEmpty(last.xml.find, xml);
      }
    }
  }
}
