/**
 * `extract_from_xml`: parse one XML file and project a field mapping of
 * XPath expressions through `root.find`. Parsing and path evaluation belong
 * to the XML library; here a parsed document is nothing but its `find`.
 */
module XmlExtractor {
  import opened Wrappers
  import opened Fields

  /** A matched element; `text` is `None` for an element without text. */
  datatype Element = Element(text: Option<string>)

  /** What `ET.parse` does with one file: it yields a document (seen through
      `root.find`), raises `ET.ParseError` on malformed content, or raises an
      `OSError` (missing file, a directory, no permission). */
  datatype XmlSource =
    | Document(find: string -> Option<Element>)
    | ParseError(message: string)
    | OsError(message: string)

  /** What a call of `extract_from_xml` comes to: a record, `None` after an
      `ET.ParseError` it caught, or the `OSError` it lets through to its caller. */
  datatype XmlOutcome = Extracted(record: Record) | NoRecord | Raised(message: string)

  /** `element.text if element is not None else None`. */
  function FieldText(find: string -> Option<Element>, path: string): Option<string> {
    match find(path)
    case None => None
    case Some(e) => e.text
  }

  function XmlRecord(find: string -> Option<Element>, m: FieldMapping): Record {
    Project(m, path => FieldText(find, path))
  }

  /** A parsed file gives a record, a parse error gives none, and an
      `OSError` escapes with its message. */
  function XmlExtraction(src: XmlSource, m: FieldMapping): (r: XmlOutcome)
    ensures r.Extracted? <==> src.Document?
    ensures r.NoRecord? <==> src.ParseError?
    ensures r.Raised? <==> src.OsError?
    ensures r.Raised? ==> r.message == src.message
  {
    match src
    case Document(find) => Extracted(XmlRecord(find, m))
    case ParseError(_) => NoRecord
    case OsError(message) => Raised(message)
  }

  /** The `for column_name, xml_path` loop fills `record` one column at a time. */
  method ExtractFromXml(src: XmlSource, m: FieldMapping) returns (r: XmlOutcome)
    ensures r == XmlExtraction(src, m)
  {
    match src
    case ParseError(_) =>
      r := NoRecord;
    case OsError(message) =>
      r := Raised(message);
    case Document(find) =>
      var record: Record := map[];
      var i := 0;
      while i < |m|
        invariant 0 <= i <= |m|
        invariant record == XmlRecord(find, m[..i])
      {
        var (column, path) := m[i];
        var element := find(path);
        ProjectPrefix(m, i, path => FieldText(find, path));
        record := record[column := if element.Some? then element.value.text else None];
        i := i + 1;
      }
      assert m[..|m|] == m;
      r := Extracted(record);
  }

  /** For a parsed document the record has exactly the mapping's columns, and
      each column holds the text of the element its path finds, or `None`
      when no element matches or the element has no text. A parse error
      gives no record, and an `OSError` propagates. */
  lemma XmlOutcomeShape(src: XmlSource, m: FieldMapping)
    ensures XmlExtraction(src, m).Extracted? <==> src.Document?
    ensures XmlExtraction(src, m).NoRecord? <==> src.ParseError?
    ensures src.Document? ==>
      var rec := XmlExtraction(src, m).record;
      && rec.Keys == set c | c in Keys(m)
      && forall i :: 0 <= i < |m| ==>
           rec[m[i].0] == (if src.find(m[i].1).Some? then src.find(m[i].1).value.text else None)
  {
    if src.Document? {
      ProjectShape(m, path => FieldText(src.find, path));
    }
  }

  /** A parsed record is empty, and so dropped by `if record:`, exactly
      when the mapping is empty. */
  lemma XmlRecordEmpty(find: string -> Option<Element>, m: FieldMapping)
    ensures XmlRecord(find, m) == map[] <==> |m| == 0
  {
    ProjectEmpty(m, path => FieldText(find, path));
  }
}
