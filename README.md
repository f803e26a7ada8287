# Folder of XML files to one spreadsheet: a Dafny model

The Python script `read_fields_from_xml_file_and_dump_to_excel.py` turns a
directory of metadata files into one spreadsheet. A *field mapping* (an
ordered dict from output column name to a locator) says what to extract:
for XML files the locator is an XPath expression handed to `root.find`, for
key-value `.met` files it is a literal key. Each processed file gives one
*record* (column name to text or `None`); the records are collected in
directory-listing order and written as one table whose columns are the
union of both mappings' columns, XML columns first.

This project models the logic inside that glue and proves what it does:

- `Text` — the string operations the script uses: `str.strip()` (as
  `Strip`, built from `StripLeading` and `StripTrailing`), `str.lower()`,
  `str.endswith()`, and `IndexOf`, the first-occurrence search that serves
  both the membership test `':' in line` (its `None` case) and the split at
  the first colon, `line.split(':', 1)`.
- `Fields` — field mappings as sequences of `(column, locator)` pairs whose
  columns never repeat (the key invariant of a dict), records as maps, and
  `Project`, the projection of a mapping through a lookup that both
  extractors perform.
- `MetExtractor` — `extract_from_met`: a line is used only if it contains a
  colon; it is split at the first colon, key and value are stripped, and the
  table is overwritten entry by entry (`ReadTable`, specified by `TableOf`);
  the record maps each column to the table's value for its key or `None`.
  A read failure (`IOError`) gives `None`.
- `XmlExtractor` — `extract_from_xml`: parsing is abstract. A file is a
  `Document` seen only through an uninterpreted `find` from path to
  element, an `ET.ParseError` (caught: no record) or an `OSError` (not caught
  by the script: it escapes). The loop that fills `record` is
  `ExtractFromXml`.
- `ColumnUnion` — `list(dict.fromkeys(xml_keys + met_keys))` as `FromKeys`.
- `FolderProcessor` — `process_folder`: the listing is a sequence of
  entries (name plus what `ET.parse` does with that file); only names whose
  lower-cased form ends in `.xml` are extracted; a record is appended only
  when it is a non-empty dict; the run ends in an export with the computed
  columns, the "no valid data" warning, or an escaping `OSError`.
  `ProcessFolder` is the loop, specified by `RunOf`; what the records are
  meant to be is stated independently of the loop as `NonEmptyExtractions`.

Four behaviours of the code are easy to miss; the model follows the code as
written:

- The `.met` branch of the dispatch (lines 88-90) is commented out, so
  `.met` files never produce a record, although the `.met` mapping's columns
  still appear in the exported header. `ExtractFromMet` is modelled as a
  standalone operation that `ProcessFolder` does not call.
- `extract_from_xml` catches only `ET.ParseError`. An `OSError` from
  `ET.parse` (an unreadable file, or a directory whose name ends in `.xml`)
  is not caught anywhere, so it ends the whole run with no export. The model
  has this as `XmlSource.OsError` and `Run.Crashed`. A `SyntaxError` from
  `root.find` on a malformed path (an absolute one such as `/r/details/name`)
  would escape the same way; the model's `find` is total and cannot raise,
  so that path is not modelled.
- `if record:` drops an empty dict as well as `None`, so with an empty XML
  mapping no spreadsheet is ever written.
- `element.text` is itself `None` for an element without text, so a matched
  element can still give `None`.

## Model

| member | source | states |
|---|---|---|
| `Text.StripLeading` | read_fields_from_xml_file_and_dump_to_excel.py:52 | the result is a suffix of the input, everything cut off is whitespace, and it does not start with whitespace |
| `Text.StripTrailing` | read_fields_from_xml_file_and_dump_to_excel.py:52 | the result is a prefix of the input, everything cut off is whitespace, and it does not end with whitespace |
| `Text.StripPadded` | read_fields_from_xml_file_and_dump_to_excel.py:52 | stripping any whitespace padding around a trimmed string gives back exactly that string |
| `Text.StripIdempotent` | read_fields_from_xml_file_and_dump_to_excel.py:52 | stripping twice is the same as stripping once |
| `Text.Strip` | read_fields_from_xml_file_and_dump_to_excel.py:52 | the result has no whitespace at either end and is no longer than the input |
| `Text.IndexOf` | read_fields_from_xml_file_and_dump_to_excel.py:50-51 | `None` exactly when the character does not occur; otherwise the index of its first occurrence |
| `Text.Lower` | read_fields_from_xml_file_and_dump_to_excel.py:84 | same length as the input; every ASCII upper-case letter becomes the lower-case letter at the same place in the alphabet, and every other character is kept |
| `MetExtractor.SplitAtFirstColon` | read_fields_from_xml_file_and_dump_to_excel.py:50-51 | `None` exactly for a line without a colon; otherwise key, colon and value rebuild the line and the key holds no colon |
| `MetExtractor.SplitJoin` | read_fields_from_xml_file_and_dump_to_excel.py:51 | splitting `key:value` with a colon-free key gives back that key and value, whatever colons the value holds |
| `MetExtractor.ParseLine` | read_fields_from_xml_file_and_dump_to_excel.py:50-52 | a line contributes an entry iff it holds a colon, and the entry's key and value have no whitespace at either end |
| `MetExtractor.ReadTable` | read_fields_from_xml_file_and_dump_to_excel.py:48-52 | the loop's table equals the table built by absorbing the lines in order |
| `MetExtractor.TableTrimmed` | read_fields_from_xml_file_and_dump_to_excel.py:52 | every stored key and value has no whitespace at either end, so no value keeps the line's newline |
| `MetExtractor.LineWithoutColon` | read_fields_from_xml_file_and_dump_to_excel.py:50 | a line without a colon leaves the table unchanged |
| `MetExtractor.LineWithColon` | read_fields_from_xml_file_and_dump_to_excel.py:49-52 | a line `key:value` sets the stripped key to the stripped value and leaves every other key as it was |
| `MetExtractor.BuildLastWins` | read_fields_from_xml_file_and_dump_to_excel.py:49-52 | overwriting entries in order: a key is present iff some entry sets it, and it holds the value of the last such entry |
| `MetExtractor.LastWins` | read_fields_from_xml_file_and_dump_to_excel.py:49-52 | a key is in the table iff some line defines it, and its value comes from the last line defining it |
| `MetExtractor.MetRecord` | read_fields_from_xml_file_and_dump_to_excel.py:54-57 | the record has exactly the mapping's columns, each holding the table's value for its key or `None` |
| `MetExtractor.ExtractFromMet` | read_fields_from_xml_file_and_dump_to_excel.py:44-63 | the result is `None` on a read failure and otherwise the mapping projected through the lines' table |
| `MetExtractor.MetRecordFields` | read_fields_from_xml_file_and_dump_to_excel.py:54-57 | the record's keys are exactly the mapping's columns; a column is `None` iff no line defines its key, else it holds the last defining line's value |
| `Fields.ProjectShape` | read_fields_from_xml_file_and_dump_to_excel.py:54-57 | a projected record has exactly the mapping's columns, each holding the lookup of its own locator |
| `Fields.ProjectPrefix` | read_fields_from_xml_file_and_dump_to_excel.py:22-24 | projecting one more mapping entry adds that entry's column with its lookup and leaves every other column as it was |
| `Fields.ProjectEmpty` | read_fields_from_xml_file_and_dump_to_excel.py:92 | a projected record is the empty dict iff the mapping is empty |
| `XmlExtractor.ExtractFromXml` | read_fields_from_xml_file_and_dump_to_excel.py:17-30 | the record-filling loop computes exactly the extraction outcome of the file |
| `XmlExtractor.XmlExtraction` | read_fields_from_xml_file_and_dump_to_excel.py:17-30 | a record iff the file parsed, no record iff it raised `ET.ParseError`, and an escaping error iff it raised `OSError`, with that error's message |
| `XmlExtractor.XmlOutcomeShape` | read_fields_from_xml_file_and_dump_to_excel.py:20-30 | a record iff the file parsed, no record iff it raised a parse error; the record has exactly the mapping's columns, each the found element's text or `None` |
| `XmlExtractor.XmlRecordEmpty` | read_fields_from_xml_file_and_dump_to_excel.py:92 | a parsed record is empty iff the XML mapping is empty |
| `ColumnUnion.FromKeys` | read_fields_from_xml_file_and_dump_to_excel.py:96 | the result holds exactly the elements of the input |
| `ColumnUnion.FromKeysDistinct` | read_fields_from_xml_file_and_dump_to_excel.py:96 | no element occurs twice in the result |
| `ColumnUnion.FromKeysOfDistinct` | read_fields_from_xml_file_and_dump_to_excel.py:96 | a list without duplicates is returned unchanged |
| `ColumnUnion.FromKeysAfter` | read_fields_from_xml_file_and_dump_to_excel.py:96 | after a duplicate-free prefix, the prefix is kept as is and only the new elements of the rest follow, first occurrences first |
| `ColumnUnion.UnseenDistinct` | read_fields_from_xml_file_and_dump_to_excel.py:96 | the new elements of a duplicate-free list are duplicate-free |
| `ColumnUnion.AllColumns` | read_fields_from_xml_file_and_dump_to_excel.py:96 | no column occurs twice, and a column is present iff it is a column of the XML or of the `.met` mapping |
| `ColumnUnion.AllColumnsLayout` | read_fields_from_xml_file_and_dump_to_excel.py:96 | the columns are the XML columns in order followed by the `.met` columns not already present, each column of either mapping exactly once |
| `ColumnUnion.AllColumnsSubsumed` | read_fields_from_xml_file_and_dump_to_excel.py:96 | when every `.met` column is an XML column, the columns are the XML columns |
| `FolderProcessor.IsXmlName` | read_fields_from_xml_file_and_dump_to_excel.py:84 | a name passing the suffix test has at least four characters, the fourth from the end a dot |
| `FolderProcessor.IsXmlNameSpelled` | read_fields_from_xml_file_and_dump_to_excel.py:84 | a name passes the suffix test iff it ends in a dot followed by x, m, l, each in either case |
| `FolderProcessor.MetNameNotExtracted` | read_fields_from_xml_file_and_dump_to_excel.py:84-90 | a name ending in `.met` (any case) is never extracted |
| `FolderProcessor.Step` | read_fields_from_xml_file_and_dump_to_excel.py:80-93 | an ended scan stays ended; a name failing the suffix test changes nothing; for an `.xml` entry, a parsed file's record is appended after the earlier ones exactly when it is non-empty, a parse error changes nothing, and an `OSError` ends the scan with the entry's name and the error's message |
| `FolderProcessor.ScanFolder` | read_fields_from_xml_file_and_dump_to_excel.py:80-93 | unless an `OSError` ended it, the scan has collected exactly `NonEmptyExtractions`: the non-empty record of every parsed `.xml` entry, in listing order |
| `FolderProcessor.RunOf` | read_fields_from_xml_file_and_dump_to_excel.py:92-101 | an export's rows are exactly the non-empty records of the parsed `.xml` entries in listing order, at least one, under the column union; the warning only when there is no such record; a crash iff the scan ended, with that entry's name and message |
| `FolderProcessor.ProcessFolder` | read_fields_from_xml_file_and_dump_to_excel.py:77-101 | the loop ends as `RunOf` says, so an export holds every non-empty record of the `.xml` entries in listing order under the column union, the warning comes when there is none, and the first escaping `OSError` ends the run |
| `FolderProcessor.AbortIsFinal` | read_fields_from_xml_file_and_dump_to_excel.py:80-86 | once an `OSError` escapes, the remaining entries do not change the outcome |
| `FolderProcessor.AbortedAtOsError` | read_fields_from_xml_file_and_dump_to_excel.py:80-86 | a scan that ended did so at an `.xml` entry of the listing that raised `OSError`, with that entry's name and message |
| `FolderProcessor.AbortingEntry` | read_fields_from_xml_file_and_dump_to_excel.py:80-86 | the index of the `.xml` entry that ended a scan: it raised `OSError`, and the scan reports its name and message |
| `FolderProcessor.OsErrorAborts` | read_fields_from_xml_file_and_dump_to_excel.py:80-86 | an `.xml` entry whose parse raises `OSError` always ends the scan, so the run crashes exactly when some `.xml` entry raises `OSError` |
| `FolderProcessor.ScanAppend` | read_fields_from_xml_file_and_dump_to_excel.py:80-93 | scanning two parts of a listing one after the other: records of the first part precede those of the second |
| `FolderProcessor.OnlyXmlNamesCount` | read_fields_from_xml_file_and_dump_to_excel.py:84-90 | dropping every entry whose name fails the suffix test does not change the scan |
| `FolderProcessor.RecordsComeFromXmlEntries` | read_fields_from_xml_file_and_dump_to_excel.py:92-93 | every collected record is non-empty, has the XML mapping's columns and is the extraction of some `.xml` entry; there are at most as many records as `.xml` entries |
| `FolderProcessor.ExtractionsFromXmlEntries` | read_fields_from_xml_file_and_dump_to_excel.py:84-93 | every intended record is non-empty, has exactly the XML mapping's columns and is the extraction of some `.xml` entry; there are no more of them than `.xml` entries |
| `FolderProcessor.ExtractionsComplete` | read_fields_from_xml_file_and_dump_to_excel.py:84-93 | the non-empty record of every parsed `.xml` entry is among the intended records: `if record:` keeps every truthy record |
| `FolderProcessor.ExportedRowsFit` | read_fields_from_xml_file_and_dump_to_excel.py:95-101 | export happens iff some record was collected, the warning iff none was; the export uses the column union and every row's keys are among its columns |
| `FolderProcessor.EmptyXmlMappingNeverExports` | read_fields_from_xml_file_and_dump_to_excel.py:92-101 | with an empty XML mapping no record survives `if record:` and nothing is exported |

## Left out

- XML parsing and path evaluation (`ET.parse`, `root.find`): a parsed document is an uninterpreted `find` from path to element; well-formedness and XPath are not modelled, and neither is the `SyntaxError` `root.find` raises on a malformed path, which would escape `process_folder` like an `OSError`.
- Directory listing and path joining (`os.listdir`, `os.path.join`): the listing is an arbitrary sequence of entries, in whatever order the filesystem gave; a failure of the listing itself (a missing folder) is not modelled.
- File reading (`open`, `readlines`): a `.met` file is its sequence of lines, or an `IOError`. A decoding error while reading, which is not an `IOError`, is not modelled.
- Spreadsheet writing (`pd.DataFrame`, `to_excel`): the export is recorded as the column list and the rows it would be called with; spreadsheet layout and pandas' row shaping are not modelled.
- The console messages (`print`): observability only.
- The `__main__` block with its fixed mappings and paths: configuration, not logic.
- Text.Strip: strips the ASCII part of Python's whitespace set (tab, line feed, vertical tab, form feed, carriage return, 0x1C-0x1F, space) only, not the other Unicode spaces.
- Text.Lower: lower-cases ASCII letters only, not the full Unicode case mapping of `str.lower`.
- Record key order: a record is a map, so the insertion order of its keys is not kept; the export selects columns by the column list, so that order does not reach the output.
