/**
 * `extract_from_met`: read a `.met` file line by line, collect its
 * `key: value` entries into a table (later lines overwrite earlier ones),
 * then project a field mapping through that table.
 */
module MetExtractor {
  import opened Wrappers
  import opened Text
  import opened Fields

  /** What opening and reading a `.met` file yields: its lines as
      `readlines()` returns them (line terminators included), or an `IOError`. */
  datatype MetFile = Lines(lines: seq<string>) | IOError(message: string)

  /** The key-to-value table the loop builds (`file_data`). */
  type Table = map<string, string>

  /** `line.split(':', 1)` for a line that contains `':'`; `None` otherwise. */
  function SplitAtFirstColon(line: string): (r: Option<(string, string)>)
    ensures r.None? <==> ':' !in line
    ensures r.Some? ==> line == r.value.0 + ":" + r.value.1 && ':' !in r.value.0
  {
    match IndexOf(line, ':')
    case None => None
    case Some(i) =>
      assert line == line[..i] + ":" + line[i + 1..];
      Some((line[..i], line[i + 1..]))
  }

  /** Splitting is the inverse of joining at a colon-free key: whatever
      follows the first colon, further colons included, is the value. */
  lemma {:induction false} SplitJoin(key: string, value: string)
    requires ':' !in key
    ensures SplitAtFirstColon(key + ":" + value) == Some((key, value))
  {
    var line := key + ":" + value;
    assert line[|key|] == ':';
    var i := IndexOf(line, ':').value;
    assert line[..i] == key;
    assert line[i + 1..] == value;
  }

  /** The entry a line contributes, key and value stripped, if any. */
  function ParseLine(line: string): (r: Option<(string, string)>)
    ensures r.None? <==> ':' !in line
    ensures r.Some? ==> Trimmed(r.value.0) && Trimmed(r.value.1)
  {
    match SplitAtFirstColon(line)
    case None => None
    case Some((k, v)) => Some((Strip(k), Strip(v)))
  }

  /** The entry each line contributes, in line order. */
  function Entries(lines: seq<string>): (es: seq<Option<(string, string)>>)
    ensures |es| == |lines|
  {
    seq(|lines|, i requires 0 <= i < |lines| => ParseLine(lines[i]))
  }

  /** Overwrite the table with one entry, if there is one. */
  function Put(t: Table, e: Option<(string, string)>): Table {
    match e
    case None => t
    case Some((k, v)) => t[k := v]
  }

  /** The table built by putting `es` in order into an empty table. */
  function Build(es: seq<Option<(string, string)>>): Table {
    if es == [] then map[] else Put(Build(es[..|es| - 1]), es[|es| - 1])
  }

  /** `file_data` once the loop has consumed `lines`. */
  function TableOf(lines: seq<string>): Table {
    Build(Entries(lines))
  }

  lemma EntriesSnoc(lines: seq<string>, line: string)
    ensures Entries(lines + [line]) == Entries(lines) + [ParseLine(line)]
    ensures TableOf(lines + [line]) == Put(TableOf(lines), ParseLine(line))
  {
    var es := Entries(lines + [line]);
    assert es == Entries(lines) + [ParseLine(line)];
    assert es[..|lines|] == Entries(lines);
  }

  /** The `for line in lines` loop: fills `file_data` in place. */
  method ReadTable(lines: seq<string>) returns (fileData: Table)
    ensures fileData == TableOf(lines)
  {
    fileData := map[];
    var i := 0;
    while i < |lines|
      invariant 0 <= i <= |lines|
      invariant fileData == TableOf(lines[..i])
    {
      var line := lines[i];
      assert lines[..i + 1] == lines[..i] + [line];
      EntriesSnoc(lines[..i], line);
      var split := SplitAtFirstColon(line);
      if split.Some? {
        var (key, value) := split.value;
        fileData := fileData[Strip(key) := Strip(value)];
      }
      i := i + 1;
    }
    assert lines[..|lines|] == lines;
  }

  /** Every stored key and value is stripped, so in particular no value
      keeps the line's trailing newline. */
  lemma {:induction false} BuildTrimmed(es: seq<Option<(string, string)>>)
    requires forall i :: 0 <= i < |es| && es[i].Some? ==> Trimmed(es[i].value.0) && Trimmed(es[i].value.1)
    ensures forall k :: k in Build(es) ==> Trimmed(k) && Trimmed(Build(es)[k])
  {
    if es != [] {
      BuildTrimmed(es[..|es| - 1]);
    }
  }

  lemma TableTrimmed(lines: seq<string>)
    ensures forall k :: k in TableOf(lines) ==> Trimmed(k) && Trimmed(TableOf(lines)[k])
  {
    BuildTrimmed(Entries(lines));
  }

  /** A line without a colon leaves the table as it was. */
  lemma LineWithoutColon(lines: seq<string>, line: string)
    requires ':' !in line
    ensures TableOf(lines + [line]) == TableOf(lines)
  {
    EntriesSnoc(lines, line);
  }

  /** A line `key:value` sets the stripped key to the stripped value, even
      when the value holds further colons, and leaves every other key as it was. */
  lemma LineWithColon(lines: seq<string>, key: string, value: string)
    requires ':' !in key
    ensures TableOf(lines + [key + ":" + value]) == TableOf(lines)[Strip(key) := Strip(value)]
  {
    EntriesSnoc(lines, key + ":" + value);
    SplitJoin(key, value);
  }

  /** Entry `e` sets key `k`. */
  predicate Sets(e: Option<(string, string)>, k: string) {
    e.Some? && e.value.0 == k
  }

  lemma {:induction false} BuildLastWins(es: seq<Option<(string, string)>>, k: string)
    ensures k in Build(es) <==> exists i :: 0 <= i < |es| && Sets(es[i], k)
    ensures k in Build(es) ==>
      exists i :: 0 <= i < |es| && es[i] == Some((k, Build(es)[k]))
                  && forall j :: i < j < |es| ==> !Sets(es[j], k)
  {
    if es == [] {
      return;
    }
    var n := |es| - 1;
    var init, last := es[..n], es[n];
    BuildLastWins(init, k);
    var before, after := Build(init), Build(es);
    if Sets(last, k) {
      assert es[n] == Some((k, after[k]));
    } else {
      assert k in after <==> k in before;
      if k in after {
        var i :| 0 <= i < n && init[i] == Some((k, before[k]))
                 && forall j :: i < j < n ==> !Sets(init[j], k);
        assert es[i] == Some((k, after[k]));
        forall j | i < j < |es| ensures !Sets(es[j], k) {
          if j < n { assert es[j] == init[j]; }
        }
      }
      if exists i :: 0 <= i < |es| && Sets(es[i], k) {
        var i :| 0 <= i < |es| && Sets(es[i], k);
        assert Sets(init[i], k);
      }
    }
    if exists i :: 0 <= i < n && Sets(init[i], k) {
      var i :| 0 <= i < n && Sets(init[i], k);
      assert Sets(es[i], k);
    }
  }

  /** `line` sets key `k` of the table. */
  predicate Defines(line: string, k: string) {
    Sets(ParseLine(line), k)
  }

  /** A key is in the table exactly when some line defines it, and then it
      holds the value given by the last line that defines it. */
  lemma LastWins(lines: seq<string>, k: string)
    ensures k in TableOf(lines) <==> exists i :: 0 <= i < |lines| && Defines(lines[i], k)
    ensures k in TableOf(lines) ==>
      exists i :: 0 <= i < |lines| && ParseLine(lines[i]) == Some((k, TableOf(lines)[k]))
                  && forall j :: i < j < |lines| ==> !Defines(lines[j], k)
  {
    var es, t := Entries(lines), TableOf(lines);
    assert t == Build(es);
    BuildLastWins(es, k);
    forall i | 0 <= i < |lines| ensures Defines(lines[i], k) == Sets(es[i], k) {
      assert es[i] == ParseLine(lines[i]);
    }
    if k in t {
      var i :| 0 <= i < |es| && es[i] == Some((k, t[k]))
               && forall j :: i < j < |es| ==> !Sets(es[j], k);
      assert es[i] == ParseLine(lines[i]);
      forall j | i < j < |lines| ensures !Defines(lines[j], k) {
        assert !Sets(es[j], k);
      }
    }
  }

  /** `file_data.get(met_key)`. */
  function Lookup(t: Table, key: string): Option<string> {
    if key in t then Some(t[key]) else None
  }

  /** The dict comprehension of the record: each column gets the table's
      value for its key, or `None` for a key never seen. */
  function MetRecord(t: Table, m: FieldMapping): (r: Record)
    ensures r.Keys == set c | c in Keys(m)
    ensures forall i :: 0 <= i < |m| ==> m[i].0 in r && r[m[i].0] == Lookup(t, m[i].1)
  {
    var lookup := key => Lookup(t, key);
    ProjectShape(m, lookup);
    Project(m, lookup)
  }

  /** What `extract_from_met` returns: the record, or `None` on `IOError`. */
  function MetExtraction(file: MetFile, m: FieldMapping): Option<Record> {
    match file
    case IOError(_) => None
    case Lines(lines) => Some(MetRecord(TableOf(lines), m))
  }

  method ExtractFromMet(file: MetFile, m: FieldMapping) returns (r: Option<Record>)
    ensures r == MetExtraction(file, m)
  {
    match file
    case IOError(_) =>
      r := None;
    case Lines(lines) =>
      var fileData := ReadTable(lines);
      r := Some(MetRecord(fileData, m));
  }

  /** The `.met` record has exactly the mapping's columns; a column whose key
      some line defines holds the stripped value of the last such line, and a
      column whose key no line defines holds `None`. */
  lemma MetRecordFields(lines: seq<string>, m: FieldMapping, c: nat)
    requires c < |m|
    ensures MetRecord(TableOf(lines), m).Keys == set col | col in Keys(m)
    ensures var key := m[c].1;
      var v := MetRecord(TableOf(lines), m)[m[c].0];
      && (v.None? <==> forall i :: 0 <= i < |lines| ==> !Defines(lines[i], key))
      && (v.Some? ==> exists i :: 0 <= i < |lines| && ParseLine(lines[i]) == Some((key, v.value))
                                  && forall j :: i < j < |lines| ==> !Defines(lines[j], key))
  {
    var t := TableOf(lines);
    ProjectShape(m, key => Lookup(t, key));
    LastWins(lines, m[c].1);
  }
}
