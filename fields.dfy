/**
 * Field mappings and records. A field mapping is a Python dict from output
 * column name to a locator (an XPath expression or a `.met` key); it keeps
 * insertion order and never repeats a column name. A record is the dict an
 * extractor returns: column name to text, or `None`.
 */
module Fields {
  import opened Wrappers

  /** No two entries share a column name: the key invariant of a dict. */
  predicate DistinctColumns(m: seq<(string, string)>) {
    forall i, j :: 0 <= i < j < |m| ==> m[i].0 != m[j].0
  }

  type FieldMapping = m: seq<(string, string)> | DistinctColumns(m)

  type Record = map<string, Option<string>>

  /** `list(mapping.keys())`. */
  function Keys(m: FieldMapping): seq<string> {
    seq(|m|, i requires 0 <= i < |m| => m[i].0)
  }

  /** The record that maps every column of `m` to `lookup` of its locator. */
  function Project(m: FieldMapping, lookup: string -> Option<string>): Record {
    map i | 0 <= i < |m| :: m[i].0 := lookup(m[i].1)
  }

  /** A projection has exactly the mapping's columns as keys, and each column
      holds what `lookup` gives for that column's own locator. */
  lemma ProjectShape(m: FieldMapping, lookup: string -> Option<string>)
    ensures Project(m, lookup).Keys == set c | c in Keys(m)
    ensures forall i :: 0 <= i < |m| ==> Project(m, lookup)[m[i].0] == lookup(m[i].1)
  {
    var r := Project(m, lookup);
    forall c | c in r.Keys ensures c in Keys(m) {
      var i :| 0 <= i < |m| && m[i].0 == c;
      assert Keys(m)[i] == c;
    }
  }

  /** Projecting one more entry adds that entry's column and changes no other. */
  lemma ProjectPrefix(m: FieldMapping, i: nat, lookup: string -> Option<string>)
    requires i < |m|
    ensures Project(m[..i + 1], lookup) == Project(m[..i], lookup)[m[i].0 := lookup(m[i].1)]
  {
    var longer, shorter := m[..i + 1], m[..i];
    var a := Project(longer, lookup);
    var b := Project(shorter, lookup)[m[i].0 := lookup(m[i].1)];
    forall c | c in a ensures c in b && a[c] == b[c] {
      var j :| 0 <= j < i + 1 && longer[j].0 == c;
      if j < i {
        assert shorter[j] == longer[j];
      }
    }
    forall c | c in b ensures c in a {
      if c != m[i].0 {
        var j :| 0 <= j < i && shorter[j].0 == c;
        assert longer[j] == shorter[j];
      }
    }
  }

  /** A projection is empty exactly when the mapping is. */
  lemma ProjectEmpty(m: FieldMapping, lookup: string -> Option<string>)
    ensures Project(m, lookup) == map[] <==> |m| == 0
  {
    if |m| > 0 {
      assert m[0].0 in Project(m, lookup);
    }
  }
}
