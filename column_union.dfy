/**
 * The spreadsheet's columns: `list(dict.fromkeys(xml_keys + met_keys))`,
 * an order-preserving removal of duplicates.
 */
module ColumnUnion {
  import opened Fields

  predicate Distinct(s: seq<string>) {
    forall i, j :: 0 <= i < j < |s| ==> s[i] != s[j]
  }

  /** `list(dict.fromkeys(s))`: each element of `s` once, where it first occurs. */
  function FromKeys(s: seq<string>): (r: seq<string>)
    ensures forall x :: x in r <==> x in s
  {
    if s == [] then []
    else
      var seen := FromKeys(s[..|s| - 1]);
      if s[|s| - 1] in seen then seen else seen + [s[|s| - 1]]
  }

  /** The elements of `s` that are not in `seen`, in their order. */
  function Unseen(s: seq<string>, seen: seq<string>): (r: seq<string>)
    ensures forall x :: x in r <==> x in s && x !in seen
  {
    if s == [] then []
    else
      var rest := Unseen(s[..|s| - 1], seen);
      if s[|s| - 1] in seen then rest else rest + [s[|s| - 1]]
  }

  /** Every element occurs once in the result. */
  lemma {:induction false} FromKeysDistinct(s: seq<string>)
    ensures Distinct(FromKeys(s))
  {
    if s != [] {
      FromKeysDistinct(s[..|s| - 1]);
    }
  }

  lemma {:induction false} UnseenDistinct(s: seq<string>, seen: seq<string>)
    requires Distinct(s)
    ensures Distinct(Unseen(s, seen))
  {
    if s != [] {
      UnseenDistinct(s[..|s| - 1], seen);
    }
  }

  /** Nothing is new in a list all of whose elements were seen. */
  lemma {:induction false} UnseenOfCovered(s: seq<string>, seen: seq<string>)
    requires forall x :: x in s ==> x in seen
    ensures Unseen(s, seen) == []
  {
    if s != [] {
      assert forall x :: x in s[..|s| - 1] ==> x in s;
      UnseenOfCovered(s[..|s| - 1], seen);
    }
  }

  /** A list without duplicates comes back unchanged. */
  lemma {:induction false} FromKeysOfDistinct(s: seq<string>)
    requires Distinct(s)
    ensures FromKeys(s) == s
  {
    if s != [] {
      var n := |s| - 1;
      FromKeysOfDistinct(s[..n]);
      assert s[n] !in s[..n];
      assert s[..n] + [s[n]] == s;
    }
  }

  /** After a duplicate-free prefix `a`, `dict.fromkeys` keeps `a` as it is and
      adds what is new in `b`, first occurrences first. */
  lemma {:induction false} FromKeysAfter(a: seq<string>, b: seq<string>)
    requires Distinct(a)
    ensures FromKeys(a + b) == a + FromKeys(Unseen(b, a))
  {
    if b == [] {
      assert a + b == a;
      FromKeysOfDistinct(a);
    } else {
      var n := |b| - 1;
      var b0, e := b[..n], b[n];
      FromKeysAfter(a, b0);
      var u := Unseen(b0, a);
      var f := FromKeys(u);
      var d := FromKeys(a + b0);
      assert d == a + f;
      assert (a + b)[..|a + b| - 1] == a + b0;
      assert FromKeys(a + b) == if e in d then d else d + [e];
      if e in a {
        assert Unseen(b, a) == u;
      } else {
        assert Unseen(b, a) == u + [e];
        assert (u + [e])[..|u|] == u;
        assert FromKeys(u + [e]) == if e in f then f else f + [e];
        assert e in d <==> e in f;
        assert (a + f) + [e] == a + (f + [e]);
      }
    }
  }

  /** The column list of the exported table. */
  function AllColumns(xml: FieldMapping, met: FieldMapping): (r: seq<string>)
    ensures Distinct(r)
    ensures forall c :: c in r <==> c in Keys(xml) || c in Keys(met)
  {
    FromKeysDistinct(Keys(xml) + Keys(met));
    FromKeys(Keys(xml) + Keys(met))
  }

  lemma KeysDistinct(m: FieldMapping)
    ensures Distinct(Keys(m))
  {
  }

  /** Every column of either mapping appears exactly once: the XML mapping's
      columns first, in their order, then the `.met` mapping's columns that
      are not XML columns, in their order. */
  lemma AllColumnsLayout(xml: FieldMapping, met: FieldMapping)
    ensures AllColumns(xml, met) == Keys(xml) + Unseen(Keys(met), Keys(xml))
    ensures Distinct(AllColumns(xml, met))
    ensures forall c :: c in AllColumns(xml, met) <==> c in Keys(xml) || c in Keys(met)
  {
    KeysDistinct(xml);
    KeysDistinct(met);
    FromKeysAfter(Keys(xml), Keys(met));
    FromKeysDistinct(Keys(xml) + Keys(met));
    UnseenDistinct(Keys(met), Keys(xml));
    FromKeysOfDistinct(Unseen(Keys(met), Keys(xml)));
  }

  /** When every `.met` column is also an XML column, the columns are just the
      XML mapping's. */
  lemma AllColumnsSubsumed(xml: FieldMapping, met: FieldMapping)
    requires forall c :: c in Keys(met) ==> c in Keys(xml)
    ensures AllColumns(xml, met) == Keys(xml)
  {
    AllColumnsLayout(xml, met);
    UnseenOfCovered(Keys(met), Keys(xml));
    assert Keys(xml) + [] == Keys(xml);
  }
}
