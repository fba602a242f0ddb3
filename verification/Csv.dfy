// Comma-separated lists as the board reads them.

module Csv {
  import opened Common
  import opened Patterns
  import opened Splitting

  // The entries a cursor loop visits.
  function Entries(csv: string): seq<string> { Parts(',', csv) }

  // What a list handed to the collector may hold.
  predicate SafeChar(c: char) {
    'a' <= c <= 'z' || 'A' <= c <= 'Z' || '0' <= c <= '9' || c == '.' || c == '_' || c == '-' || c == '@' || c == ','
    || c == ':'
  }

  predicate IsSafe(csv: string) { forall c :: c in csv ==> SafeChar(c) }

  const MARKS := [Span('.', '.'), Span('_', '_'), Span('-', '-'), Span('@', '@'), Span(',', ','), Span(':', ':')]

  // The same as a pattern.
  lemma SafePattern(csv: string)
    ensures IsSafe(csv) <==> FullMatch([Item(ALNUM + MARKS, 0, None)], csv)
  {
    MatchesOne(Item(ALNUM + MARKS, 0, None), csv);
    forall c { SafeSpans(c); }
    assert csv[..|csv|] == csv;
  }

  lemma SafeSpans(c: char)
    ensures InSpans(c, ALNUM + MARKS) <==> SafeChar(c)
  {
    AlnumAnd(c, MARKS);
    SixSpans(c, MARKS);
  }

  // csv_safe
  method CsvSafe(csv: string) returns (ok: bool)
    ensures ok <==> IsSafe(csv)
  {
    var p := 0;
    while p < |csv|
      invariant 0 <= p <= |csv| && IsSafe(csv[..p])
    {
      if !SafeChar(csv[p]) {
        return false;
      }
      p := p + 1;
    }
    return true;
  }

  lemma {:induction false} SafeEntries(csv: string, e: string)
    requires IsSafe(csv) && e in Entries(csv)
    ensures IsSafe(e)
    decreases |csv|
  {
    if csv != "" && e != csv[..Upto(',', csv)] {
      SafeEntries(Behind(',', csv), e);
    }
  }

  // An entry an item can match: csv_has never matches the empty item.
  predicate Has(csv: string, item: string) { item != "" && item in Entries(csv) }

  // velaops_health_csv_has
  method CsvHas(csv: string, item: string) returns (r: bool)
    ensures r == Has(csv, item) && (r <==> item != "" && item in Entries(csv))
  {
    if item == "" {
      return false;
    }
    var p := csv;
    while p != ""
      invariant item in Entries(csv) <==> item in Entries(p)
      decreases |p|
    {
      var entry := p[..Upto(',', p)];
      if entry == item {
        return true;
      }
      p := Behind(',', p);
    }
    return false;
  }

  // Position of the first entry equal to the item, or the number of entries.
  function IndexOf(es: seq<string>, item: string): (i: nat)
    ensures i <= |es| && item !in es[..i]
    ensures i < |es| ==> es[i] == item
  {
    if es == [] || es[0] == item then 0 else 1 + IndexOf(es[1..], item)
  }

  // csv_find_index
  method CsvFindIndex(csv: string, item: string) returns (r: int)
    ensures r == if item in Entries(csv) then IndexOf(Entries(csv), item) else -1
  {
    var p := csv;
    var index := 0;
    while p != ""
      invariant index + IndexOf(Entries(p), item) == IndexOf(Entries(csv), item)
      invariant item in Entries(csv) <==> item in Entries(p)
      decreases |p|
    {
      var entry := p[..Upto(',', p)];
      assert Entries(p)[1..] == Entries(Behind(',', p));
      if entry == item {
        return index;
      }
      index := index + 1;
      p := Behind(',', p);
    }
    return -1;
  }
}
