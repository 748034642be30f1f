/** Writing `branch.out` and `commodity.out`: one line `code,name,total` for
    every code of a domain, in the iteration order of the name map.  The
    lines are returned instead of written to a file. */
module SummaryWriter {

  import opened JavaText
  import opened Outcomes
  import opened Tables
  import opened DefinitionLoader

  /** `"" + sales.get(code)` for a `Map<String, Long>`: the decimal text of
      the total, or `null` when the code has no total. */
  function TotalText(sales: map<string, int>, code: string): (text: string)
    ensures code in sales && sales[code] >= 0 ==> AllDigits(text) && DecimalValue(text) == sales[code]
    ensures code !in sales ==> text == "null"
  {
    if code in sales then LongText(sales[code]) else "null"
  }

  /** The line written for one code. */
  function SummaryLine(t: Table, code: string): (line: string)
    requires code in t.names
    ensures |line| > |code| && line[..|code| + 1] == code + ","
  {
    code + "," + t.names[code] + "," + TotalText(t.sales, code)
  }

  /** `out` holds one line per code of the name map, the codes visited in
      the order `order`, each code once. */
  ghost predicate ListsInOrder(out: seq<string>, order: seq<string>, t: Table) {
    && |out| == |order|
    && (forall i :: 0 <= i < |order| ==> order[i] in t.names)
    && (forall code :: code in t.names ==> code in order)
    && (forall i, j :: 0 <= i < j < |order| ==> order[i] != order[j])
    && (forall i :: 0 <= i < |out| ==> out[i] == SummaryLine(t, order[i]))
  }

  /** `writeFile`: the loop over `names.keySet()`.  A HashMap's iteration
      order is not specified, so each round takes any code not yet visited;
      `order` records the visit order. */
  method WriteFile(t: Table) returns (out: seq<string>, ghost order: seq<string>)
    ensures ListsInOrder(out, order, t)
    ensures |out| == |t.names.Keys|
  {
    var remaining := t.names.Keys;
    out := [];
    order := [];
    while remaining != {}
      invariant remaining <= t.names.Keys
      invariant |remaining| + |order| == |t.names.Keys|
      invariant |out| == |order|
      invariant forall i :: 0 <= i < |order| ==> order[i] in t.names && order[i] !in remaining
      invariant forall code :: code in t.names ==> code in remaining || code in order
      invariant forall i, j :: 0 <= i < j < |order| ==> order[i] != order[j]
      invariant forall i :: 0 <= i < |out| ==> out[i] == SummaryLine(t, order[i])
      decreases |remaining|
    {
      var key :| key in remaining;
      out := out + [SummaryLine(t, key)];
      order := order + [key];
      remaining := remaining - {key};
    }
  }

  /** A sequence without repeats has as many elements as its set. */
  lemma {:induction false} DistinctCardinality(s: seq<string>)
    requires forall i, j :: 0 <= i < j < |s| ==> s[i] != s[j]
    ensures |set x | x in s| == |s|
    decreases |s|
  {
    if s != [] {
      var init := s[..|s| - 1];
      DistinctCardinality(init);
      var last := s[|s| - 1];
      assert (set x | x in s) == (set x | x in init) + {last};
      assert last !in init;
    }
  }

  /** The summary has exactly one line per code, and each code's line is
      unique to it. */
  lemma OneLinePerCode(out: seq<string>, order: seq<string>, t: Table)
    requires ListsInOrder(out, order, t)
    ensures |out| == |t.names.Keys|
    ensures forall code :: code in t.names ==> exists i :: 0 <= i < |out| && order[i] == code && out[i] == SummaryLine(t, code)
  {
    DistinctCardinality(order);
    assert (set x | x in order) == t.names.Keys;
    forall code | code in t.names
      ensures exists i :: 0 <= i < |out| && order[i] == code && out[i] == SummaryLine(t, code)
    {
      var i :| 0 <= i < |order| && order[i] == code;
      assert out[i] == SummaryLine(t, code);
    }
  }

  lemma CommaFreeDigits(s: string)
    requires AllDigits(s)
    ensures ',' !in s
  {
  }

  /** Reading a summary line back: split on commas it gives the code, its
      name and the decimal digits of its total. */
  lemma SummaryLineParses(t: Table, code: string)
    requires Printable(t) && code in t.names && code in t.sales && t.sales[code] >= 0
    ensures var fields := JavaSplit(SummaryLine(t, code));
            && |fields| == 3
            && fields[0] == code && fields[1] == t.names[code]
            && AllDigits(fields[2]) && DecimalValue(fields[2]) == t.sales[code]
  {
    var digits := Decimal(t.sales[code]);
    CommaFreeDigits(digits);
    SplitThree(code, t.names[code], digits);
  }

  /** Every line of a summary of a well-formed table reads back as a known
      code, its name and its total. */
  lemma SummaryReadsBack(out: seq<string>, order: seq<string>, t: Table)
    requires ListsInOrder(out, order, t)
    requires Aligned(t) && Printable(t) && TotalsInRange(t)
    ensures forall i :: 0 <= i < |out| ==>
              var fields := JavaSplit(out[i]);
              && |fields| == 3 && fields[0] in t.names && fields[0] in t.sales
              && fields[1] == t.names[fields[0]]
              && AllDigits(fields[2]) && DecimalValue(fields[2]) == t.sales[fields[0]]
  {
    forall i | 0 <= i < |out|
      ensures var fields := JavaSplit(out[i]);
              && |fields| == 3 && fields[0] in t.names && fields[0] in t.sales
              && fields[1] == t.names[fields[0]]
              && AllDigits(fields[2]) && DecimalValue(fields[2]) == t.sales[fields[0]]
    {
      SummaryLineParses(t, order[i]);
    }
  }

  /** Before any record is tallied, the summary line of a code is built from
      the last line defining it: its code, its name and ",0".  When that
      line was written without trailing commas, the summary line is the
      line itself with ",0" appended. */
  lemma DefinitionRoundTrip(d: Domain, lines: seq<string>, loaded: Table, i: nat)
    requires LoadDefinitions(d, lines, Table(map[], map[])) == Ok(loaded)
    requires i < |lines|
    requires forall j :: i < j < |lines| ==> CodeOf(d, lines[j]) != CodeOf(d, lines[i])
    ensures CodeOf(d, lines[i]) in loaded.names
    ensures SummaryLine(loaded, CodeOf(d, lines[i])) == CodeOf(d, lines[i]) + "," + NameOf(d, lines[i]) + ",0"
    ensures lines[i] == CodeOf(d, lines[i]) + "," + NameOf(d, lines[i]) ==>
              SummaryLine(loaded, CodeOf(d, lines[i])) == lines[i] + ",0"
  {
    LoadedTableIsZeroed(d, lines, loaded);
    FillLastWins(d, lines, Table(map[], map[]), i);
    var code := CodeOf(d, lines[i]);
    FillEntries(d, lines, Table(map[], map[]));
    assert loaded.sales[code] == 0;
    assert Decimal(0) == "0";
  }
}
