/** Adding up the sales records: each record file, in sorted order, is
    checked against both definition tables and its amount is added to one
    branch total and one commodity total. */
module Aggregation {

  import opened JavaText
  import opened Outcomes
  import opened Tables

  /** `sale.matches("^[0-9]+$")`. */
  predicate IsAmountText(s: string) {
    s != [] && AllDigits(s)
  }

  /** The amount a record contributes: the value of its third line (0 when
      there is no third line or it is not a number). */
  function Amount(file: Entry): nat {
    if |file.lines| >= 3 && IsAmountText(file.lines[2]) then DecimalValue(file.lines[2]) else 0
  }

  /** The current total of a code (0 for an unknown code). */
  function TotalOf(t: Table, code: string): int {
    if code in t.sales then t.sales[code] else 0
  }

  /** One pass of the loop body over a record file.  `fileContents.get(2)`
      comes before the line-count check, so a record of fewer than three
      lines ends the run with an uncaught exception. */
  function Step(file: Entry, branch: Table, commodity: Table): (r: Result<(Table, Table)>)
    requires Aligned(branch) && Aligned(commodity)
    ensures r.Ok? ==> r.value.0.names == branch.names && r.value.0.sales.Keys == branch.sales.Keys
    ensures r.Ok? ==> r.value.1.names == commodity.names && r.value.1.sales.Keys == commodity.sales.Keys
  {
    var lines := file.lines;
    if |lines| < 3 then Err(Crashed(IndexOutOfBounds))
    else if |lines| != 3 then Err(Printed(RecordFormatInvalid(file.name)))
    else if lines[0] !in branch.names then Err(Printed(BranchCodeInvalid(file.name)))
    else if lines[1] !in commodity.names then Err(Printed(CommodityCodeInvalid(file.name)))
    else if !IsAmountText(lines[2]) then Err(Printed(UnknownError))
    else if DecimalValue(lines[2]) > LongMax then Err(Crashed(NumberFormat))
    else
      var amount := DecimalValue(lines[2]);
      var b := branch.sales[lines[0]] + amount;
      var c := commodity.sales[lines[1]] + amount;
      if b >= Bound || c >= Bound then Err(Printed(AmountOverflow))
      else Ok((Table(branch.names, branch.sales[lines[0] := b]),
               Table(commodity.names, commodity.sales[lines[1] := c])))
  }

  // ---------------------------------------------------------------------
  // The order of the checks, stated on its own.

  /** The checks a record of at least three lines goes through, in the order
      the source performs them. */
  datatype Check = LineCount | BranchKnown | CommodityKnown | AmountNumeric | AmountParses | TotalsFit

  const CheckOrder: seq<Check> := [LineCount, BranchKnown, CommodityKnown, AmountNumeric, AmountParses, TotalsFit]

  /** Whether the record violates one rule, judged on its own. */
  predicate Violates(check: Check, file: Entry, branch: Table, commodity: Table)
    requires |file.lines| >= 3
  {
    var lines := file.lines;
    match check
    case LineCount => |lines| != 3
    case BranchKnown => lines[0] !in branch.names
    case CommodityKnown => lines[1] !in commodity.names
    case AmountNumeric => !IsAmountText(lines[2])
    case AmountParses => IsAmountText(lines[2]) && DecimalValue(lines[2]) > LongMax
    case TotalsFit =>
      TotalOf(branch, lines[0]) + Amount(file) >= Bound || TotalOf(commodity, lines[1]) + Amount(file) >= Bound
  }

  /** What a violated rule makes the tool do. */
  function Report(check: Check, name: string): Termination {
    match check
    case LineCount => Printed(RecordFormatInvalid(name))
    case BranchKnown => Printed(BranchCodeInvalid(name))
    case CommodityKnown => Printed(CommodityCodeInvalid(name))
    case AmountNumeric => Printed(UnknownError)
    case AmountParses => Crashed(NumberFormat)
    case TotalsFit => Printed(AmountOverflow)
  }

  /** A record of fewer than three lines always crashes; otherwise it is
      tallied exactly when it violates no rule, and when it violates some,
      the first violated rule in the source's order decides what is
      reported. */
  lemma StepReportsFirstViolation(file: Entry, branch: Table, commodity: Table)
    requires Aligned(branch) && Aligned(commodity)
    ensures |file.lines| < 3 ==> Step(file, branch, commodity) == Err(Crashed(IndexOutOfBounds))
    ensures |file.lines| >= 3 ==>
              (Step(file, branch, commodity).Ok? <==>
                 forall k :: 0 <= k < |CheckOrder| ==> !Violates(CheckOrder[k], file, branch, commodity))
    ensures |file.lines| >= 3 ==>
              forall k :: (&& 0 <= k < |CheckOrder|
                           && Violates(CheckOrder[k], file, branch, commodity)
                           && forall j :: 0 <= j < k ==> !Violates(CheckOrder[j], file, branch, commodity)) ==>
                Step(file, branch, commodity) == Err(Report(CheckOrder[k], file.name))
  {
    if |file.lines| >= 3 {
      assert CheckOrder[0] == LineCount && CheckOrder[1] == BranchKnown && CheckOrder[2] == CommodityKnown;
      assert CheckOrder[3] == AmountNumeric && CheckOrder[4] == AmountParses && CheckOrder[5] == TotalsFit;
    }
  }

  // ---------------------------------------------------------------------
  // What a tallied record changes.

  /** A tallied record adds its amount to exactly one branch total and one
      commodity total; every other total, both key sets and both name maps
      stay as they were. */
  lemma StepUpdatesTwoTotals(file: Entry, branch: Table, commodity: Table)
    requires Aligned(branch) && Aligned(commodity)
    requires Step(file, branch, commodity).Ok?
    ensures |file.lines| == 3
    ensures var (b, c) := Step(file, branch, commodity).value;
            var bcode, ccode := file.lines[0], file.lines[1];
            && bcode in branch.sales && ccode in commodity.sales
            && b.names == branch.names && c.names == commodity.names
            && b.sales.Keys == branch.sales.Keys && c.sales.Keys == commodity.sales.Keys
            && b.sales[bcode] == branch.sales[bcode] + Amount(file)
            && c.sales[ccode] == commodity.sales[ccode] + Amount(file)
            && (forall code :: code in branch.sales && code != bcode ==> b.sales[code] == branch.sales[code])
            && (forall code :: code in commodity.sales && code != ccode ==> c.sales[code] == commodity.sales[code])
  {
  }

  /** A tallied record never takes a total to ten digits or below zero. */
  lemma StepKeepsTotalsInRange(file: Entry, branch: Table, commodity: Table)
    requires Aligned(branch) && Aligned(commodity)
    requires TotalsInRange(branch) && TotalsInRange(commodity)
    requires Step(file, branch, commodity).Ok?
    ensures TotalsInRange(Step(file, branch, commodity).value.0)
    ensures TotalsInRange(Step(file, branch, commodity).value.1)
  {
  }

  /** A tallied record raises the sum of the branch totals and the sum of the
      commodity totals by the same amount. */
  lemma StepAddsToBothSums(file: Entry, branch: Table, commodity: Table)
    requires Aligned(branch) && Aligned(commodity)
    requires Step(file, branch, commodity).Ok?
    ensures MapSum(Step(file, branch, commodity).value.0.sales) == MapSum(branch.sales) + Amount(file)
    ensures MapSum(Step(file, branch, commodity).value.1.sales) == MapSum(commodity.sales) + Amount(file)
  {
    StepUpdatesTwoTotals(file, branch, commodity);
    var lines := file.lines;
    MapSumUpdate(branch.sales, lines[0], branch.sales[lines[0]] + Amount(file));
    MapSumUpdate(commodity.sales, lines[1], commodity.sales[lines[1]] + Amount(file));
  }

  // ---------------------------------------------------------------------
  // The whole loop.

  /** The loop over the sorted record files: the first record that fails
      ends it. */
  function Tally(records: seq<Entry>, branch: Table, commodity: Table): (r: Result<(Table, Table)>)
    requires Aligned(branch) && Aligned(commodity)
    ensures r.Ok? ==> Aligned(r.value.0) && Aligned(r.value.1)
    decreases |records|
  {
    if records == [] then Ok((branch, commodity))
    else
      match Tally(records[..|records| - 1], branch, commodity)
      case Err(stop) => Err(stop)
      case Ok((b, c)) => Step(records[|records| - 1], b, c)
  }

  /** The sum of the amounts of all records. */
  function TotalAmount(records: seq<Entry>): nat {
    if records == [] then 0 else TotalAmount(records[..|records| - 1]) + Amount(records[|records| - 1])
  }

  /** After the loop, each side's sum has grown by the sum of all amounts;
      names, key sets and the ten-digit bound are kept. */
  lemma {:induction false} TallyConservesSums(records: seq<Entry>, branch: Table, commodity: Table)
    requires Aligned(branch) && Aligned(commodity)
    requires TotalsInRange(branch) && TotalsInRange(commodity)
    requires Tally(records, branch, commodity).Ok?
    ensures var (b, c) := Tally(records, branch, commodity).value;
            && MapSum(b.sales) == MapSum(branch.sales) + TotalAmount(records)
            && MapSum(c.sales) == MapSum(commodity.sales) + TotalAmount(records)
            && b.names == branch.names && c.names == commodity.names
            && b.sales.Keys == branch.sales.Keys && c.sales.Keys == commodity.sales.Keys
            && TotalsInRange(b) && TotalsInRange(c)
    decreases |records|
  {
    if records != [] {
      var init := records[..|records| - 1];
      TallyConservesSums(init, branch, commodity);
      var (b, c) := Tally(init, branch, commodity).value;
      StepAddsToBothSums(records[|records| - 1], b, c);
      StepKeepsTotalsInRange(records[|records| - 1], b, c);
    }
  }

  /** Starting from the freshly loaded all-zero totals, a completed loop
      leaves the branch totals and the commodity totals summing to the same
      number: the sum of all record amounts. */
  lemma TallyBalances(records: seq<Entry>, branch: Table, commodity: Table)
    requires Aligned(branch) && Aligned(commodity)
    requires forall code :: code in branch.sales ==> branch.sales[code] == 0
    requires forall code :: code in commodity.sales ==> commodity.sales[code] == 0
    requires Tally(records, branch, commodity).Ok?
    ensures MapSum(Tally(records, branch, commodity).value.0.sales) == TotalAmount(records)
    ensures MapSum(Tally(records, branch, commodity).value.1.sales) == TotalAmount(records)
  {
    MapSumZero(branch.sales);
    MapSumZero(commodity.sales);
    TallyConservesSums(records, branch, commodity);
  }

  /** Record k is the first one that fails, with `stop`. */
  predicate FailsFirstAt(records: seq<Entry>, branch: Table, commodity: Table, k: nat, stop: Termination)
    requires Aligned(branch) && Aligned(commodity)
  {
    && k < |records|
    && Tally(records[..k], branch, commodity).Ok?
    && var (b, c) := Tally(records[..k], branch, commodity).value;
       Step(records[k], b, c) == Err(stop)
  }

  lemma {:induction false} FailureStops(records: seq<Entry>, branch: Table, commodity: Table, k: nat, stop: Termination)
    requires Aligned(branch) && Aligned(commodity)
    requires FailsFirstAt(records, branch, commodity, k, stop)
    ensures Tally(records, branch, commodity) == Err(stop)
    decreases |records|
  {
    if k < |records| - 1 {
      var init := records[..|records| - 1];
      assert init[..k] == records[..k];
      assert init[k] == records[k];
      FailureStops(init, branch, commodity, k, stop);
    } else {
      assert records[..k] == records[..|records| - 1];
    }
  }

  /** The loop fails exactly when some record is the first to fail, and then
      that record decides what is reported. */
  lemma {:induction false} FirstFailingRecordDecides(records: seq<Entry>, branch: Table, commodity: Table)
    requires Aligned(branch) && Aligned(commodity)
    ensures forall k: nat, stop :: FailsFirstAt(records, branch, commodity, k, stop) ==>
              Tally(records, branch, commodity) == Err(stop)
    ensures Tally(records, branch, commodity).Err? ==>
              exists k: nat :: FailsFirstAt(records, branch, commodity, k, Tally(records, branch, commodity).stop)
    decreases |records|
  {
    forall k: nat, stop | FailsFirstAt(records, branch, commodity, k, stop)
      ensures Tally(records, branch, commodity) == Err(stop)
    {
      FailureStops(records, branch, commodity, k, stop);
    }
    if Tally(records, branch, commodity).Err? {
      var stop := Tally(records, branch, commodity).stop;
      var n := |records| - 1;
      var init := records[..n];
      assert records[..n] == init;
      if Tally(init, branch, commodity).Err? {
        FirstFailingRecordDecides(init, branch, commodity);
        var k: nat :| FailsFirstAt(init, branch, commodity, k, stop);
        assert init[..k] == records[..k];
        assert FailsFirstAt(records, branch, commodity, k, stop);
      } else {
        assert FailsFirstAt(records, branch, commodity, n, stop);
      }
    }
  }

  /** The aggregation loop of `main`, updating the two total maps in place.
      When a record fails, the maps keep the totals of the records before it:
      the failing record changes nothing. */
  method Aggregate(rcdFiles: seq<Entry>, branch: CodeTable, commodity: CodeTable) returns (outcome: Outcome)
    requires branch != commodity
    requires Aligned(branch.Snapshot()) && Aligned(commodity.Snapshot())
    modifies branch`sales, commodity`sales
    ensures outcome.Pass? ==>
              Tally(rcdFiles, old(branch.Snapshot()), old(commodity.Snapshot())) ==
                Ok((branch.Snapshot(), commodity.Snapshot()))
    ensures outcome.Fail? ==>
              Tally(rcdFiles, old(branch.Snapshot()), old(commodity.Snapshot())) == Err(outcome.stop)
    ensures outcome.Fail? ==>
              exists k: nat :: FailsFirstAt(rcdFiles, old(branch.Snapshot()), old(commodity.Snapshot()), k, outcome.stop) &&
                Tally(rcdFiles[..k], old(branch.Snapshot()), old(commodity.Snapshot())) ==
                  Ok((branch.Snapshot(), commodity.Snapshot()))
  {
    ghost var b0, c0 := branch.Snapshot(), commodity.Snapshot();
    var i := 0;
    while i < |rcdFiles|
      invariant 0 <= i <= |rcdFiles|
      invariant Tally(rcdFiles[..i], b0, c0) == Ok((branch.Snapshot(), commodity.Snapshot()))
    {
      var file := rcdFiles[i];
      var fileContents := file.lines;
      ghost var st := (branch.Snapshot(), commodity.Snapshot());
      assert rcdFiles[..i + 1][..i] == rcdFiles[..i];
      assert rcdFiles[..i + 1][i] == file;
      if |fileContents| < 3 {
        outcome := Fail(Crashed(IndexOutOfBounds));
        FailureStops(rcdFiles, b0, c0, i, outcome.stop);
        return;
      }
      var sale := fileContents[2];
      if |fileContents| != 3 {
        outcome := Fail(Printed(RecordFormatInvalid(file.name)));
        FailureStops(rcdFiles, b0, c0, i, outcome.stop);
        return;
      }
      if fileContents[0] !in branch.names {
        outcome := Fail(Printed(BranchCodeInvalid(file.name)));
        FailureStops(rcdFiles, b0, c0, i, outcome.stop);
        return;
      }
      if fileContents[1] !in commodity.names {
        outcome := Fail(Printed(CommodityCodeInvalid(file.name)));
        FailureStops(rcdFiles, b0, c0, i, outcome.stop);
        return;
      }
      if !IsAmountText(sale) {
        outcome := Fail(Printed(UnknownError));
        FailureStops(rcdFiles, b0, c0, i, outcome.stop);
        return;
      }
      var fileSale := DecimalValue(sale);
      if fileSale > LongMax {
        outcome := Fail(Crashed(NumberFormat));
        FailureStops(rcdFiles, b0, c0, i, outcome.stop);
        return;
      }
      var branchSaleAmount := branch.sales[fileContents[0]] + fileSale;
      var commoditySaleAmount := commodity.sales[fileContents[1]] + fileSale;
      if branchSaleAmount >= Bound || commoditySaleAmount >= Bound {
        outcome := Fail(Printed(AmountOverflow));
        FailureStops(rcdFiles, b0, c0, i, outcome.stop);
        return;
      }
      branch.sales := branch.sales[fileContents[0] := branchSaleAmount];
      commodity.sales := commodity.sales[fileContents[1] := commoditySaleAmount];
      assert Step(file, st.0, st.1) == Ok((branch.Snapshot(), commodity.Snapshot()));
      i := i + 1;
    }
    assert rcdFiles[..i] == rcdFiles;
    outcome := Pass;
  }

  // ---------------------------------------------------------------------
  // The addition as the source writes it.

  const TwoTo63: int := 0x8000_0000_0000_0000

  /** A Java `long` addition: the exact sum wrapped into [-2^63, 2^63). */
  function LongAdd(x: int, y: int): (r: int)
    ensures -TwoTo63 <= r < TwoTo63
    ensures -TwoTo63 <= x + y < TwoTo63 ==> r == x + y
  {
    ((x + y + TwoTo63) % (2 * TwoTo63)) - TwoTo63
  }

  /** The loop body exactly as written: `branchSales.get(code) + fileSale`
      is a long addition, which wraps to a negative value when the exact sum
      reaches 2^63, and a negative value passes the ten-digit check. */
  function StepAsWritten(file: Entry, branch: Table, commodity: Table): (r: Result<(Table, Table)>)
    requires Aligned(branch) && Aligned(commodity)
    ensures r.Ok? ==> r.value.0.names == branch.names && r.value.1.names == commodity.names
  {
    var lines := file.lines;
    if |lines| < 3 then Err(Crashed(IndexOutOfBounds))
    else if |lines| != 3 then Err(Printed(RecordFormatInvalid(file.name)))
    else if lines[0] !in branch.names then Err(Printed(BranchCodeInvalid(file.name)))
    else if lines[1] !in commodity.names then Err(Printed(CommodityCodeInvalid(file.name)))
    else if !IsAmountText(lines[2]) then Err(Printed(UnknownError))
    else if DecimalValue(lines[2]) > LongMax then Err(Crashed(NumberFormat))
    else
      var amount := DecimalValue(lines[2]);
      var b := LongAdd(branch.sales[lines[0]], amount);
      var c := LongAdd(commodity.sales[lines[1]], amount);
      if b >= Bound || c >= Bound then Err(Printed(AmountOverflow))
      else Ok((Table(branch.names, branch.sales[lines[0] := b]),
               Table(commodity.names, commodity.sales[lines[1] := c])))
  }

  /** The record of the wrap-around example: branch "001" and commodity
      "X0000001" each hold a total of 1, and the record charges both of them
      the given amount text. */
  predicate WrapExample(amountText: string) {
    var branch := Table(map["001" := "東京"], map["001" := 1]);
    var commodity := Table(map["X0000001" := "Apple"], map["X0000001" := 1]);
    var file := Entry("00000002.rcd", true, ["001", "X0000001", amountText]);
    && StepAsWritten(file, branch, commodity).Ok?
    && "001" in StepAsWritten(file, branch, commodity).value.0.sales
    && "X0000001" in StepAsWritten(file, branch, commodity).value.1.sales
    && StepAsWritten(file, branch, commodity).value.0.sales["001"] == -TwoTo63
    && StepAsWritten(file, branch, commodity).value.1.sales["X0000001"] == -TwoTo63
    && Step(file, branch, commodity) == Err(Printed(AmountOverflow))
  }

  /** With both totals at 1 and the amount 9223372036854775807, the largest
      long: as written, both sums wrap to -9223372036854775808, pass the
      ten-digit check and are stored; the intended behaviour reports the
      overflow. */
  lemma AsWrittenStoresNegativeTotal(largest: nat)
    requires largest == LongMax
    ensures WrapExample(Decimal(largest))
  {
    WrapsAt(Decimal(largest));
  }

  /** The same record, for any amount text whose value is the largest long. */
  lemma WrapsAt(amountText: string)
    requires IsAmountText(amountText) && DecimalValue(amountText) == LongMax
    ensures WrapExample(amountText)
  {
    assert LongAdd(1, LongMax) == -TwoTo63;
  }

  /** Whenever no addition reaches 2^63, the source's step and the
      corrected step agree; with totals below ten digits that is every
      amount below 2^63 - 10^10. */
  lemma AsWrittenAgreesWithoutWrap(file: Entry, branch: Table, commodity: Table)
    requires Aligned(branch) && Aligned(commodity)
    requires TotalsInRange(branch) && TotalsInRange(commodity)
    requires Amount(file) + Bound <= TwoTo63
    ensures StepAsWritten(file, branch, commodity) == Step(file, branch, commodity)
  {
  }
}
