/** `main`: load both definition files, find and check the record files,
    tally them, and write both summaries.  Every message the source prints,
    and every uncaught exception, ends the run. */
module CalculateSales {

  import opened Outcomes
  import opened Tables
  import opened DefinitionLoader
  import opened RecordDiscovery
  import opened Aggregation
  import opened SummaryWriter

  /** How a run ends: with both summaries written (their lines, branches
      first), or stopped by a message or an exception. */
  datatype RunResult = Written(branchOut: seq<string>, commodityOut: seq<string>) | Stopped(stop: Termination)

  /** The tables are loaded from empty maps. */
  function Empty(): Table {
    Table(map[], map[])
  }

  /** The run reaches the record files: one argument, and both definition
      files load. */
  predicate DefinitionsLoad(args: seq<string>, dir: seq<Entry>) {
    && |args| == 1
    && ReadDefinitions(Branches, dir, Empty()).Ok?
    && ReadDefinitions(Commodities, dir, Empty()).Ok?
  }

  /** What a run computes, given the sorted record files: the final branch
      and commodity tables, or what stopped it.  Each stage runs only when
      every earlier one passed. */
  function Pipeline(args: seq<string>, dir: seq<Entry>, records: seq<Entry>): (r: Result<(Table, Table)>)
    requires AllRecordNames(records)
    ensures r.Ok? ==> DefinitionsLoad(args, dir) && Consecutive(records)
    ensures r.Ok? ==> Aligned(r.value.0) && Aligned(r.value.1)
  {
    if |args| != 1 then Err(Printed(UnknownError))
    else
      match ReadDefinitions(Branches, dir, Empty())
      case Err(stop) => Err(stop)
      case Ok(branch) =>
        match ReadDefinitions(Commodities, dir, Empty())
        case Err(stop) => Err(stop)
        case Ok(commodity) =>
          if !Consecutive(records) then Err(Printed(NotConsecutive))
          else
            ReadDefinitionsZeroed(Branches, dir);
            ReadDefinitionsZeroed(Commodities, dir);
            Tally(records, branch, commodity)
  }

  /** A definition file that loads into empty maps gives an aligned,
      printable, all-zero table. */
  lemma ReadDefinitionsZeroed(d: Domain, dir: seq<Entry>)
    requires ReadDefinitions(d, dir, Empty()).Ok?
    ensures var t := ReadDefinitions(d, dir, Empty()).value;
            && Aligned(t) && TotalsInRange(t) && Printable(t)
            && forall code :: code in t.sales ==> t.sales[code] == 0
  {
    var file := Lookup(dir, ListFileName(d)).value;
    LoadedTableIsZeroed(d, file.lines, ReadDefinitions(d, dir, Empty()).value);
  }

  /** A completed run balances: the branch totals and the commodity totals
      both sum to the sum of all record amounts, every total stays below ten
      digits, and the codes and names are the loaded ones. */
  lemma PipelineConservesSums(args: seq<string>, dir: seq<Entry>, records: seq<Entry>)
    requires AllRecordNames(records)
    requires Pipeline(args, dir, records).Ok?
    ensures DefinitionsLoad(args, dir) && Consecutive(records)
    ensures var (b, c) := Pipeline(args, dir, records).value;
            && MapSum(b.sales) == TotalAmount(records)
            && MapSum(c.sales) == TotalAmount(records)
            && Aligned(b) && Aligned(c) && TotalsInRange(b) && TotalsInRange(c)
            && Printable(b) && Printable(c)
            && b.names == ReadDefinitions(Branches, dir, Empty()).value.names
            && c.names == ReadDefinitions(Commodities, dir, Empty()).value.names
  {
    var branch := ReadDefinitions(Branches, dir, Empty()).value;
    var commodity := ReadDefinitions(Commodities, dir, Empty()).value;
    ReadDefinitionsZeroed(Branches, dir);
    ReadDefinitionsZeroed(Commodities, dir);
    TallyBalances(records, branch, commodity);
    TallyConservesSums(records, branch, commodity);
  }

  /** A reordering of selected entries holds only record names. */
  lemma SelectedPermutation(s: seq<Entry>, dir: seq<Entry>)
    requires multiset(s) == multiset(RecordFiles(dir))
    ensures AllRecordNames(s)
  {
    forall i | 0 <= i < |s| ensures IsRecordFileName(s[i].name) {
      assert s[i] in multiset(s);
      assert s[i] in RecordFiles(dir);
    }
  }

  /** The record files of a directory, whose names are distinct, are keyed
      by name in any arrangement. */
  lemma ListedRecordsKeyed(dir: seq<Entry>, s: seq<Entry>)
    requires DistinctNames(dir)
    requires multiset(s) == multiset(RecordFiles(dir))
    ensures KeyedByName(s)
  {
    forall i, j | 0 <= i < |s| && 0 <= j < |s| && s[i].name == s[j].name ensures s[i] == s[j] {
      assert s[i] in multiset(s) && s[j] in multiset(s);
      assert s[i] in RecordFiles(dir) && s[j] in RecordFiles(dir);
      var p :| 0 <= p < |dir| && dir[p] == s[i];
      var q :| 0 <= q < |dir| && dir[q] == s[j];
      assert p == q;
    }
  }

  /** The sorted record list is fixed by the directory: a listing has
      distinct names, so any two sorted arrangements of its record files
      coincide, and with them what `Pipeline` computes. */
  lemma SortedRecordsDetermined(dir: seq<Entry>, s: seq<Entry>, t: seq<Entry>)
    requires DistinctNames(dir)
    requires SortedByName(s) && multiset(s) == multiset(RecordFiles(dir))
    requires SortedByName(t) && multiset(t) == multiset(RecordFiles(dir))
    ensures s == t
  {
    ListedRecordsKeyed(dir, s);
    SortedPermutationUnique(s, t);
  }

  /** The record files of the listing, copied into an array and sorted by
      name; when the listing's names are distinct, no other arrangement is
      sorted. */
  method SortedRecordFiles(dir: seq<Entry>) returns (sorted: seq<Entry>)
    ensures SortedByName(sorted) && multiset(sorted) == multiset(RecordFiles(dir))
    ensures AllRecordNames(sorted)
    ensures DistinctNames(dir) ==>
              forall other :: SortedByName(other) && multiset(other) == multiset(RecordFiles(dir)) ==> other == sorted
  {
    var rcdFiles := SelectRecordFiles(dir);
    var a := new Entry[|rcdFiles|];
    forall i | 0 <= i < |rcdFiles| {
      a[i] := rcdFiles[i];
    }
    assert a[..] == rcdFiles;
    SortByName(a);
    sorted := a[..];
    SelectedPermutation(sorted, dir);
    if DistinctNames(dir) {
      forall other | SortedByName(other) && multiset(other) == multiset(RecordFiles(dir)) ensures other == sorted {
        SortedRecordsDetermined(dir, other, sorted);
      }
    }
  }

  /** `main`.  `records` is the sorted list of record files, whenever the
      run gets as far as listing them, and empty otherwise. */
  method Run(args: seq<string>, dir: seq<Entry>) returns (r: RunResult, records: seq<Entry>)
    ensures AllRecordNames(records)
    ensures DefinitionsLoad(args, dir) ==>
              SortedByName(records) && multiset(records) == multiset(RecordFiles(dir))
    ensures DefinitionsLoad(args, dir) && DistinctNames(dir) ==>
              forall other :: SortedByName(other) && multiset(other) == multiset(RecordFiles(dir)) ==> other == records
    ensures Pipeline(args, dir, records).Err? ==> r == Stopped(Pipeline(args, dir, records).stop)
    ensures Pipeline(args, dir, records).Ok? ==>
              && r.Written?
              && (exists order :: ListsInOrder(r.branchOut, order, Pipeline(args, dir, records).value.0))
              && (exists order :: ListsInOrder(r.commodityOut, order, Pipeline(args, dir, records).value.1))
  {
    records := [];
    if |args| != 1 {
      return Stopped(Printed(UnknownError)), records;
    }
    var branch := new CodeTable();
    var commodity := new CodeTable();
    var outcome := ReadFile(Branches, dir, branch);
    if outcome.Fail? {
      return Stopped(outcome.stop), records;
    }
    outcome := ReadFile(Commodities, dir, commodity);
    if outcome.Fail? {
      return Stopped(outcome.stop), records;
    }
    ReadDefinitionsZeroed(Branches, dir);
    ReadDefinitionsZeroed(Commodities, dir);

    var sorted := SortedRecordFiles(dir);
    records := sorted;

    var ok := CheckConsecutive(sorted);
    if !ok {
      return Stopped(Printed(NotConsecutive)), records;
    }
    outcome := Aggregate(sorted, branch, commodity);
    if outcome.Fail? {
      return Stopped(outcome.stop), records;
    }
    var branchOut, branchOrder := WriteFile(branch.Snapshot());
    var commodityOut, commodityOrder := WriteFile(commodity.Snapshot());
    r := Written(branchOut, commodityOut);
  }
}
