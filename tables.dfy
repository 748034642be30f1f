/** The in-memory state of the tool: for each code domain (branches,
    commodities) a map from code to display name and a map from code to
    running total, and the directory the tool reads. */
module Tables {

  import opened Outcomes

  /** A running total must stay below ten digits. */
  const Bound: int := 10_000_000_000

  /** The largest Java long. */
  const LongMax: int := 0x7fff_ffff_ffff_ffff

  /** An entry of the working directory: its name, whether it is a regular
      file, and the lines a BufferedReader would read from it. */
  datatype Entry = Entry(name: string, isFile: bool, lines: seq<string>)

  /** `new File(dir, name)`: the first entry of the listing with that name. */
  function Lookup(dir: seq<Entry>, name: string): (r: Option<Entry>)
    ensures r.Some? ==> r.value in dir && r.value.name == name
    ensures r.None? ==> forall i :: 0 <= i < |dir| ==> dir[i].name != name
  {
    if dir == [] then None
    else if dir[0].name == name then Some(dir[0])
    else Lookup(dir[1..], name)
  }

  /** The value held by the two HashMaps of one domain. */
  datatype Table = Table(names: map<string, string>, sales: map<string, int>)

  /** Both maps have the same codes. */
  predicate Aligned(t: Table) {
    t.names.Keys == t.sales.Keys
  }

  /** Every total is a ten-digit-or-shorter non-negative amount. */
  predicate TotalsInRange(t: Table) {
    forall code :: code in t.sales ==> 0 <= t.sales[code] < Bound
  }

  /** Every code and every name is free of commas and every name is
      non-empty, as holds for anything a definition line splits into. */
  predicate Printable(t: Table) {
    forall code :: code in t.names ==> ',' !in code && ',' !in t.names[code] && t.names[code] != ""
  }

  /** The two HashMaps of one domain, owned by `main` and filled in place by
      the loader and the aggregator. */
  class CodeTable {
    var names: map<string, string>
    var sales: map<string, int>

    constructor ()
      ensures names == map[] && sales == map[]
    {
      names := map[];
      sales := map[];
    }

    function Snapshot(): Table
      reads this
    {
      Table(names, sales)
    }
  }

  /** The sum of all totals of a map. */
  ghost function MapSum(m: map<string, int>): int
    decreases |m.Keys|
  {
    if m.Keys == {} then 0
    else
      var k :| k in m.Keys;
      assert |(m - {k}).Keys| < |m.Keys| by {
        assert (m - {k}).Keys == m.Keys - {k};
      }
      m[k] + MapSum(m - {k})
  }

  /** Any key may be taken out first. */
  lemma {:induction false} MapSumRemove(m: map<string, int>, k: string)
    requires k in m
    ensures MapSum(m) == m[k] + MapSum(m - {k})
    decreases |m.Keys|
  {
    var j :| j in m.Keys && MapSum(m) == m[j] + MapSum(m - {j});
    if j != k {
      assert (m - {j}).Keys == m.Keys - {j};
      assert (m - {k}).Keys == m.Keys - {k};
      MapSumRemove(m - {j}, k);
      MapSumRemove(m - {k}, j);
      assert m - {j} - {k} == m - {k} - {j};
    }
  }

  lemma MapSumUpdate(m: map<string, int>, k: string, v: int)
    requires k in m
    ensures MapSum(m[k := v]) == MapSum(m) - m[k] + v
  {
    MapSumRemove(m, k);
    MapSumRemove(m[k := v], k);
    assert m[k := v] - {k} == m - {k};
  }

  lemma {:induction false} MapSumZero(m: map<string, int>)
    requires forall k :: k in m ==> m[k] == 0
    ensures MapSum(m) == 0
    decreases |m.Keys|
  {
    if m.Keys != {} {
      var k :| k in m.Keys;
      MapSumRemove(m, k);
      assert (m - {k}).Keys == m.Keys - {k};
      MapSumZero(m - {k});
    }
  }
}
