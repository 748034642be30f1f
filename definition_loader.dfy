/** Loading a definition file (`branch.lst` or `commodity.lst`) into the
    name map and the total map of its domain. */
module DefinitionLoader {

  import opened JavaText
  import opened Outcomes
  import opened Tables

  /** The two code domains; each carries its file name, its code pattern and
      its two messages. */
  datatype Domain = Branches | Commodities

  function ListFileName(d: Domain): string {
    match d
    case Branches => "branch.lst"
    case Commodities => "commodity.lst"
  }

  function MissingFailure(d: Domain): Failure {
    match d
    case Branches => BranchListMissing
    case Commodities => CommodityListMissing
  }

  function InvalidFailure(d: Domain): Failure {
    match d
    case Branches => BranchListInvalid
    case Commodities => CommodityListInvalid
  }

  /** `^[0-9]{3}$` for branches, `^[A-Za-z0-9]{8}$` for commodities. */
  predicate CodeMatches(d: Domain, code: string) {
    match d
    case Branches => |code| == 3 && forall i :: 0 <= i < 3 ==> IsAsciiDigit(code[i])
    case Commodities => |code| == 8 && forall i :: 0 <= i < 8 ==> IsAsciiAlnum(code[i])
  }

  /** One line of a definition file: split on commas, it must give exactly
      two fields, and the first must match the domain's pattern. */
  function ParseDefinitionLine(d: Domain, line: string): (r: Option<(string, string)>)
    ensures r.Some? ==> CodeMatches(d, r.value.0) && ',' !in r.value.1 && r.value.1 != ""
  {
    var items := JavaSplit(line);
    if |items| == 2 && CodeMatches(d, items[0]) then Some((items[0], items[1])) else None
  }

  predicate Accepted(d: Domain, line: string) {
    ParseDefinitionLine(d, line).Some?
  }

  function CodeOf(d: Domain, line: string): string
    requires Accepted(d, line)
  {
    ParseDefinitionLine(d, line).value.0
  }

  function NameOf(d: Domain, line: string): string
    requires Accepted(d, line)
  {
    ParseDefinitionLine(d, line).value.1
  }

  /** A line is accepted, as code c with name n, exactly when it reads
      `c,n` followed by zero or more commas, with c matching the pattern
      and n non-empty and comma-free. */
  lemma DefinitionLineAccepted(d: Domain, line: string, c: string, n: string)
    ensures ParseDefinitionLine(d, line) == Some((c, n)) <==>
              CodeMatches(d, c) && ',' !in n && n != "" &&
              exists k: nat :: line == c + "," + n + Commas(k)
  {
    SplitIntoTwo(line, c, n);
    if CodeMatches(d, c) {
      CodeIsCommaFree(d, c);
    }
  }

  lemma CodeIsCommaFree(d: Domain, c: string)
    requires CodeMatches(d, c)
    ensures ',' !in c
  {
  }

  /** The index of the first rejected line, or the number of lines when
      every line is accepted. */
  function FirstRejected(d: Domain, lines: seq<string>): (i: nat)
    ensures i <= |lines|
    ensures forall j :: 0 <= j < i ==> Accepted(d, lines[j])
    ensures i < |lines| ==> !Accepted(d, lines[i])
  {
    if lines == [] || !Accepted(d, lines[0]) then 0
    else 1 + FirstRejected(d, lines[1..])
  }

  /** The first rejected line is the one before which every line is
      accepted and which itself is not (or the end of the file). */
  lemma FirstRejectedAt(d: Domain, lines: seq<string>, i: nat)
    requires i <= |lines|
    requires forall j :: 0 <= j < i ==> Accepted(d, lines[j])
    requires i < |lines| ==> !Accepted(d, lines[i])
    ensures FirstRejected(d, lines) == i
  {
  }

  /** The table after `names.put(code, name)` and `sales.put(code, 0L)` for
      every line, in order. */
  function Fill(d: Domain, lines: seq<string>, t: Table): (filled: Table)
    requires forall j :: 0 <= j < |lines| ==> Accepted(d, lines[j])
    ensures Aligned(t) ==> Aligned(filled)
    ensures t.names.Keys <= filled.names.Keys && t.sales.Keys <= filled.sales.Keys
  {
    if lines == [] then t
    else
      var last := lines[|lines| - 1];
      assert Accepted(d, last);
      var before := Fill(d, lines[..|lines| - 1], t);
      Table(before.names[CodeOf(d, last) := NameOf(d, last)], before.sales[CodeOf(d, last) := 0])
  }

  /** Filling one more line puts that line's entries on top. */
  lemma FillOneMore(d: Domain, lines: seq<string>, i: nat, t: Table)
    requires i < |lines|
    requires forall j :: 0 <= j <= i ==> Accepted(d, lines[j])
    ensures Fill(d, lines[..i + 1], t) ==
              var before := Fill(d, lines[..i], t);
              Table(before.names[CodeOf(d, lines[i]) := NameOf(d, lines[i])],
                    before.sales[CodeOf(d, lines[i]) := 0])
  {
    assert lines[..i + 1][..i] == lines[..i];
    assert lines[..i + 1][i] == lines[i];
  }

  /** `readFile` on the lines of an existing definition file. */
  function LoadDefinitions(d: Domain, lines: seq<string>, t: Table): (r: Result<Table>)
    ensures r.Err? ==> r.stop == Printed(InvalidFailure(d))
    ensures r.Ok? && Aligned(t) ==> Aligned(r.value)
  {
    if FirstRejected(d, lines) == |lines| then Ok(Fill(d, lines, t))
    else Err(Printed(InvalidFailure(d)))
  }

  /** `readFile` as a whole: the file must exist, must open as a file, and
      every line must be accepted. */
  function ReadDefinitions(d: Domain, dir: seq<Entry>, t: Table): (r: Result<Table>)
    ensures r.Err? ==> r.stop in {Printed(MissingFailure(d)), Printed(UnknownError), Printed(InvalidFailure(d))}
    ensures r.Ok? ==> Lookup(dir, ListFileName(d)).Some? && Lookup(dir, ListFileName(d)).value.isFile
  {
    match Lookup(dir, ListFileName(d))
    case None => Err(Printed(MissingFailure(d)))
    case Some(file) =>
      if !file.isFile then Err(Printed(UnknownError))
      else LoadDefinitions(d, file.lines, t)
  }

  /** Loading succeeds exactly when every line is accepted, and a rejected
      line always reports the domain's invalid-format message. */
  lemma LoadSucceedsIffAllAccepted(d: Domain, lines: seq<string>, t: Table)
    ensures LoadDefinitions(d, lines, t).Ok? <==> forall j :: 0 <= j < |lines| ==> Accepted(d, lines[j])
    ensures LoadDefinitions(d, lines, t).Err? ==> LoadDefinitions(d, lines, t).stop == Printed(InvalidFailure(d))
  {
  }

  /** The codes that accepted lines define. */
  function Codes(d: Domain, lines: seq<string>): set<string>
    requires forall j :: 0 <= j < |lines| ==> Accepted(d, lines[j])
  {
    if lines == [] then {}
    else
      var last := lines[|lines| - 1];
      assert Accepted(d, last);
      Codes(d, lines[..|lines| - 1]) + {CodeOf(d, last)}
  }

  /** Filling adds exactly the defined codes to both maps, sets each of their
      totals to 0, and leaves every other entry as it was. */
  lemma {:induction false} FillEntries(d: Domain, lines: seq<string>, t: Table)
    requires forall j :: 0 <= j < |lines| ==> Accepted(d, lines[j])
    ensures Fill(d, lines, t).names.Keys == t.names.Keys + Codes(d, lines)
    ensures Fill(d, lines, t).sales.Keys == t.sales.Keys + Codes(d, lines)
    ensures forall code :: code in Codes(d, lines) ==> Fill(d, lines, t).sales[code] == 0
    ensures forall code :: code in t.names && code !in Codes(d, lines) ==>
              Fill(d, lines, t).names[code] == t.names[code]
    ensures forall code :: code in t.sales && code !in Codes(d, lines) ==>
              Fill(d, lines, t).sales[code] == t.sales[code]
    decreases |lines|
  {
    if lines != [] {
      FillEntries(d, lines[..|lines| - 1], t);
    }
  }

  /** A later line with the same code overwrites an earlier one: the name a
      code ends up with is the one on the last line defining it. */
  lemma {:induction false} FillLastWins(d: Domain, lines: seq<string>, t: Table, i: nat)
    requires forall j :: 0 <= j < |lines| ==> Accepted(d, lines[j])
    requires i < |lines|
    requires forall j :: i < j < |lines| ==> CodeOf(d, lines[j]) != CodeOf(d, lines[i])
    ensures CodeOf(d, lines[i]) in Fill(d, lines, t).names
    ensures Fill(d, lines, t).names[CodeOf(d, lines[i])] == NameOf(d, lines[i])
    decreases |lines|
  {
    var init := lines[..|lines| - 1];
    if i < |lines| - 1 {
      assert lines[i] == init[i];
      forall j | i < j < |init| ensures CodeOf(d, init[j]) != CodeOf(d, init[i]) {
        assert init[j] == lines[j];
      }
      FillLastWins(d, init, t, i);
    }
  }

  /** Every code and name the loader stores is comma-free, and every name
      is non-empty. */
  lemma {:induction false} FillKeepsPrintable(d: Domain, lines: seq<string>, t: Table)
    requires forall j :: 0 <= j < |lines| ==> Accepted(d, lines[j])
    requires Printable(t)
    ensures Printable(Fill(d, lines, t))
    decreases |lines|
  {
    if lines != [] {
      var last := lines[|lines| - 1];
      FillKeepsPrintable(d, lines[..|lines| - 1], t);
      DefinitionLineAccepted(d, last, CodeOf(d, last), NameOf(d, last));
      CodeIsCommaFree(d, CodeOf(d, last));
    }
  }

  /** After a successful load into fresh maps, both maps hold exactly the
      defined codes, every total is 0, and every code and name is
      printable. */
  lemma LoadedTableIsZeroed(d: Domain, lines: seq<string>, loaded: Table)
    requires LoadDefinitions(d, lines, Table(map[], map[])) == Ok(loaded)
    ensures Aligned(loaded) && TotalsInRange(loaded) && Printable(loaded)
    ensures forall code :: code in loaded.sales ==> loaded.sales[code] == 0
    ensures forall j :: 0 <= j < |lines| ==> Accepted(d, lines[j])
    ensures loaded.names.Keys == Codes(d, lines)
  {
    LoadSucceedsIffAllAccepted(d, lines, Table(map[], map[]));
    FillEntries(d, lines, Table(map[], map[]));
    FillKeepsPrintable(d, lines, Table(map[], map[]));
  }

  /** `readFile`: fills the caller's two maps from the domain's definition
      file.  On a rejected line the maps keep the entries of the lines
      before it, as in the source. */
  method ReadFile(d: Domain, dir: seq<Entry>, table: CodeTable) returns (outcome: Outcome)
    modifies table
    ensures outcome.Pass? <==> ReadDefinitions(d, dir, old(table.Snapshot())).Ok?
    ensures outcome.Pass? ==> table.Snapshot() == ReadDefinitions(d, dir, old(table.Snapshot())).value
    ensures outcome.Fail? ==> outcome.stop == ReadDefinitions(d, dir, old(table.Snapshot())).stop
    ensures match Lookup(dir, ListFileName(d))
            case Some(file) =>
              table.Snapshot() ==
                if file.isFile then Fill(d, file.lines[..FirstRejected(d, file.lines)], old(table.Snapshot()))
                else old(table.Snapshot())
            case None => table.Snapshot() == old(table.Snapshot())
  {
    var found := Lookup(dir, ListFileName(d));
    if found.None? {
      return Fail(Printed(MissingFailure(d)));
    }
    var file := found.value;
    if !file.isFile {
      return Fail(Printed(UnknownError));
    }
    var lines := file.lines;
    ghost var start := table.Snapshot();
    var i := 0;
    while i < |lines|
      invariant 0 <= i <= |lines|
      invariant forall j :: 0 <= j < i ==> Accepted(d, lines[j])
      invariant table.Snapshot() == Fill(d, lines[..i], start)
    {
      var parsed := ParseDefinitionLine(d, lines[i]);
      if parsed.None? {
        FirstRejectedAt(d, lines, i);
        return Fail(Printed(InvalidFailure(d)));
      }
      var (code, name) := parsed.value;
      FillOneMore(d, lines, i, start);
      table.names := table.names[code := name];
      table.sales := table.sales[code := 0];
      i := i + 1;
    }
    assert lines[..i] == lines;
    FirstRejectedAt(d, lines, i);
    outcome := Pass;
  }
}
