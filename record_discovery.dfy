/** Finding the sales-record files of the working directory: keep the regular
    files whose name matches the record pattern, sort them by name, and
    demand that their eight-digit serial numbers run without a gap. */
module RecordDiscovery {

  import opened JavaText
  import opened Tables

  /** `name.matches("^[0-9]{8}.rcd$")`.  The dot is not escaped, so the ninth
      character may be anything a regex `.` matches: any char but a line
      terminator, not just a period. */
  predicate IsRecordFileName(name: string) {
    && |name| == 12
    && (forall i :: 0 <= i < 8 ==> IsAsciiDigit(name[i]))
    && !IsLineTerminator(name[8])
    && name[9..] == "rcd"
  }

  /** The unescaped dot: a period, a letter or a hyphen all pass as the
      ninth character, a line feed does not. */
  lemma DotIsUnescaped()
    ensures IsRecordFileName("00000001.rcd")
    ensures IsRecordFileName("00000001xrcd") && IsRecordFileName("00000001-rcd")
    ensures !IsRecordFileName("00000001\nrcd") && !IsRecordFileName("0000001.rcd")
  {
  }

  predicate Selected(e: Entry) {
    e.isFile && IsRecordFileName(e.name)
  }

  /** The entries the filtering loop keeps, in listing order. */
  function RecordFiles(files: seq<Entry>): (r: seq<Entry>)
    ensures |r| <= |files|
    ensures forall e :: e in r <==> e in files && Selected(e)
    ensures forall e :: multiset(r)[e] == if Selected(e) then multiset(files)[e] else 0
  {
    if files == [] then []
    else
      var last := files[|files| - 1];
      var init := files[..|files| - 1];
      assert files == init + [last];
      assert multiset(files) == multiset(init) + multiset{last};
      RecordFiles(init) + if Selected(last) then [last] else []
  }

  /** The loop that fills `rcdFiles` from the directory listing. */
  method SelectRecordFiles(files: seq<Entry>) returns (rcdFiles: seq<Entry>)
    ensures rcdFiles == RecordFiles(files)
  {
    rcdFiles := [];
    for i := 0 to |files|
      invariant rcdFiles == RecordFiles(files[..i])
    {
      assert files[..i + 1][..i] == files[..i];
      if files[i].isFile && IsRecordFileName(files[i].name) {
        rcdFiles := rcdFiles + [files[i]];
      }
    }
    assert files[..|files|] == files;
  }

  /** Neighbouring entries are in `File.compareTo` order. */
  predicate SortedByName(s: seq<Entry>) {
    forall i :: 0 < i < |s| ==> NameLe(s[i - 1].name, s[i].name)
  }

  /** The first n entries are in name order. */
  predicate SortedPrefix(s: seq<Entry>, n: nat) {
    forall k :: 0 < k < n && k < |s| ==> NameLe(s[k - 1].name, s[k].name)
  }

  /** `Collections.sort(rcdFiles)`, as an insertion sort in place. */
  method SortByName(a: array<Entry>)
    modifies a
    ensures SortedByName(a[..])
    ensures multiset(a[..]) == multiset(old(a[..]))
  {
    var i := 1;
    while i < a.Length
      invariant a.Length == 0 || 1 <= i <= a.Length
      invariant SortedPrefix(a[..], i)
      invariant multiset(a[..]) == multiset(old(a[..]))
    {
      InsertIntoSorted(a, i);
      i := i + 1;
    }
  }

  /** Moves a[i] left until a[..i + 1] is in name order. */
  method InsertIntoSorted(a: array<Entry>, i: nat)
    requires i < a.Length
    requires SortedPrefix(a[..], i)
    modifies a
    ensures SortedPrefix(a[..], i + 1)
    ensures a[i + 1..] == old(a[i + 1..])
    ensures multiset(a[..]) == multiset(old(a[..]))
  {
    var j := i;
    while j > 0 && !NameLe(a[j - 1].name, a[j].name)
      invariant 0 <= j <= i
      invariant Inserting(a[..], i, j)
      invariant a[i + 1..] == old(a[i + 1..])
      invariant multiset(a[..]) == multiset(old(a[..]))
    {
      ghost var before := a[..];
      InsertionStep(before, i, j);
      a[j - 1], a[j] := a[j], a[j - 1];
      assert a[..] == Swapped(before, j);
      j := j - 1;
    }
    InsertionDone(a[..], i, j);
  }

  /** The state of the insertion loop: the element being inserted stands at
      j; the elements before it and the ones after it up to i are in order,
      and its two neighbours are in order with each other. */
  predicate Inserting(s: seq<Entry>, i: nat, j: nat)
    requires j <= i < |s|
  {
    && SortedPrefix(s, j)
    && (forall k :: j < k <= i ==> NameLe(s[k - 1].name, s[k].name))
    && (0 < j < i ==> NameLe(s[j - 1].name, s[j + 1].name))
  }

  /** The sequence with the entries at j - 1 and j exchanged. */
  function Swapped(s: seq<Entry>, j: nat): (r: seq<Entry>)
    requires 0 < j < |s|
    ensures |r| == |s| && r[j - 1] == s[j] && r[j] == s[j - 1]
    ensures forall k :: 0 <= k < |s| && k != j - 1 && k != j ==> r[k] == s[k]
  {
    s[j - 1 := s[j]][j := s[j - 1]]
  }

  /** One exchange moves the element one place left and keeps the loop's
      state. */
  lemma InsertionStep(s: seq<Entry>, i: nat, j: nat)
    requires j <= i < |s| && 0 < j
    requires Inserting(s, i, j) && !NameLe(s[j - 1].name, s[j].name)
    ensures Inserting(Swapped(s, j), i, j - 1)
    ensures multiset(Swapped(s, j)) == multiset(s)
  {
    NameLeTotal(s[j - 1].name, s[j].name);
  }

  /** When the element stops, the whole prefix up to i is in order. */
  lemma InsertionDone(s: seq<Entry>, i: nat, j: nat)
    requires j <= i < |s|
    requires Inserting(s, i, j) && (j == 0 || NameLe(s[j - 1].name, s[j].name))
    ensures SortedPrefix(s, i + 1)
  {
  }

  /** No two entries share a name, as in one directory listing. */
  predicate DistinctNames(s: seq<Entry>) {
    forall i, j :: 0 <= i < j < |s| ==> s[i].name != s[j].name
  }

  /** Entries of the same name are the same entry (repeats allowed). */
  predicate KeyedByName(s: seq<Entry>) {
    forall i, j :: 0 <= i < |s| && 0 <= j < |s| && s[i].name == s[j].name ==> s[i] == s[j]
  }

  /** The sortedness of neighbours carries over to every later element. */
  lemma {:induction false} SortedEverywhere(s: seq<Entry>, i: nat, j: nat)
    requires SortedByName(s)
    requires i < j < |s|
    ensures NameLe(s[i].name, s[j].name)
    decreases j - i
  {
    if i + 1 < j {
      SortedEverywhere(s, i + 1, j);
      NameLeTransitive(s[i].name, s[i + 1].name, s[j].name);
    }
  }

  /** Sorting entries in which a name identifies its entry has only one
      possible result, so the sorted list depends on the listing's contents
      and not on its order. */
  lemma {:induction false} SortedPermutationUnique(s: seq<Entry>, t: seq<Entry>)
    requires SortedByName(s) && SortedByName(t)
    requires multiset(s) == multiset(t)
    requires KeyedByName(s)
    ensures s == t
    decreases |s|
  {
    if s != [] {
      HeadsAgree(s, t);
      TailsAgree(s, t);
      SortedPermutationUnique(s[1..], t[1..]);
      assert s == [s[0]] + s[1..] && t == [t[0]] + t[1..];
    }
  }

  /** Two sorted arrangements of the same entries, a name identifying its
      entry, start with the same entry: the one whose name comes first. */
  lemma HeadsAgree(s: seq<Entry>, t: seq<Entry>)
    requires SortedByName(s) && SortedByName(t)
    requires multiset(s) == multiset(t)
    requires KeyedByName(s)
    requires s != []
    ensures t != [] && t[0] == s[0]
  {
    assert s[0] in multiset(t);
    var k :| 0 <= k < |t| && t[k] == s[0];
    assert t[0] in multiset(s);
    var m :| 0 <= m < |s| && s[m] == t[0];
    if m != 0 {
      SortedEverywhere(s, 0, m);
      if k != 0 {
        SortedEverywhere(t, 0, k);
      }
      NameLeAntisymmetric(s[0].name, s[m].name);
    }
  }

  /** Removing the common first entry leaves two sorted arrangements of the
      same entries. */
  lemma TailsAgree(s: seq<Entry>, t: seq<Entry>)
    requires SortedByName(s) && SortedByName(t)
    requires multiset(s) == multiset(t)
    requires KeyedByName(s)
    requires s != [] && t != [] && t[0] == s[0]
    ensures SortedByName(s[1..]) && SortedByName(t[1..]) && KeyedByName(s[1..])
    ensures multiset(s[1..]) == multiset(t[1..])
  {
    assert s == [s[0]] + s[1..] && t == [t[0]] + t[1..];
    assert multiset(s[1..]) == multiset(s) - multiset{s[0]};
    assert multiset(t[1..]) == multiset(t) - multiset{s[0]};
    SortedTail(s);
    SortedTail(t);
    KeyedTail(s);
  }

  lemma SortedTail(s: seq<Entry>)
    requires SortedByName(s) && s != []
    ensures SortedByName(s[1..])
  {
    forall i | 0 < i < |s| - 1 ensures NameLe(s[1..][i - 1].name, s[1..][i].name) {
      assert s[1..][i - 1] == s[i] && s[1..][i] == s[i + 1];
    }
  }

  lemma KeyedTail(s: seq<Entry>)
    requires KeyedByName(s) && s != []
    ensures KeyedByName(s[1..])
  {
    forall i, j | 0 <= i < |s| - 1 && 0 <= j < |s| - 1 && s[1..][i].name == s[1..][j].name
      ensures s[1..][i] == s[1..][j]
    {
      assert s[1..][i] == s[i + 1] && s[1..][j] == s[j + 1];
    }
  }

  /** `Integer.parseInt(name.substring(0, 8))`: at most eight digits, so it
      always fits in an `int`. */
  function Serial(name: string): (serial: nat)
    requires IsRecordFileName(name)
    ensures serial < 100_000_000
  {
    var digits := name[..8];
    assert AllDigits(digits) by {
      forall i | 0 <= i < |digits| ensures IsAsciiDigit(digits[i]) {
        assert digits[i] == name[i];
      }
    }
    DecimalValue(digits)
  }

  predicate AllRecordNames(s: seq<Entry>) {
    forall i :: 0 <= i < |s| ==> IsRecordFileName(s[i].name)
  }

  /** Every neighbouring pair of serial numbers differs by exactly one. */
  predicate Consecutive(s: seq<Entry>)
    requires AllRecordNames(s)
  {
    forall i :: 0 <= i < |s| - 1 ==> Serial(s[i + 1].name) - Serial(s[i].name) == 1
  }

  /** The loop over neighbouring pairs of the sorted list; false is the
      source's `NOT_CONSECUTIVE_NUMBERS` exit. */
  method CheckConsecutive(rcdFiles: seq<Entry>) returns (ok: bool)
    requires AllRecordNames(rcdFiles)
    ensures ok == Consecutive(rcdFiles)
  {
    var i := 0;
    while i < |rcdFiles| - 1
      invariant 0 <= i <= if |rcdFiles| == 0 then 0 else |rcdFiles| - 1
      invariant forall k :: 0 <= k < i ==> Serial(rcdFiles[k + 1].name) - Serial(rcdFiles[k].name) == 1
    {
      var former: int := Serial(rcdFiles[i].name);
      var latter: int := Serial(rcdFiles[i + 1].name);
      if latter - former != 1 {
        return false;
      }
      i := i + 1;
    }
    return true;
  }

  lemma {:induction false} ContiguousUpTo(s: seq<Entry>, i: nat)
    requires AllRecordNames(s) && Consecutive(s)
    requires i < |s|
    ensures Serial(s[i].name) == Serial(s[0].name) + i
  {
    if i > 0 {
      ContiguousUpTo(s, i - 1);
    }
  }

  /** The neighbour check accepts a list exactly when its serial numbers are
      a gap-free run starting at the first one; in particular an empty or
      one-element list is always accepted. */
  lemma ConsecutiveIffContiguous(s: seq<Entry>)
    requires AllRecordNames(s)
    ensures Consecutive(s) <==> forall i :: 0 <= i < |s| ==> Serial(s[i].name) == Serial(s[0].name) + i
  {
    if Consecutive(s) {
      forall i | 0 <= i < |s| ensures Serial(s[i].name) == Serial(s[0].name) + i {
        ContiguousUpTo(s, i);
      }
    }
  }

  /** Two record files with the same serial number, wherever they stand,
      make the check fail. */
  lemma RepeatedSerialNotConsecutive(s: seq<Entry>, i: nat, j: nat)
    requires AllRecordNames(s)
    requires i < j < |s| && Serial(s[i].name) == Serial(s[j].name)
    ensures !Consecutive(s)
  {
    if Consecutive(s) {
      ContiguousUpTo(s, i);
      ContiguousUpTo(s, j);
    }
  }

  // ---------------------------------------------------------------------
  // Name order and serial order agree.

  /** The value of a digit string read from its most significant digit. */
  lemma {:induction false} DecimalValueFront(x: string)
    requires AllDigits(x) && x != []
    ensures AllDigits(x[1..])
    ensures DecimalValue(x) == DigitValue(x[0]) * Pow10(|x| - 1) + DecimalValue(x[1..])
    decreases |x|
  {
    var n := |x|;
    assert AllDigits(x[1..]) by {
      forall i | 0 <= i < n - 1 ensures IsAsciiDigit(x[1..][i]) {
        assert x[1..][i] == x[i + 1];
      }
    }
    if n > 1 {
      var init := x[..n - 1];
      DecimalValueFront(init);
      assert init[1..] == x[1..][..n - 2];
      assert x[1..][n - 2] == x[n - 1];
      var d0 := DigitValue(x[0]);
      var p := Pow10(n - 2);
      var r := DecimalValue(init[1..]);
      var e := DigitValue(x[n - 1]);
      assert DecimalValue(x) == 10 * DecimalValue(init) + e;
      assert DecimalValue(x[1..]) == 10 * r + e;
      ShiftDigit(d0, p, r, e);
    }
  }

  lemma ShiftDigit(d0: int, p: int, r: int, e: int)
    ensures 10 * (d0 * p + r) + e == d0 * (10 * p) + (10 * r + e)
  {
  }

  lemma LeadingDigitDominates(dx: nat, dy: nat, p: nat, rx: nat, ry: nat)
    requires dx < dy && rx < p
    ensures dx * p + rx <= dy * p + ry
  {
    assert dx * p + p == (dx + 1) * p;
    assert (dx + 1) * p <= dy * p;
  }

  /** On digit strings of equal length, `compareTo` order is numeric order. */
  lemma {:induction false} DigitsOrderMonotone(x: string, y: string)
    requires AllDigits(x) && AllDigits(y) && |x| == |y|
    requires NameLe(x, y)
    ensures DecimalValue(x) <= DecimalValue(y)
    decreases |x|
  {
    if x != [] {
      DecimalValueFront(x);
      DecimalValueFront(y);
      var p := Pow10(|x| - 1);
      if x[0] == y[0] {
        DigitsOrderMonotone(x[1..], y[1..]);
      } else {
        LeadingDigitDominates(DigitValue(x[0]), DigitValue(y[0]), p, DecimalValue(x[1..]), DecimalValue(y[1..]));
      }
    }
  }

  lemma {:induction false} NameLePrefix(a: string, b: string, n: nat)
    requires n <= |a| && n <= |b| && NameLe(a, b)
    ensures NameLe(a[..n], b[..n])
    decreases n
  {
    if n > 0 && a[0] == b[0] {
      NameLePrefix(a[1..], b[1..], n - 1);
      assert a[..n][1..] == a[1..][..n - 1];
      assert b[..n][1..] == b[1..][..n - 1];
    }
  }

  /** Sorting record names lexicographically sorts them by serial number,
      because the serial is a fixed-width zero-padded prefix. */
  lemma NameOrderIsSerialOrder(a: string, b: string)
    requires IsRecordFileName(a) && IsRecordFileName(b)
    ensures NameLe(a, b) ==> Serial(a) <= Serial(b)
    ensures Serial(a) < Serial(b) ==> NameLe(a, b)
  {
    assert AllDigits(a[..8]) && AllDigits(b[..8]) by {
      forall i | 0 <= i < 8 ensures IsAsciiDigit(a[..8][i]) && IsAsciiDigit(b[..8][i]) {
        assert a[..8][i] == a[i] && b[..8][i] == b[i];
      }
    }
    if NameLe(a, b) {
      NameLePrefix(a, b, 8);
      DigitsOrderMonotone(a[..8], b[..8]);
    }
    if !NameLe(a, b) {
      NameLeTotal(a, b);
      NameLePrefix(b, a, 8);
      DigitsOrderMonotone(b[..8], a[..8]);
    }
  }
}
