/** The parts of java.lang.String that the sales tool relies on: the character
    classes of its regular expressions, `split(",")`, decimal parsing and
    printing of numbers, and `compareTo`.  Strings are sequences of chars. */
module JavaText {

  /** `[0-9]` in a Java regular expression: the ASCII digits only. */
  predicate IsAsciiDigit(c: char) {
    '0' <= c <= '9'
  }

  /** `[A-Za-z0-9]` in a Java regular expression. */
  predicate IsAsciiAlnum(c: char) {
    IsAsciiDigit(c) || 'A' <= c <= 'Z' || 'a' <= c <= 'z'
  }

  /** The characters that `.` does not match in a Java regular expression
      compiled without DOTALL or UNIX_LINES. */
  predicate IsLineTerminator(c: char) {
    c == '\n' || c == '\r' || c == '\U{85}' || c == '\U{2028}' || c == '\U{2029}'
  }

  /** `s.matches("^[0-9]+$")` without the non-emptiness: every char is a digit. */
  predicate AllDigits(s: string) {
    forall i :: 0 <= i < |s| ==> IsAsciiDigit(s[i])
  }

  function DigitValue(c: char): (d: nat)
    requires IsAsciiDigit(c)
    ensures d < 10
  {
    (c as int) - ('0' as int)
  }

  function DigitChar(d: nat): (c: char)
    requires d < 10
    ensures IsAsciiDigit(c) && DigitValue(c) == d
  {
    ('0' as int + d) as char
  }

  /** The number a string of decimal digits denotes (leading zeros allowed,
      as `Integer.parseInt` and `Long.parseLong` allow them). */
  function DecimalValue(s: string): (v: nat)
    requires AllDigits(s)
    ensures v < Pow10(|s|)
  {
    if s == [] then 0 else 10 * DecimalValue(s[..|s| - 1]) + DigitValue(s[|s| - 1])
  }

  function Pow10(n: nat): (p: nat)
    ensures p >= 1
  {
    if n == 0 then 1 else 10 * Pow10(n - 1)
  }

  /** `Long.toString(n)` for a non-negative n: the shortest decimal digits of n. */
  function Decimal(n: nat): (s: string)
    ensures s != [] && AllDigits(s)
    ensures DecimalValue(s) == n
    ensures |s| == 1 || s[0] != '0'
  {
    if n < 10 then [DigitChar(n)]
    else
      var init := Decimal(n / 10);
      assert (init + [DigitChar(n % 10)])[..|init|] == init;
      init + [DigitChar(n % 10)]
  }

  /** `String.valueOf(v)` for a Java long value v. */
  function LongText(v: int): (s: string)
    ensures v >= 0 ==> AllDigits(s) && DecimalValue(s) == v
    ensures v < 0 ==> s != [] && s[0] == '-' && AllDigits(s[1..]) && DecimalValue(s[1..]) == -v
  {
    if v < 0 then
      var digits := Decimal(-v);
      assert ("-" + digits)[1..] == digits;
      "-" + digits
    else Decimal(v)
  }

  // ---------------------------------------------------------------------
  // String.split(",")

  /** The pieces of s between its commas, empty pieces included: the raw
      result of splitting before any trailing empties are dropped. */
  function Fields(s: string): (r: seq<string>)
    ensures |r| >= 1
    ensures forall i :: 0 <= i < |r| ==> ',' !in r[i]
  {
    if s == [] then [""]
    else if s[0] == ',' then [""] + Fields(s[1..])
    else
      var rest := Fields(s[1..]);
      [[s[0]] + rest[0]] + rest[1..]
  }

  /** Glues pieces back together with a comma between neighbours. */
  function Join(fs: seq<string>): string
    requires |fs| >= 1
  {
    if |fs| == 1 then fs[0] else fs[0] + "," + Join(fs[1..])
  }

  /** How many pieces at the end of fs are empty. */
  function TrailingEmptyCount(fs: seq<string>): (k: nat)
    ensures k <= |fs|
    ensures forall j :: |fs| - k <= j < |fs| ==> fs[j] == ""
    ensures k < |fs| ==> fs[|fs| - k - 1] != ""
  {
    if fs != [] && fs[|fs| - 1] == "" then 1 + TrailingEmptyCount(fs[..|fs| - 1]) else 0
  }

  /** `s.split(",")`: if s holds no comma, s itself; otherwise the pieces
      between commas with every trailing empty piece removed. */
  function JavaSplit(s: string): (r: seq<string>)
    ensures forall i :: 0 <= i < |r| ==> ',' !in r[i]
    ensures ',' !in s ==> r == [s]
    ensures ',' in s && r != [] ==> r[|r| - 1] != ""
  {
    if ',' !in s then [s]
    else
      var fs := Fields(s);
      fs[..|fs| - TrailingEmptyCount(fs)]
  }

  function Commas(k: nat): string {
    seq(k, _ => ',')
  }

  function Empties(k: nat): seq<string> {
    seq(k, _ => "")
  }

  lemma {:induction false} JoinFields(s: string)
    ensures Join(Fields(s)) == s
    decreases |s|
  {
    if s == [] {
    } else if s[0] == ',' {
      JoinFields(s[1..]);
      assert Fields(s) == [""] + Fields(s[1..]);
      assert Fields(s)[1..] == Fields(s[1..]);
    } else {
      var rest := Fields(s[1..]);
      JoinFields(s[1..]);
      var fs := [[s[0]] + rest[0]] + rest[1..];
      assert Fields(s) == fs;
      if |rest| == 1 {
      } else {
        assert fs[1..] == rest[1..];
        assert Join(rest) == rest[0] + "," + Join(rest[1..]);
        assert Join(fs) == [s[0]] + rest[0] + "," + Join(rest[1..]);
        assert s == [s[0]] + s[1..];
      }
    }
  }

  lemma {:induction false} FieldsOfCommaFree(a: string)
    requires ',' !in a
    ensures Fields(a) == [a]
    decreases |a|
  {
    if a != [] {
      assert a[0] in a;
      assert ',' !in a[1..] by {
        forall i | 0 <= i < |a[1..]| ensures a[1..][i] != ',' {
          assert a[1..][i] == a[i + 1];
        }
      }
      FieldsOfCommaFree(a[1..]);
      assert [a[0]] + a[1..] == a;
    }
  }

  lemma {:induction false} FieldsAfterCommaFree(a: string, b: string)
    requires ',' !in a
    ensures Fields(a + "," + b) == [a] + Fields(b)
    decreases |a|
  {
    if a == [] {
      assert a + "," + b == [','] + b;
      assert (a + "," + b)[1..] == b;
    } else {
      var s := a + "," + b;
      assert s[0] == a[0];
      assert a[0] in a;
      assert ',' !in a[1..] by {
        forall i | 0 <= i < |a[1..]| ensures a[1..][i] != ',' {
          assert a[1..][i] == a[i + 1];
        }
      }
      assert s[1..] == a[1..] + "," + b;
      FieldsAfterCommaFree(a[1..], b);
      var rest := Fields(s[1..]);
      assert rest == [a[1..]] + Fields(b);
      assert [s[0]] + rest[0] == a;
      assert rest[1..] == Fields(b);
    }
  }

  /** Splitting a join of comma-free pieces gives the pieces back. */
  lemma {:induction false} FieldsJoin(fs: seq<string>)
    requires |fs| >= 1
    requires forall i :: 0 <= i < |fs| ==> ',' !in fs[i]
    ensures Fields(Join(fs)) == fs
    decreases |fs|
  {
    if |fs| == 1 {
      FieldsOfCommaFree(fs[0]);
    } else {
      FieldsJoin(fs[1..]);
      FieldsAfterCommaFree(fs[0], Join(fs[1..]));
      assert [fs[0]] + fs[1..] == fs;
    }
  }

  lemma {:induction false} JoinEmpties(n: string, k: nat)
    ensures Join([n] + Empties(k)) == n + Commas(k)
    decreases k
  {
    if k > 0 {
      var tail := Empties(k - 1);
      assert Empties(k) == [""] + tail;
      assert ([n] + Empties(k))[1..] == [""] + tail;
      JoinEmpties("", k - 1);
      assert Commas(k) == "," + Commas(k - 1);
    } else {
      assert [n] + Empties(k) == [n];
      assert Commas(k) == "";
    }
  }

  /** A two-field split only comes from a line `c,n` (n non-empty), possibly
      followed by commas, whose fields hold no comma. */
  lemma SplitTwoShape(line: string, c: string, n: string)
    requires JavaSplit(line) == [c, n]
    ensures ',' !in c && ',' !in n && n != ""
    ensures exists k: nat :: line == c + "," + n + Commas(k)
  {
    assert ',' in line;
    var fs := Fields(line);
    var k := TrailingEmptyCount(fs);
    assert fs[..|fs| - k] == [c, n];
    assert |fs| == k + 2;
    assert fs == [c, n] + Empties(k) by {
      forall j | 0 <= j < |fs| ensures fs[j] == ([c, n] + Empties(k))[j] {
        if j < 2 { assert fs[j] == fs[..|fs| - k][j]; }
      }
    }
    assert fs[1] == n && fs[0] == c;
    assert n != "" by { assert fs[|fs| - k - 1] == n; }
    JoinFields(line);
    assert [c, n] + Empties(k) == [c] + ([n] + Empties(k));
    JoinEmpties(n, k);
    assert line == c + "," + n + Commas(k);
  }

  /** Conversely, such a line splits into exactly its two fields. */
  lemma SplitTwoOf(c: string, n: string, k: nat)
    requires ',' !in c && ',' !in n && n != ""
    ensures JavaSplit(c + "," + n + Commas(k)) == [c, n]
  {
    var line := c + "," + n + Commas(k);
    var pieces := [c, n] + Empties(k);
    assert pieces == [c] + ([n] + Empties(k));
    JoinEmpties(n, k);
    assert Join(pieces) == line;
    assert forall i :: 0 <= i < |pieces| ==> ',' !in pieces[i] by {
      forall i | 0 <= i < |pieces| ensures ',' !in pieces[i] {
        if i >= 2 { assert pieces[i] == ""; }
      }
    }
    FieldsJoin(pieces);
    assert line[|c|] == ',';
    var t := TrailingEmptyCount(pieces);
    assert pieces[1] == n;
    assert forall j :: 2 <= j < |pieces| ==> pieces[j] == "";
    assert t == k;
    assert pieces[..|pieces| - k] == [c, n];
  }

  /** Java keeps a two-field split exactly for a line made of a field, a
      comma, a non-empty comma-free field and any number of trailing commas. */
  lemma SplitIntoTwo(line: string, c: string, n: string)
    ensures JavaSplit(line) == [c, n] <==>
              ',' !in c && ',' !in n && n != "" &&
              exists k: nat :: line == c + "," + n + Commas(k)
  {
    if JavaSplit(line) == [c, n] {
      SplitTwoShape(line, c, n);
    }
    if ',' !in c && ',' !in n && n != "" && exists k: nat :: line == c + "," + n + Commas(k) {
      var k: nat :| line == c + "," + n + Commas(k);
      SplitTwoOf(c, n, k);
    }
  }

  /** Splitting a summary line `a,b,digits` gives its three fields back. */
  lemma SplitThree(a: string, b: string, d: string)
    requires ',' !in a && ',' !in b && ',' !in d && d != ""
    ensures JavaSplit(a + "," + b + "," + d) == [a, b, d]
  {
    var pieces := [a, b, d];
    assert Join([b, d]) == b + "," + d;
    assert Join(pieces) == a + "," + (b + "," + d);
    assert a + "," + b + "," + d == a + "," + (b + "," + d);
    FieldsJoin(pieces);
    var line := a + "," + b + "," + d;
    assert line[|a|] == ',';
    assert TrailingEmptyCount(pieces) == 0;
  }

  // ---------------------------------------------------------------------
  // String.compareTo

  /** `a.compareTo(b) <= 0`: a comes first in char-by-char order, a proper
      prefix coming before the longer string. */
  predicate NameLe(a: string, b: string)
    decreases |a|
  {
    if a == [] then true
    else if b == [] then false
    else if a[0] != b[0] then a[0] < b[0]
    else NameLe(a[1..], b[1..])
  }

  lemma {:induction false} NameLeTotal(a: string, b: string)
    ensures NameLe(a, b) || NameLe(b, a)
    decreases |a|
  {
    if a != [] && b != [] && a[0] == b[0] {
      NameLeTotal(a[1..], b[1..]);
    }
  }

  lemma {:induction false} NameLeAntisymmetric(a: string, b: string)
    requires NameLe(a, b) && NameLe(b, a)
    ensures a == b
    decreases |a|
  {
    if a != [] {
      NameLeAntisymmetric(a[1..], b[1..]);
      assert a == [a[0]] + a[1..] && b == [b[0]] + b[1..];
    }
  }

  lemma {:induction false} NameLeTransitive(a: string, b: string, c: string)
    requires NameLe(a, b) && NameLe(b, c)
    ensures NameLe(a, c)
    decreases |a|
  {
    if a != [] && a[0] == b[0] && b[0] == c[0] {
      NameLeTransitive(a[1..], b[1..], c[1..]);
    }
  }
}
