/** Field paths in validation reports: `employees[<index>].<name>`. */
module Paths {

  function Digit(d: nat): (c: char)
    requires d < 10
    ensures '0' <= c <= '9'
  {
    '0' + d as char
  }

  /** Decimal printing of an index. */
  function Decimal(n: nat): (s: string)
    ensures s != [] && forall k | 0 <= k < |s| :: '0' <= s[k] <= '9'
  {
    if n < 10 then [Digit(n)] else Decimal(n / 10) + [Digit(n % 10)]
  }

  function ParseDecimal(s: string): int {
    if s == [] then 0 else 10 * ParseDecimal(s[..|s| - 1]) + (s[|s| - 1] as int - '0' as int)
  }

  lemma {:induction false} DecimalParses(n: nat)
    ensures ParseDecimal(Decimal(n)) == n
  {
    if n < 10 {
      assert Decimal(n)[..0] == [];
    } else {
      DecimalParses(n / 10);
      assert Decimal(n)[..|Decimal(n)| - 1] == Decimal(n / 10);
    }
  }

  function EmployeePath(i: nat, name: string): string {
    "employees[" + Decimal(i) + "]." + name
  }

  /** An index is printed as its decimal numeral: digits that read back as it, and no leading zero. */
  lemma {:induction false} DecimalIsNumeral(n: nat)
    ensures ParseDecimal(Decimal(n)) == n
    ensures forall k | 0 <= k < |Decimal(n)| :: Decimal(n)[k] in "0123456789"
    ensures Decimal(n)[0] == '0' ==> n == 0 && |Decimal(n)| == 1
  {
    DecimalParses(n);
    if n < 10 {
    } else {
      DecimalIsNumeral(n / 10);
    }
    assert forall c: char | '0' <= c <= '9' :: c in "0123456789" by {
      forall c: char | '0' <= c <= '9'
        ensures c in "0123456789"
      {
        assert "0123456789"[c as int - '0' as int] == c;
      }
    }
  }

  /** A path is the employee's index in brackets, then the field's name. */
  lemma PathReads(i: nat, name: string)
    ensures exists d :: EmployeePath(i, name) == "employees[" + d + "]." + name && ParseDecimal(d) == i
    ensures EmployeePath(12, "ppsn") == "employees[12].ppsn"
  {
    DecimalParses(i);
    assert EmployeePath(i, name) == "employees[" + Decimal(i) + "]." + name;
    assert Decimal(12) == Decimal(1) + [Digit(2)] == "12";
  }

  /** A path names one employee and one field of it. */
  lemma PathIsInjective(i: nat, a: string, j: nat, b: string)
    requires EmployeePath(i, a) == EmployeePath(j, b)
    ensures i == j && a == b
  {
    var p, q, n := Decimal(i), Decimal(j), |"employees["|;
    assert EmployeePath(i, a) == "employees[" + (p + ("]." + a));
    assert EmployeePath(j, b) == "employees[" + (q + ("]." + b));
    assert p + ("]." + a) == EmployeePath(i, a)[n..] == EmployeePath(j, b)[n..] == q + ("]." + b);
    DigitsEndAtBracket(p, "]." + a, q, "]." + b);
    assert a == ("]." + a)[2..] == ("]." + b)[2..] == b;
    DecimalParses(i);
    DecimalParses(j);
  }

  lemma {:induction false} DigitsEndAtBracket(p: string, a: string, q: string, b: string)
    requires forall k | 0 <= k < |p| :: '0' <= p[k] <= '9'
    requires forall k | 0 <= k < |q| :: '0' <= q[k] <= '9'
    requires a != [] && a[0] == ']' && b != [] && b[0] == ']'
    requires p + a == q + b
    ensures p == q && a == b
  {
    assert (p + a)[0] == (q + b)[0];
    if p == [] {
      assert p + a == a;
      assert q == [];
      assert q + b == b;
    } else {
      assert (p + a)[0] == p[0];
      assert q != [];
      assert p[1..] + a == (p + a)[1..] == (q + b)[1..] == q[1..] + b;
      DigitsEndAtBracket(p[1..], a, q[1..], b);
      assert p == [p[0]] + p[1..] && q == [q[0]] + q[1..];
    }
  }

  // ---- Trimming ----

  predicate IsSpace(c: char) {
    || '\t' <= c <= '\r' || c == ' ' || c == '\U{85}' || c == '\U{A0}' || c == '\U{1680}'
    || '\U{2000}' <= c <= '\U{200A}' || c == '\U{2028}' || c == '\U{2029}' || c == '\U{202F}'
    || c == '\U{205F}' || c == '\U{3000}'
  }

  /** The white space of Unicode, character by character. */
  const WHITE_SPACE: string :=
    "\t\n\U{B}\U{C}\r \U{85}\U{A0}\U{1680}\U{2000}\U{2001}\U{2002}\U{2003}\U{2004}\U{2005}"
    + "\U{2006}\U{2007}\U{2008}\U{2009}\U{200A}\U{2028}\U{2029}\U{202F}\U{205F}\U{3000}"

  lemma IsSpaceIff(c: char)
    ensures IsSpace(c) <==> c in WHITE_SPACE
  {
    var w := WHITE_SPACE;
    assert w[0] == '\t' && w[1] == '\n' && w[2] == '\U{B}' && w[3] == '\U{C}' && w[4] == '\r' && w[5] == ' ';
    if '\t' <= c <= '\r' {
      assert w[c as int - 9] == c;
    } else if '\U{2000}' <= c <= '\U{200A}' {
      assert w[c as int - 0x2000 + 9] == c;
    } else if c == ' ' || c == '\U{85}' || c == '\U{A0}' || c == '\U{1680}' {
      assert w[5] == ' ' && w[6] == '\U{85}' && w[7] == '\U{A0}' && w[8] == '\U{1680}';
    } else if IsSpace(c) {
      assert w[20] == '\U{2028}' && w[21] == '\U{2029}' && w[22] == '\U{202F}';
      assert w[23] == '\U{205F}' && w[24] == '\U{3000}';
    }
  }

  /** Nothing but white space. */
  ghost predicate Blank(s: string) {
    forall k | 0 <= k < |s| :: s[k] in WHITE_SPACE
  }

  function TrimLeft(s: string): string {
    if s != [] && IsSpace(s[0]) then TrimLeft(s[1..]) else s
  }

  function TrimRight(s: string): string {
    if s != [] && IsSpace(s[|s| - 1]) then TrimRight(s[..|s| - 1]) else s
  }

  function TrimSpace(s: string): string {
    TrimRight(TrimLeft(s))
  }

  lemma {:induction false} TrimLeftStops(s: string)
    ensures TrimLeft(s) == [] <==> forall k | 0 <= k < |s| :: IsSpace(s[k])
    ensures TrimLeft(s) != [] ==> !IsSpace(TrimLeft(s)[0])
  {
    if s != [] && IsSpace(s[0]) {
      TrimLeftStops(s[1..]);
      assert forall k | 1 <= k < |s| :: s[k] == s[1..][k - 1];
    }
  }

  lemma {:induction false} TrimRightKeepsFirst(s: string)
    requires s != [] && !IsSpace(s[0])
    ensures TrimRight(s) != []
  {
    if IsSpace(s[|s| - 1]) {
      TrimRightKeepsFirst(s[..|s| - 1]);
    }
  }

  /** Trimming leaves nothing exactly when there is nothing but white space. */
  lemma TrimSpaceIsEmptyIff(s: string)
    ensures TrimSpace(s) == "" <==> Blank(s)
  {
    forall k | 0 <= k < |s|
      ensures IsSpace(s[k]) <==> s[k] in WHITE_SPACE
    {
      IsSpaceIff(s[k]);
    }
    TrimLeftStops(s);
    if TrimLeft(s) != [] {
      TrimRightKeepsFirst(TrimLeft(s));
    }
  }
}
