/** Request identifiers: "REQ_" timestamp "_" counter (`generateRequestId`). */
module RequestId {

  function Digit(d: nat): (c: char)
    requires d < 10
    ensures c != '_' && c as int == '0' as int + d
  {
    ('0' as int + d) as char
  }

  function Decimal(n: nat): (s: string)
    ensures s != "" && '_' !in s
  {
    if n < 10 then [Digit(n)] else Decimal(n / 10) + [Digit(n % 10)]
  }

  function Signed(n: int): string {
    if n < 0 then "-" + Decimal(-n) else Decimal(n)
  }

  function Make(timestampMs: int, counter: nat): string {
    "REQ_" + Signed(timestampMs) + "_" + Decimal(counter)
  }

  lemma {:induction false} DecimalInjective(m: nat, n: nat)
    requires Decimal(m) == Decimal(n)
    ensures m == n
  {
    var s, t := Decimal(m), Decimal(n);
    assert s[|s| - 1] == t[|t| - 1] && s[..|s| - 1] == t[..|t| - 1];
    assert s[|s| - 1] == Digit(m % 10) && t[|t| - 1] == Digit(n % 10);
    if m >= 10 && n >= 10 {
      assert s[..|s| - 1] == Decimal(m / 10) && t[..|t| - 1] == Decimal(n / 10);
      DecimalInjective(m / 10, n / 10);
    }
  }

  lemma SameAfterLastUnderscore(a: string, b: string, x: string, y: string)
    requires a + "_" + x == b + "_" + y && '_' !in x && '_' !in y
    ensures x == y
  {
    var s := a + "_" + x;
    assert s[|a|] == '_' && s[|b|] == '_';
    assert s[|a| + 1..] == x && s[|b| + 1..] == y;
  }

  /** Two identifiers with different counters differ, whatever their timestamps. */
  lemma CountersTellApart(t: int, c: nat, t': int, c': nat)
    requires Make(t, c) == Make(t', c')
    ensures c == c'
  {
    SameAfterLastUnderscore("REQ_" + Signed(t), "REQ_" + Signed(t'), Decimal(c), Decimal(c'));
    DecimalInjective(c, c');
  }
}
