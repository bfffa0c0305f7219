/** Snapshot IDs on their way through the database: fmt.Sprintf("%d") on a uint64
    (worker/manager/manager.go:565) and strconv.ParseUint(s, 10, 64) (manager.go:695). */
module Decimal {

  import opened Words
  import opened Rows

  function Print(n: nat): (s: string)
    ensures s != ""
  {
    if n < 10 then [Digit(n)] else Print(n / 10) + [Digit(n % 10)]
  }

  function Digit(d: nat): char
    requires d < 10
  {
    '0' + d as char
  }

  /** The number a string of digits denotes, if it is one. */
  function Read(s: string): Option<nat> {
    if s == "" then Some(0)
    else
      var c := s[|s| - 1];
      match Read(s[..|s| - 1])
      case None => None
      case Some(v) => if '0' <= c <= '9' then Some(10 * v + (c as int - '0' as int)) else None
  }

  function ParseUint(s: string): Result<U64> {
    if s == "" then Err(Failed)
    else
      match Read(s)
      case None => Err(Failed)
      case Some(v) => if v < TWO_64 then Ok(v) else Err(Failed)
  }

  lemma {:induction false} ReadOfPrint(n: nat)
    ensures Read(Print(n)) == Some(n)
  {
    if n < 10 {
      assert [Digit(n)][..0] == "";
    } else {
      ReadOfPrint(n / 10);
      var s := Print(n);
      assert s[..|s| - 1] == Print(n / 10) && s[|s| - 1] == Digit(n % 10);
    }
  }

  /** Every snapshot ID survives being printed into the database and parsed back. */
  lemma ParseOfPrint(n: U64)
    ensures ParseUint(Print(n)) == Ok(n)
  {
    ReadOfPrint(n);
  }

  function Pow10(n: nat): (p: nat)
    ensures p > 0
  {
    if n == 0 then 1 else 10 * Pow10(n - 1)
  }

  lemma Shift(n: nat, p: nat)
    requires p > 0
    ensures n / 10 / p == n / (10 * p)
  {
    var q := n / 10 / p;
    var r := (n / 10) % p;
    assert n == 10 * (q * p + r) + n % 10;
    assert n == (10 * p) * q + (10 * r + n % 10);
    assert 0 <= 10 * r + n % 10 < 10 * p;
    Quotient(n, 10 * p, q, 10 * r + n % 10);
  }

  lemma Quotient(n: nat, d: nat, q: nat, r: nat)
    requires d > 0 && n == d * q + r && r < d
    ensures n / d == q
  {
    assert n == d * (n / d) + n % d;
    assert d * (q - n / d) == n % d - r;
    SmallMultiple(d, q - n / d);
  }

  lemma SmallMultiple(d: int, x: int)
    requires -d < d * x < d
    ensures x == 0
  {
  }

  /** The digits of a printed number, from the last one on, are its decimal digits; there is no
      leading zero. */
  lemma {:induction false} PrintIsDecimal(n: nat, i: nat)
    requires i < |Print(n)|
    ensures Print(n)[|Print(n)| - 1 - i] == '0' + (n / Pow10(i) % 10) as char
    ensures n > 0 ==> Print(n)[0] != '0'
    ensures n == 0 ==> Print(n) == "0"
    decreases n
  {
    if n >= 10 {
      if i > 0 {
        PrintIsDecimal(n / 10, i - 1);
        Shift(n, Pow10(i - 1));
      } else {
        PrintIsDecimal(n / 10, 0);
      }
    }
  }

  /** What is accepted: strings of digits that denote a 64-bit number. */
  lemma {:induction false} ReadIff(s: string)
    ensures Read(s).Some? <==> forall i | 0 <= i < |s| :: '0' <= s[i] <= '9'
  {
    if s != "" {
      ReadIff(s[..|s| - 1]);
    }
  }

  lemma ParseIff(s: string)
    ensures ParseUint(s).Ok? <==> s != "" && (forall i | 0 <= i < |s| :: '0' <= s[i] <= '9') &&
                                  Read(s).Some? && Read(s).value < TWO_64
  {
    ReadIff(s);
  }
}
