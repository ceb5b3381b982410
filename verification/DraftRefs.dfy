/** Draft references: "SAR-<year>-<number, at least six digits>". */
module DraftRefs {

  function Digit(d: nat): char
    requires d < 10
  {
    ['0', '1', '2', '3', '4', '5', '6', '7', '8', '9'][d]
  }

  function Decimal(n: nat): (s: string)
    ensures s != "" && forall k :: 0 <= k < |s| ==> '0' <= s[k] <= '9'
  {
    if n < 10 then [Digit(n)] else Decimal(n / 10) + [Digit(n % 10)]
  }

  function DecimalInt(n: int): string { if n < 0 then "-" + Decimal(-n) else Decimal(n) }

  function Zeros(n: nat): (s: string)
    ensures |s| == n && forall k :: 0 <= k < n ==> s[k] == '0'
  {
    if n == 0 then "" else Zeros(n - 1) + "0"
  }

  function Padded(n: nat): (s: string)
    ensures |s| >= 6 && forall k :: 0 <= k < |s| ==> '0' <= s[k] <= '9'
  {
    var d := Decimal(n);
    Zeros(if |d| < 6 then 6 - |d| else 0) + d
  }

  function Ref(year: nat, number: nat): string { ("SAR-" + Decimal(year)) + (['-'] + Padded(number)) }

  // ---- reading a reference back ------------------------------------------------------------------

  function Value(s: string): nat
    requires forall k :: 0 <= k < |s| ==> '0' <= s[k] <= '9'
  {
    if s == "" then 0 else 10 * Value(s[..|s| - 1]) + (s[|s| - 1] as int - '0' as int)
  }

  lemma {:induction false} ValueOfDecimal(n: nat)
    ensures Value(Decimal(n)) == n
  {
    if n >= 10 {
      ValueOfDecimal(n / 10);
      assert Decimal(n)[..|Decimal(n)| - 1] == Decimal(n / 10);
    }
  }

  lemma {:induction false} LeadingZeros(z: nat, s: string)
    requires forall k :: 0 <= k < |s| ==> '0' <= s[k] <= '9'
    ensures Value(Zeros(z) + s) == Value(s)
    decreases z, |s|
  {
    var all := Zeros(z) + s;
    if s != "" {
      LeadingZeros(z, s[..|s| - 1]);
      assert all[..|all| - 1] == Zeros(z) + s[..|s| - 1];
    } else if z > 0 {
      LeadingZeros(z - 1, "");
      assert all[..|all| - 1] == Zeros(z - 1) + "";
    }
  }

  /** What follows the last dash. */
  function AfterDash(s: string): (t: string)
    ensures '-' !in t
  {
    if s == "" then ""
    else if s[|s| - 1] == '-' then ""
    else AfterDash(s[..|s| - 1]) + [s[|s| - 1]]
  }

  lemma {:induction false} AfterDashIsTail(p: string, t: string)
    requires '-' !in t
    ensures AfterDash(p + (['-'] + t)) == t
    decreases |t|
  {
    var s := p + (['-'] + t);
    if t != "" {
      AfterDashIsTail(p, t[..|t| - 1]);
      assert s[..|s| - 1] == p + (['-'] + t[..|t| - 1]);
    }
  }

  predicate IsNumber(s: string) { forall k :: 0 <= k < |s| ==> '0' <= s[k] <= '9' }

  /** The sequence number a reference was made from. */
  function NumberOf(ref: string): nat { if IsNumber(AfterDash(ref)) then Value(AfterDash(ref)) else 0 }

  lemma ValueOfPadded(n: nat)
    ensures Value(Padded(n)) == n
  {
    LeadingZeros(if |Decimal(n)| < 6 then 6 - |Decimal(n)| else 0, Decimal(n));
    ValueOfDecimal(n);
  }

  lemma NumberAfterDash(p: string, t: string)
    requires IsNumber(t)
    ensures NumberOf(p + (['-'] + t)) == Value(t)
  {
    AfterDashIsTail(p, t);
  }

  /** A reference gives its number back, whatever the year and however many digits, so references with
      different numbers differ. */
  lemma NumberOfRef(year: nat, number: nat)
    ensures NumberOf(Ref(year, number)) == number
  {
    NumberAfterDash("SAR-" + Decimal(year), Padded(number));
    ValueOfPadded(number);
  }
}
