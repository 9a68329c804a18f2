/**
 * Validation of the `/setthreshold <number>` argument. The argument must pass
 * Python's `str.isdigit` (here: a non-empty run of ASCII digits) and is then
 * read by `int`, as a decimal numeral.
 */
module ThresholdCommand {
  import opened Actions

  predicate IsDigit(c: char) {
    '0' <= c <= '9'
  }

  predicate AllDigits(s: string) {
    forall i :: 0 <= i < |s| ==> IsDigit(s[i])
  }

  /** `s.isdigit()`: true for a non-empty string of digits, false for "" and for signs or spaces. */
  predicate IsDigitString(s: string) {
    |s| > 0 && AllDigits(s)
  }

  function DigitValue(c: char): (d: nat)
    requires IsDigit(c)
    ensures d < 10
  {
    (c as int) - ('0' as int)
  }

  function DigitChar(d: nat): (c: char)
    requires d < 10
    ensures IsDigit(c) && DigitValue(c) == d
  {
    (('0' as int) + d) as char
  }

  /** `int(s)` for a string of digits, most significant digit first; leading zeros are allowed. */
  function DecimalValue(s: string): nat
    requires AllDigits(s)
  {
    if |s| == 0 then 0 else DecimalValue(s[..|s| - 1]) * 10 + DigitValue(s[|s| - 1])
  }

  /** `str(n)`: the decimal numeral of `n`, without leading zeros. */
  function Decimal(n: nat): (s: string)
    ensures IsDigitString(s)
  {
    if n < 10 then [DigitChar(n)] else Decimal(n / 10) + [DigitChar(n % 10)]
  }

  /** Reading back a rendered numeral gives the number: `int(str(n)) == n`. */
  lemma {:induction false} DecimalRoundTrip(n: nat)
    ensures DecimalValue(Decimal(n)) == n
  {
    if n >= 10 {
      var s := Decimal(n);
      assert s[..|s| - 1] == Decimal(n / 10);
      DecimalRoundTrip(n / 10);
    }
  }

  /** A digit string reads as zero exactly when every digit is '0'. */
  lemma {:induction false} ZeroIffAllZeros(s: string)
    requires AllDigits(s)
    ensures DecimalValue(s) == 0 <==> forall i :: 0 <= i < |s| ==> s[i] == '0'
  {
    if |s| > 0 {
      var init := s[..|s| - 1];
      ZeroIffAllZeros(init);
      if DecimalValue(s) == 0 {
        assert DecimalValue(init) == 0 && s[|s| - 1] == '0';
        forall i | 0 <= i < |s| ensures s[i] == '0' {
          if i < |s| - 1 { assert s[i] == init[i]; }
        }
      }
    }
  }

  /** What the command decides before touching the table. */
  datatype Decision = Rejected(reply: ReplyKind) | Accepted(threshold: int)

  /**
   * The checks of `/setthreshold`, in the order the handler makes them: the
   * caller must be an admin, the first argument must be all digits, and its
   * value must be at least 1.
   */
  function Decide(isAdmin: bool, args: seq<string>): (r: Decision)
    ensures !isAdmin ==> r == Rejected(OnlyAdmins)
    ensures isAdmin && (|args| == 0 || !IsDigitString(args[0])) ==> r == Rejected(Usage)
    ensures r == Rejected(AtLeastOne) <==>
              isAdmin && |args| > 0 && IsDigitString(args[0]) && forall i :: 0 <= i < |args[0]| ==> args[0][i] == '0'
    ensures r.Accepted? <==>
              isAdmin && |args| > 0 && IsDigitString(args[0]) && exists i :: 0 <= i < |args[0]| && args[0][i] != '0'
    ensures r.Accepted? ==> r.threshold >= 1 && r.threshold == DecimalValue(args[0])
  {
    if !isAdmin then Rejected(OnlyAdmins)
    else if |args| == 0 || !IsDigitString(args[0]) then Rejected(Usage)
    else
      var t := DecimalValue(args[0]);
      ZeroIffAllZeros(args[0]);
      if t < 1 then Rejected(AtLeastOne) else Accepted(t)
  }

  /** An admin who passes the numeral of a positive number sets exactly that number; "0" is refused. */
  lemma NumeralAccepted(n: nat, rest: seq<string>)
    ensures Decide(true, [Decimal(n)] + rest) == if n >= 1 then Accepted(n) else Rejected(AtLeastOne)
  {
    DecimalRoundTrip(n);
  }
}
