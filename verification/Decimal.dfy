/** strconv.FormatUint and strconv.ParseUint in base 10 for 64 bits. */
module Decimal {
  import opened Bytes

  const ZERO: byte := 48

  function Format(n: nat): (s: seq<byte>)
    ensures s != []
  {
    if n < 10 then [ZERO + n] else Format(n / 10) + [ZERO + n % 10]
  }

  predicate IsDigit(b: byte) {
    ZERO <= b < ZERO + 10
  }

  function Digits(s: seq<byte>): Option<nat> {
    if s == [] then Some(0)
    else
      var init := Digits(s[..|s| - 1]);
      if init.None? || !IsDigit(s[|s| - 1]) then None
      else Some(10 * init.value + (s[|s| - 1] - ZERO))
  }

  /** Fails on an empty text, on anything that is not a digit, and on overflow. */
  function Parse(s: seq<byte>): Option<nat> {
    if s == [] || Digits(s).None? || Digits(s).value >= TWO_64 then None else Digits(s)
  }

  lemma {:induction false} DigitsFormat(n: nat)
    ensures Digits(Format(n)) == Some(n)
  {
    var s := Format(n);
    if n >= 10 {
      DigitsFormat(n / 10);
      assert s[..|s| - 1] == Format(n / 10);
    } else {
      assert s[..0] == [];
    }
  }

  lemma ParseFormat(n: nat)
    requires n < TWO_64
    ensures Parse(Format(n)) == Some(n)
  {
    DigitsFormat(n);
  }

  lemma FormatInjective(m: nat, n: nat)
    requires Format(m) == Format(n)
    ensures m == n
  {
    DigitsFormat(m);
    DigitsFormat(n);
  }
}
