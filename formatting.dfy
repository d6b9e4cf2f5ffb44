/** The display formatters of utility/backend.py: `format_num` (thousands-grouped,
    no decimals) on integer inputs, and the missing-value case of `format_pct`. */
module Formatting {
  import opened Wrappers

  /** The sentinel both formatters print for a missing value. */
  const NOT_AVAILABLE := "N/A"

  function DigitChar(d: nat): (c: char)
    requires d < 10
    ensures '0' <= c <= '9'
  {
    "0123456789"[d]
  }

  function DigitValue(c: char): nat {
    if '0' <= c <= '9' then (c - '0') as nat else 0
  }

  predicate AllDigits(s: string) {
    forall i :: 0 <= i < |s| ==> '0' <= s[i] <= '9'
  }

  /** Plain decimal notation of a natural number: the reference the grouped form is
      checked against. */
  function Decimal(n: nat): string
    decreases n
  {
    if n < 10 then [DigitChar(n)] else Decimal(n / 10) + [DigitChar(n % 10)]
  }

  /** The number a string of decimal digits denotes. */
  function ParseDecimal(s: string): nat {
    if s == [] then 0 else 10 * ParseDecimal(s[..|s| - 1]) + DigitValue(s[|s| - 1])
  }

  /** A group of three digits, with leading zeros. */
  function ThreeDigits(b: nat): (s: string)
    requires b < 1000
    ensures |s| == 3 && AllDigits(s)
  {
    [DigitChar(b / 100), DigitChar(b / 10 % 10), DigitChar(b % 10)]
  }

  /** The `,` thousands separator of Python's format mini-language on a natural number:
      without its commas it is the plain decimal notation, it is well grouped, and it
      starts with a digit that is '0' only for 0. */
  function Grouped(n: nat): (s: string)
    ensures RemoveCommas(s) == Decimal(n)
    ensures WellGrouped(s)
    ensures |s| >= 1 && '0' <= s[0] <= '9'
    ensures s[0] == '0' <==> n == 0
    decreases n
  {
    DecimalShape(n);
    if n < 1000 then
      RemoveCommasOfDigits(Decimal(n));
      Decimal(n)
    else
      var head, tail := Grouped(n / 1000), ThreeDigits(n % 1000);
      var s := head + "," + tail;
      RemoveCommasAppend(head + ",", tail);
      RemoveCommasAppend(head, ",");
      RemoveCommasOfDigits(tail);
      DecimalSplit(n);
      assert s[..|s| - 4] == head;
      assert s[|s| - 3..] == tail;
      s
  }

  /** `f"{n:,.0f}"` for an integer `n`: a leading '-' exactly for a negative number,
      then the well-grouped digits of its magnitude, with no leading zero. */
  function FormatInt(n: int): (s: string)
    ensures |s| >= 1 && (s[0] == '-' <==> n < 0)
    ensures RemoveCommas(s) == (if n < 0 then "-" else "") + Decimal(Abs(n))
    ensures var body := if n < 0 then s[1..] else s;
            |body| >= 1 && WellGrouped(body) && (body[0] == '0' <==> n == 0)
  {
    if n < 0 then
      var s := "-" + Grouped(-n);
      RemoveCommasAppend("-", Grouped(-n));
      assert s[1..] == Grouped(-n);
      s
    else
      Grouped(n)
  }

  /** 2 to the power `k`. */
  function Pow2(k: nat): (p: nat)
    ensures p >= 1
  {
    if k == 0 then 1 else 2 * Pow2(k - 1)
  }

  /** The number of binary digits of `m` (none for 0). */
  function BitLength(m: nat): nat {
    if m == 0 then 0 else 1 + BitLength(m / 2)
  }

  /** Significant bits of an IEEE 754 double. */
  const SIGNIFICAND_BITS: nat := 53

  /** A value that rounds to 2 to this power or beyond is too large for a double. */
  const OVERFLOW_EXPONENT: nat := 1024

  /** How many low bits of `m` a double cannot keep. */
  function DroppedBits(m: nat): nat {
    if BitLength(m) <= SIGNIFICAND_BITS then 0 else BitLength(m) - SIGNIFICAND_BITS
  }

  /** `m >> e`: `m` divided by 2^e, rounded down. */
  function ShiftRight(m: nat, e: nat): nat {
    if e == 0 then m else ShiftRight(m / 2, e - 1)
  }

  /** `x << e`: `x` times 2^e. */
  function ShiftLeft(x: nat, e: nat): nat {
    if e == 0 then x else 2 * ShiftLeft(x, e - 1)
  }

  /** `m` divided by 2^DroppedBits(m), rounded to the nearest integer, ties to even. */
  function KeptQuotient(m: nat): nat {
    var e := DroppedBits(m);
    var q := ShiftRight(m, e);
    if e == 0 then q
    else
      var rem: int := m - ShiftLeft(q, e);
      var up := 2 * rem > Pow2(e) || (2 * rem == Pow2(e) && q % 2 == 1);
      if up then q + 1 else q
  }

  /** The magnitude of `float(m)`: `m` rounded to 53 significant bits, ties to even.
      An integer of at most 53 bits is kept exactly; any other moves by at most half
      the weight of the last bit kept. */
  function RoundToDouble(m: nat): (r: nat)
    ensures BitLength(m) <= SIGNIFICAND_BITS ==> r == m
    ensures -(Pow2(DroppedBits(m)) as int) <= 2 * (r as int - m) <= Pow2(DroppedBits(m))
  {
    var e := DroppedBits(m);
    var q := ShiftRight(m, e);
    ShiftRightLeft(m, e);
    ShiftLeftSucc(q, e);
    ShiftLeft(KeptQuotient(m), e)
  }

  /** The magnitude of an integer. */
  function Abs(n: int): nat {
    if n < 0 then -n else n
  }

  datatype FormatError =
    /** `float(n)` raises OverflowError for an integer too large for a double. */
    | OverflowError

  /** The integral value of `float(n)`, which the `f` presentation type formats. */
  function IntToFloat(n: int): (r: Result<int, FormatError>)
    ensures r.Err? <==> BitLength(RoundToDouble(Abs(n))) > OVERFLOW_EXPONENT
    ensures r.Ok? ==> Abs(r.value) == RoundToDouble(Abs(n)) && (n < 0 ==> r.value <= 0) && (n >= 0 ==> r.value >= 0)
  {
    var m := RoundToDouble(Abs(n));
    var v: int := if n < 0 then -(m as int) else m;
    if BitLength(m) > OVERFLOW_EXPONENT then Err(OverflowError) else Ok(v)
  }

  /** `format_num(val)` on an integer or None: `f"{val:,.0f}"` converts the integer
      to a float first. */
  function FormatNum(val: Option<int>): (r: Result<string, FormatError>)
    ensures r == Ok(NOT_AVAILABLE) <==> val.None?
    ensures r.Err? <==> val.Some? && BitLength(RoundToDouble(Abs(val.value))) > OVERFLOW_EXPONENT
  {
    match val
    case None => Ok(NOT_AVAILABLE)
    case Some(n) =>
      match IntToFloat(n)
      case Err(e) => Err(e)
      case Ok(v) =>
        assert FormatInt(v)[0] != NOT_AVAILABLE[0];
        Ok(FormatInt(v))
  }

  /** `format_pct(val)`: the percentage rendering of a present value (`.2%` on a
      binary float) is the parameter `percent`. */
  function FormatPct<R>(val: Option<R>, percent: R -> string): (r: string)
    ensures val.None? ==> r == NOT_AVAILABLE
    ensures val.Some? ==> r == percent(val.value)
  {
    match val
    case None => NOT_AVAILABLE
    case Some(v) => percent(v)
  }

  /** The string with every comma removed. */
  function RemoveCommas(s: string): string {
    if s == [] then [] else (if s[0] == ',' then [] else [s[0]]) + RemoveCommas(s[1..])
  }

  /** The shape of a grouped number: a first group of one to three digits, then
      groups of exactly three digits, each after a comma. */
  predicate WellGrouped(s: string)
    decreases |s|
  {
    || (1 <= |s| <= 3 && AllDigits(s))
    || (|s| >= 5 && s[|s| - 4] == ',' && AllDigits(s[|s| - 3..]) && WellGrouped(s[..|s| - 4]))
  }

  lemma {:induction false} DecimalShape(n: nat)
    ensures 1 <= |Decimal(n)| && AllDigits(Decimal(n))
    ensures n < 1000 ==> |Decimal(n)| <= 3
    ensures (Decimal(n)[0] == '0') <==> n == 0
    decreases n
  {
    if n >= 10 {
      DecimalShape(n / 10);
    }
  }

  /** Decimal notation splits at the last three digits. */
  lemma DecimalSplit(n: nat)
    requires n >= 1000
    ensures Decimal(n) == Decimal(n / 1000) + ThreeDigits(n % 1000)
  {
    var a, b := n / 1000, n % 1000;
    assert n / 10 == 100 * a + b / 10;
    assert n / 100 == 10 * a + b / 100;
    assert (n / 10) / 10 == n / 100;
    assert (n / 100) / 10 == a;
    assert n % 10 == b % 10;
    assert (n / 10) % 10 == b / 10 % 10;
    assert (n / 100) % 10 == b / 100;
    calc {
      Decimal(n);
      Decimal(n / 10) + [DigitChar(n % 10)];
      Decimal(n / 100) + [DigitChar(n / 10 % 10)] + [DigitChar(n % 10)];
      Decimal(a) + [DigitChar(n / 100 % 10)] + [DigitChar(n / 10 % 10)] + [DigitChar(n % 10)];
      Decimal(a) + ThreeDigits(b);
    }
  }

  lemma {:induction false} RemoveCommasAppend(s: string, t: string)
    ensures RemoveCommas(s + t) == RemoveCommas(s) + RemoveCommas(t)
  {
    if s == [] {
      assert s + t == t;
    } else {
      assert (s + t)[1..] == s[1..] + t;
      RemoveCommasAppend(s[1..], t);
    }
  }

  lemma {:induction false} RemoveCommasOfDigits(s: string)
    requires AllDigits(s)
    ensures RemoveCommas(s) == s
  {
    if s != [] {
      RemoveCommasOfDigits(s[1..]);
    }
  }

  /** Reading the digits back gives the number. */
  lemma {:induction false} ParseDecimalInverse(n: nat)
    ensures ParseDecimal(Decimal(n)) == n
    decreases n
  {
    var s := Decimal(n);
    if n < 10 {
      assert s[..|s| - 1] == [];
    } else {
      ParseDecimalInverse(n / 10);
      assert s[..|s| - 1] == Decimal(n / 10);
    }
  }

  /** `m` has at most `k` binary digits exactly when it is below 2^k. */
  lemma {:induction false} BitLengthBound(m: nat, k: nat)
    ensures m < Pow2(k) <==> BitLength(m) <= k
    decreases k
  {
    if m != 0 && k != 0 {
      BitLengthBound(m / 2, k - 1);
    }
  }

  /** Shifting right and back left clears the low `e` bits: what is lost is less than 2^e. */
  lemma {:induction false} ShiftRightLeft(m: nat, e: nat)
    ensures ShiftLeft(ShiftRight(m, e), e) <= m < ShiftLeft(ShiftRight(m, e), e) + Pow2(e)
    decreases e
  {
    if e > 0 {
      ShiftRightLeft(m / 2, e - 1);
    }
  }

  lemma {:induction false} ShiftLeftSucc(x: nat, e: nat)
    ensures ShiftLeft(x + 1, e) == ShiftLeft(x, e) + Pow2(e)
    decreases e
  {
    if e > 0 {
      ShiftLeftSucc(x, e - 1);
    }
  }

  lemma {:induction false} ShiftLeftIsProduct(x: nat, e: nat)
    ensures ShiftLeft(x, e) == x * Pow2(e)
    decreases e
  {
    if e > 0 {
      ShiftLeftIsProduct(x, e - 1);
      assert x * Pow2(e) == 2 * (x * Pow2(e - 1));
    }
  }

  /** Rounding the quotient `q` up exactly when the remainder `rem` is past half of
      `unit`, or at half with `q` odd, leaves an even quotient whenever the result is
      half a unit away. */
  lemma TieToEven(m: int, base: int, rem: int, unit: int, q: int, k: int, r: int)
    requires m == base + rem && 0 <= rem < unit
    requires k == if 2 * rem > unit || (2 * rem == unit && q % 2 == 1) then q + 1 else q
    requires r == if k == q + 1 then base + unit else base
    ensures 2 * (r - m) == unit || 2 * (m - r) == unit ==> k % 2 == 0
  {
  }

  /** Beyond 53 bits the conversion keeps a multiple of 2^DroppedBits(m), and on a
      tie, halfway between two multiples, the even one. */
  lemma RoundToDoubleNearest(m: nat)
    requires BitLength(m) > SIGNIFICAND_BITS
    ensures var unit := Pow2(DroppedBits(m));
            var r := RoundToDouble(m);
            && r == KeptQuotient(m) * unit
            && (2 * (r as int - m) == unit || 2 * (m as int - r) == unit ==> KeptQuotient(m) % 2 == 0)
  {
    var e := DroppedBits(m);
    var q := ShiftRight(m, e);
    var k := KeptQuotient(m);
    ShiftRightLeft(m, e);
    ShiftLeftSucc(q, e);
    TieToEven(m, ShiftLeft(q, e), m - ShiftLeft(q, e), Pow2(e), q, k, RoundToDouble(m));
    ShiftLeftIsProduct(k, e);
  }

  /** `format_num` on an integer that converts: without its commas the output is the
      decimal notation of the converted value, its digits are well grouped with no
      leading zero, and a negative number has exactly one sign, in front. */
  lemma FormatNumOfInt(n: int)
    requires IntToFloat(n).Ok?
    ensures FormatNum(Some(n)).Ok? && FormatNum(Some(n)).value != NOT_AVAILABLE
    ensures var v := Abs(IntToFloat(n).value);
            RemoveCommas(FormatNum(Some(n)).value) == (if n < 0 && v != 0 then "-" else "") + Decimal(v)
    ensures var s := FormatNum(Some(n)).value;
            var v := Abs(IntToFloat(n).value);
            var body := if n < 0 && v != 0 then s[1..] else s;
            && |s| >= 1
            && (s[0] == '-' <==> n < 0 && v != 0)
            && WellGrouped(body)
            && (body[0] == '0' <==> v == 0)
  {
    var v := IntToFloat(n).value;
    assert v < 0 <==> n < 0 && v != 0;
  }

  /** An integer of magnitude below 2^53 is printed with its own digits. */
  lemma FormatNumExact(n: int)
    requires BitLength(Abs(n)) <= SIGNIFICAND_BITS
    ensures IntToFloat(n) == Ok(n)
    ensures FormatNum(Some(n)).Ok?
    ensures RemoveCommas(FormatNum(Some(n)).value) == (if n < 0 then "-" else "") + Decimal(Abs(n))
  {
    FormatNumOfInt(n);
  }

  /** Round trip: a natural number below 2^53 can be read back from what `format_num`
      prints. */
  lemma FormatNumRoundTrip(n: nat)
    requires BitLength(n) <= SIGNIFICAND_BITS
    ensures FormatNum(Some(n)).Ok?
    ensures ParseDecimal(RemoveCommas(FormatNum(Some(n)).value)) == n
  {
    FormatNumExact(n);
    assert "" + Decimal(n) == Decimal(n);
    ParseDecimalInverse(n);
  }

  /** When one bit is dropped, an even number 2h with h even, and its odd successor,
      both convert to 2h. */
  lemma DropOneBit(h: nat)
    requires DroppedBits(2 * h) == 1 && DroppedBits(2 * h + 1) == 1 && h % 2 == 0
    ensures RoundToDouble(2 * h + 1) == 2 * h && RoundToDouble(2 * h) == 2 * h
  {
    assert Pow2(1) == 2;
    assert ShiftRight(2 * h, 1) == h && ShiftRight(2 * h + 1, 1) == h;
    assert ShiftLeft(h, 1) == 2 * h;
  }

  /** `format_num` sees a natural number only through its conversion to a double. */
  lemma FormatNumOfRounded(m: nat, m': nat)
    requires RoundToDouble(m) == RoundToDouble(m')
    ensures FormatNum(Some(m)) == FormatNum(Some(m'))
  {
    assert IntToFloat(m) == IntToFloat(m');
  }

  /** Just past 53 bits the digits are no longer the integer's own: a 54-bit multiple
      of 4 and its successor print the same, so 2^53 + 1 is printed as 2^53. */
  lemma FormatNumBeyondDoublePrecision(n: nat)
    requires BitLength(n) == SIGNIFICAND_BITS + 1 && n % 4 == 0
    ensures RoundToDouble(n + 1) == n
    ensures FormatNum(Some(n + 1)) == FormatNum(Some(n))
  {
    var h := n / 2;
    assert n == 2 * h && h % 2 == 0;
    assert (n + 1) / 2 == h;
    assert BitLength(n + 1) == BitLength(n);
    assert DroppedBits(n) == 1 && DroppedBits(n + 1) == 1;
    DropOneBit(h);
    FormatNumOfRounded(n + 1, n);
  }
}
