/**
 The integer parser of the logger (logging/logrus/logger.go): a loop over bytes that computes in wrapped 64-bit
 arithmetic and leaves early on the first bad digit or the first overflow.  It is proved against the unbounded
 positional value of the digits, for every base and size, with the exact inputs of each of its errors.
 */
module UintParser {
  import opened Wrappers

  type Byte = b: nat | b < 256

  const TWO_TO_THE_64: nat := 0x1_0000_0000_0000_0000

  type Uint64 = n: nat | n < TWO_TO_THE_64

  /** What Go stores in a uint64 when the exact result is x. */
  function Wrap(x: int): Uint64 {
    x % TWO_TO_THE_64
  }

  function Pow2(k: nat): (r: nat)
    ensures r > 0
  {
    if k == 0 then 1 else 2 * Pow2(k - 1)
  }

  lemma {:induction false} Pow2Doubles(j: nat, k: nat)
    requires j < k
    ensures 2 * Pow2(j) <= Pow2(k)
  {
    if j + 1 < k {
      Pow2Doubles(j, k - 1);
    }
  }

  lemma {:induction false} Pow2Plus8(k: nat)
    ensures Pow2(k + 8) == 0x100 * Pow2(k)
  {
    assert Pow2(k + 2) == 4 * Pow2(k);
    assert Pow2(k + 4) == 4 * Pow2(k + 2);
    assert Pow2(k + 6) == 4 * Pow2(k + 4);
    assert Pow2(k + 8) == 4 * Pow2(k + 6);
  }

  lemma {:induction false} Pow2Of64()
    ensures Pow2(64) == TWO_TO_THE_64
  {
    Pow2Plus8(0);
    Pow2Plus8(8);
    Pow2Plus8(16);
    Pow2Plus8(24);
    Pow2Plus8(32);
    Pow2Plus8(40);
    Pow2Plus8(48);
    Pow2Plus8(56);
  }

  // ---------------------------------------------------------------- digits

  /** The digit a byte stands for: 0-9, then a-z and A-Z from ten on. */
  function DigitOf(d: Byte): Option<nat> {
    if '0' as int <= d <= '9' as int then Some(d - '0' as int)
    else if 'a' as int <= d <= 'z' as int then Some(d - 'a' as int + 10)
    else if 'A' as int <= d <= 'Z' as int then Some(d - 'A' as int + 10)
    else None
  }

  const DIGITS := "0123456789abcdefghijklmnopqrstuvwxyz"

  const CAPITALS := "0123456789ABCDEFGHIJKLMNOPQRSTUVWXYZ"

  /** The digits in their order, letters in either case. */
  lemma {:induction false} DigitsInOrder(k: nat)
    requires k < 36
    ensures |DIGITS| == |CAPITALS| == 36
    ensures DigitOf(DIGITS[k] as nat) == Some(k) && DigitOf(CAPITALS[k] as nat) == Some(k)
  {
  }

  predicate IsDigit(d: Byte, base: nat) {
    DigitOf(d).Some? && DigitOf(d).value < base
  }

  predicate AllDigits(s: seq<Byte>, base: nat) {
    forall i :: 0 <= i < |s| ==> IsDigit(s[i], base)
  }

  /** The unbounded positional value of a string of digits. */
  function Value(s: seq<Byte>, base: nat): nat
    requires AllDigits(s, base)
  {
    if s == [] then 0
    else Value(s[..|s| - 1], base) * base + DigitOf(s[|s| - 1]).value
  }

  lemma {:induction false} ValueOfNext(s: seq<Byte>, k: nat, base: nat)
    requires k < |s| && AllDigits(s[..k], base) && IsDigit(s[k], base)
    ensures AllDigits(s[..k + 1], base)
    ensures Value(s[..k + 1], base) == Value(s[..k], base) * base + DigitOf(s[k]).value
  {
    assert s[..k + 1][..k] == s[..k];
  }

  /** Appending digits never lowers the value. */
  lemma {:induction false} ValueGrows(s: seq<Byte>, j: nat, k: nat, base: nat)
    requires j <= k <= |s| && base >= 1 && AllDigits(s[..k], base)
    ensures AllDigits(s[..j], base)
    ensures Value(s[..j], base) <= Value(s[..k], base)
  {
    assert s[..j] == s[..k][..j];
    if j < k {
      assert s[..k - 1] == s[..k][..k - 1];
      ValueGrows(s, j, k - 1, base);
      ValueOfNext(s, k - 1, base);
      assert IsDigit(s[k - 1], base) by {
        assert s[..k][k - 1] == s[k - 1];
      }
      MulAtLeast(Value(s[..k - 1], base), base);
    }
  }

  lemma {:induction false} MulAtLeast(x: nat, base: nat)
    requires base >= 1
    ensures x * base >= x
  {
  }

  function Power(base: nat, k: nat): nat {
    if k == 0 then 1 else base * Power(base, k - 1)
  }

  /** Read from the front, every digit counts with the power of its place. */
  lemma {:induction false} ValueFromFront(s: seq<Byte>, base: nat)
    requires s != [] && AllDigits(s, base)
    ensures Value(s, base) == DigitOf(s[0]).value * Power(base, |s| - 1) + Value(s[1..], base)
  {
    var n := |s| - 1;
    if n > 0 {
      ValueFromFront(s[..n], base);
      assert s[..n][1..] == s[1..][..n - 1];
      TimesBase(DigitOf(s[0]).value, Power(base, n - 1), Value(s[..n][1..], base), base);
    }
  }

  lemma {:induction false} TimesBase(d: nat, p: nat, v: nat, base: nat)
    ensures (d * p + v) * base == d * (base * p) + v * base
  {
  }

  // ---------------------------------------------------------------- what the input asks for

  datatype Reading =
    | Empty                               // no byte at all
    | BadBase                             // base neither 0 nor in 2..36
    | Digits(base: nat, digits: seq<Byte>)

  /** The base in force and the bytes that must be digits in it. */
  function Read(s: seq<Byte>, base: int): (r: Reading)
    ensures r.Digits? ==> 2 <= r.base <= 36
  {
    if |s| < 1 then Empty
    else if 2 <= base <= 36 then Digits(base, s)
    else if base == 0 then
      if s[0] == '0' as int && |s| > 1 && (s[1] == 'x' as int || s[1] == 'X' as int) then Digits(16, s[2..])
      else if s[0] == '0' as int then Digits(8, s)
      else Digits(10, s)
    else BadBase
  }

  /** Bytes of a text. */
  function Ascii(text: string): (r: seq<Byte>)
    requires forall i :: 0 <= i < |text| ==> text[i] < 128 as char
    ensures |r| == |text|
  {
    seq(|text|, i requires 0 <= i < |text| => text[i] as Byte)
  }

  /** What a base of zero makes of the three kinds of numbers, and that any other base takes all bytes as digits. */
  lemma {:induction false} Prefixes(ds: seq<Byte>, base: int)
    ensures Read(Ascii("0x") + ds, 0) == Read(Ascii("0X") + ds, 0) == Digits(16, ds)
    ensures (ds == [] || (ds[0] != 'x' as nat && ds[0] != 'X' as nat)) ==>
      Read(Ascii("0") + ds, 0) == Digits(8, Ascii("0") + ds)
    ensures ds != [] && ds[0] != '0' as nat ==> Read(ds, 0) == Digits(10, ds)
    ensures ds != [] && 2 <= base <= 36 ==> Read(ds, base) == Digits(base, ds)
    ensures ds != [] && base != 0 && !(2 <= base <= 36) ==> Read(ds, base) == BadBase
    ensures Read([], base) == Empty
  {
    assert (Ascii("0x") + ds)[2..] == ds && (Ascii("0X") + ds)[2..] == ds;
  }

  /** strconv.IntSize on a 64-bit platform. */
  const INT_SIZE := 64

  /** The largest accepted value; a size of 0 means the size of int, and sizes beyond 64 mean 64. */
  function Bound(bitSize: int): (r: nat)
    ensures r < TWO_TO_THE_64
  {
    if 0 < bitSize < 64 then
      Pow2Doubles(bitSize, 64);
      Pow2Of64();
      Pow2(bitSize) - 1
    else TWO_TO_THE_64 - 1
  }

  /** The bounds of the usual sizes. */
  lemma {:induction false} BoundOfSizes()
    ensures Bound(8) == 255 && Bound(16) == 0xFFFF && Bound(32) == 0xFFFF_FFFF
    ensures Bound(0) == Bound(64) == Bound(65) == Bound(-1) == 0xFFFF_FFFF_FFFF_FFFF
  {
    Pow2Plus8(0);
    Pow2Plus8(8);
    Pow2Plus8(16);
    Pow2Plus8(24);
  }

  /** Go's `1 << uint(k)` in 64 bits: counts of 64 and more, negative ones among them, shift everything out. */
  function ShiftedOne(k: int): Uint64 {
    if 0 <= k < 64 then
      Pow2Doubles(k, 64);
      Pow2Of64();
      Pow2(k)
    else 0
  }

  /** Every byte is a digit and the number they spell fits. */
  predicate Fits(ds: seq<Byte>, base: nat, bound: nat, v: nat) {
    ds != [] && AllDigits(ds, base) && Value(ds, base) == v && v <= bound
  }

  /** Some stretch of leading digits already spells a number beyond the bound. */
  ghost predicate Overflows(ds: seq<Byte>, base: nat, bound: nat) {
    exists k :: ExceedsAt(ds, k, base, bound)
  }

  predicate ExceedsAt(ds: seq<Byte>, k: int, base: nat, bound: nat) {
    0 <= k <= |ds| && AllDigits(ds[..k], base) && Value(ds[..k], base) > bound
  }

  /** There is nothing to read, or a byte that is no digit comes while the digits before it still fit. */
  ghost predicate Malformed(ds: seq<Byte>, base: nat, bound: nat) {
    ds == [] || exists k :: BrokenAt(ds, k, base, bound)
  }

  predicate BrokenAt(ds: seq<Byte>, k: int, base: nat, bound: nat) {
    0 <= k < |ds| && AllDigits(ds[..k], base) && !IsDigit(ds[k], base) && Value(ds[..k], base) <= bound
  }

  /** The three outcomes exclude each other and nothing else can happen. */
  lemma {:induction false} OneOutcome(ds: seq<Byte>, base: nat, bound: nat)
    requires base >= 1
    ensures AllDigits(ds, base) && ds != [] && Value(ds, base) <= bound ==>
              !Overflows(ds, base, bound) && !Malformed(ds, base, bound)
    ensures !(Overflows(ds, base, bound) && Malformed(ds, base, bound))
    ensures (exists v :: Fits(ds, base, bound, v)) || Overflows(ds, base, bound) || Malformed(ds, base, bound)
  {
    if k :| ExceedsAt(ds, k, base, bound) {
      if AllDigits(ds, base) {
        assert ds[..|ds|] == ds;
        ValueGrows(ds, k, |ds|, base);
      }
      if j :| BrokenAt(ds, j, base, bound) {
        if j < k {
          StillBroken(ds, j, k, base);
        }
        ValueGrows(ds, k, j, base);
      }
      if ds == [] {
        assert ds[..k] == [];
      }
    }
    SomeOutcome(ds, 0, base, bound);
  }

  lemma {:induction false} StillBroken(ds: seq<Byte>, j: nat, k: nat, base: nat)
    requires j < k <= |ds| && !IsDigit(ds[j], base)
    ensures !AllDigits(ds[..k], base)
  {
    assert ds[..k][j] == ds[j];
  }

  lemma {:induction false} SomeOutcome(ds: seq<Byte>, k: nat, base: nat, bound: nat)
    requires base >= 1
    requires k <= |ds| && AllDigits(ds[..k], base) && Value(ds[..k], base) <= bound
    ensures (exists v :: Fits(ds, base, bound, v)) || Overflows(ds, base, bound) || Malformed(ds, base, bound)
    decreases |ds| - k
  {
    if k == |ds| {
      assert ds[..k] == ds;
      assert ds != [] ==> Fits(ds, base, bound, Value(ds, base));
    } else if !IsDigit(ds[k], base) {
      assert BrokenAt(ds, k, base, bound);
    } else {
      ValueOfNext(ds, k, base);
      if Value(ds[..k + 1], base) > bound {
        assert ExceedsAt(ds, k + 1, base, bound);
      } else {
        SomeOutcome(ds, k + 1, base, bound);
      }
    }
  }

  // ---------------------------------------------------------------- the code

  datatype Cause = ErrSyntax | ErrRange | ErrInvalidBase(base: int)

  datatype NumError = NumError(num: seq<Byte>, cause: Cause)

  /** logger.go:662-668. */
  function Cutoff64(base: int): nat {
    if base < 2 then 0 else (TWO_TO_THE_64 - 1) / base + 1
  }

  /** The cutoff is the least n for which n * base no longer fits in 64 bits. */
  lemma {:induction false} CutoffIsExact(n: nat, base: nat)
    requires base >= 2
    ensures n >= Cutoff64(base) <==> n * base >= TWO_TO_THE_64
  {
    var q := (TWO_TO_THE_64 - 1) / base;
    assert q * base <= TWO_TO_THE_64 - 1 < (q + 1) * base;
    if n >= q + 1 {
      assert n * base == (q + 1) * base + (n - q - 1) * base;
    } else {
      assert q * base == n * base + (q - n) * base;
    }
  }

  /** One turn of the loop: the two guards together catch every overflow, wrapped or not. */
  lemma {:induction false} GuardsAreExact(n: Uint64, base: nat, v: nat, maxVal: Uint64)
    requires 2 <= base <= 36 && v < base
    ensures n >= Cutoff64(base) ==> n * base + v > maxVal
    ensures n < Cutoff64(base) ==>
      var m := Wrap(n * base);
      var n1 := Wrap(m + v);
      && (n1 < m || n1 > maxVal <==> n * base + v > maxVal)
      && (n * base + v <= maxVal ==> n1 == n * base + v)
  {
    CutoffIsExact(n, base);
    var p := n * base;
    if p < TWO_TO_THE_64 {
      assert Wrap(p) == p;
      assert Wrap(p + v) == if p + v < TWO_TO_THE_64 then p + v else p + v - TWO_TO_THE_64;
    }
  }

  /** The result is a right one for the input. */
  ghost predicate Answers(s: seq<Byte>, base: int, bitSize: int, n: Uint64, err: Option<NumError>) {
    && (err.Some? ==> err.value.num == s)
    && (err.Some? ==> n == if err.value.cause.ErrRange? then TWO_TO_THE_64 - 1 else 0)
    && var r, bound := Read(s, base), Bound(bitSize);
       if err == None then r.Digits? && Fits(r.digits, r.base, bound, n)
       else match err.value.cause {
         case ErrRange => r.Digits? && Overflows(r.digits, r.base, bound)
         case ErrSyntax => r.Empty? || (r.Digits? && Malformed(r.digits, r.base, bound))
         case ErrInvalidBase(b) => r.BadBase? && b == base
       }
  }

  /** Exactly one answer is right, and each kind of answer is given on exactly the inputs that call for it. */
  lemma {:induction false} AnswerIsExact(s: seq<Byte>, base: int, bitSize: int, n: Uint64, err: Option<NumError>)
    requires Answers(s, base, bitSize, n, err)
    ensures var r, bound := Read(s, base), Bound(bitSize);
      && (err == None <==> r.Digits? && exists v :: Fits(r.digits, r.base, bound, v))
      && (err == Some(NumError(s, ErrRange)) <==> r.Digits? && Overflows(r.digits, r.base, bound))
      && (err == Some(NumError(s, ErrSyntax)) <==> r.Empty? || (r.Digits? && Malformed(r.digits, r.base, bound)))
      && (err == Some(NumError(s, ErrInvalidBase(base))) <==> r.BadBase?)
    ensures forall n', err' :: Answers(s, base, bitSize, n', err') ==> n' == n && err' == err
  {
    var r := Read(s, base);
    if r.Digits? {
      OneOutcome(r.digits, r.base, Bound(bitSize));
    }
  }

  /** logger.go:617-656.  The loop over the digits, with the `goto Error` exits as early returns. */
  method ScanDigits(s: seq<Byte>, base: nat, maxVal: Uint64) returns (n: Uint64, err: Option<Cause>)
    requires 2 <= base <= 36 && s != []
    ensures match err {
      case None => Fits(s, base, maxVal, n)
      case Some(ErrSyntax) => Malformed(s, base, maxVal) && n == 0
      case Some(ErrRange) => Overflows(s, base, maxVal) && n == TWO_TO_THE_64 - 1
      case Some(_) => false
    }
  {
    n := 0;
    var cutoff := Cutoff64(base);
    for i := 0 to |s|
      invariant AllDigits(s[..i], base)
      invariant n == Value(s[..i], base) <= maxVal
    {
      var d := s[i];
      var v: nat := 0;
      var digit := true;
      if '0' as int <= d <= '9' as int {
        v := d - '0' as int;
      } else if 'a' as int <= d <= 'z' as int {
        v := d - 'a' as int + 10;
      } else if 'A' as int <= d <= 'Z' as int {
        v := d - 'A' as int + 10;
      } else {
        digit := false;
      }
      assert DigitOf(d) == if digit then Some(v) else None;
      if !digit || v >= base {
        assert BrokenAt(s, i, base, maxVal);
        return 0, Some(ErrSyntax);
      }
      ValueOfNext(s, i, base);
      GuardsAreExact(n, base, v, maxVal);
      if n >= cutoff {
        assert ExceedsAt(s, i + 1, base, maxVal);
        return TWO_TO_THE_64 - 1, Some(ErrRange);
      }
      n := Wrap(n * base);
      var n1 := Wrap(n + v);
      if n1 < n || n1 > maxVal {
        assert ExceedsAt(s, i + 1, base, maxVal);
        return TWO_TO_THE_64 - 1, Some(ErrRange);
      }
      n := n1;
    }
    assert s[..|s|] == s;
    return n, None;
  }

  /**
   logger.go:576-660.  The value comes back exactly when every byte after the base prefix is a
   digit and the number they spell fits; of the two errors, the one that is met first is given.
   */
  method ParseUintBytes(s0: seq<Byte>, base0: int, bitSize0: int) returns (n: Uint64, err: Option<NumError>)
    ensures Answers(s0, base0, bitSize0, n, err)
  {
    var base, bitSize, s := base0, bitSize0, s0;
    if bitSize == 0 {
      bitSize := INT_SIZE;
    }
    if |s| < 1 {
      return 0, Some(NumError(s0, ErrSyntax));
    } else if 2 <= base <= 36 {
      // valid base; nothing to do
    } else if base == 0 {
      if s[0] == '0' as int && |s| > 1 && (s[1] == 'x' as int || s[1] == 'X' as int) {
        base := 16;
        s := s[2..];
        if |s| < 1 {
          return 0, Some(NumError(s0, ErrSyntax));
        }
      } else if s[0] == '0' as int {
        base := 8;
      } else {
        base := 10;
      }
    } else {
      return 0, Some(NumError(s0, ErrInvalidBase(base)));
    }
    var maxVal := Wrap(ShiftedOne(bitSize) - 1);
    MaxValIsBound(bitSize0);
    var cause;
    n, cause := ScanDigits(s, base, maxVal);
    err := if cause == None then None else Some(NumError(s0, cause.value));
  }

  lemma {:induction false} MaxValIsBound(bitSize: int)
    ensures Wrap(ShiftedOne(if bitSize == 0 then INT_SIZE else bitSize) - 1) == Bound(bitSize)
  {
    Pow2Of64();
    if 0 < bitSize < 64 {
      Pow2Doubles(bitSize, 64);
    }
  }
}
