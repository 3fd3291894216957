/**
 utils/addrs/mac.go: a 48-bit number printed as xx:xx:xx:xx:xx:xx.  The integer parser is its inverse; outside
 48 bits the function fails or prints something that is no address.  The number is formatted in base sixteen,
 padded with zeros to twelve characters, and cut into pairs; what goes wrong beyond 48 bits comes from the cutting.
 */
module MacAddress {
  import opened Wrappers
  import opened UintParser

  const TWO_TO_THE_44: nat := 0x1000_0000_0000
  const TWO_TO_THE_48: nat := 0x1_0000_0000_0000

  predicate IsHexDigit(c: char) {
    '0' <= c <= '9' || 'a' <= c <= 'f'
  }

  function HexChar(x: nat): (c: char)
    requires x < 16
    ensures IsHexDigit(c) && DigitOf(c as int) == Some(x)
    ensures c == "0123456789abcdef"[x]
  {
    if x < 10 then ('0' as int + x) as char else ('a' as int + x - 10) as char
  }

  /** strconv.FormatInt(x, 16) for x >= 0. */
  function FormatHex(x: nat): (r: string)
    ensures |r| >= 1 && forall i :: 0 <= i < |r| ==> IsHexDigit(r[i])
  {
    if x < 16 then [HexChar(x)] else FormatHex(x / 16) + [HexChar(x % 16)]
  }

  /** strconv.FormatInt(int64(m), 16): numbers from 2^63 on turn negative in the conversion. */
  function FormatInt64(m: Uint64): string {
    if m < TWO_TO_THE_64 / 2 then FormatHex(m) else "-" + FormatHex(TWO_TO_THE_64 - m)
  }

  function Pow16(k: nat): (r: nat)
    ensures r > 0
  {
    if k == 0 then 1 else 16 * Pow16(k - 1)
  }

  /** A number has at most k hex digits exactly when it is below 16^k. */
  lemma {:induction false} FormatHexLength(x: nat, k: nat)
    requires k >= 1
    ensures |FormatHex(x)| <= k <==> x < Pow16(k)
  {
    if k == 1 {
      assert Pow16(1) == 16;
    } else {
      assert Pow16(k) == 16 * Pow16(k - 1);
      FormatHexLength(x / 16, k - 1);
      if x < 16 {
        assert 16 <= 16 * Pow16(k - 1);
      }
    }
  }

  lemma {:induction false} Pow16Values()
    ensures Pow16(11) == TWO_TO_THE_44 && Pow16(12) == TWO_TO_THE_48
  {
    assert Pow16(3) == 0x1000;
    assert Pow16(6) == 0x1000 * Pow16(3);
    assert Pow16(9) == 0x1000 * Pow16(6);
    assert Pow16(11) == 0x100 * Pow16(9);
  }

  /** xx:xx:xx:xx:xx:xx with hex digits x. */
  predicate IsAddress(t: string) {
    |t| == 17 && forall i :: 0 <= i < 17 ==> if i % 3 == 2 then t[i] == ':' else IsHexDigit(t[i])
  }

  function WithoutColons(t: string): string {
    if t == [] then []
    else WithoutColons(t[..|t| - 1]) + if t[|t| - 1] == ':' then [] else [t[|t| - 1]]
  }

  lemma {:induction false} WithoutColonsOfNext(t: string, c: char)
    ensures WithoutColons(t + [c]) == WithoutColons(t) + if c == ':' then [] else [c]
  {
    assert (t + [c])[..|t|] == t;
  }

  function Zeros(k: nat): (r: string)
    ensures |r| == k && forall i :: 0 <= i < k ==> r[i] == '0'
  {
    seq(k, _ => '0')
  }

  const PADDING := "000000000000"

  /** The text t is the padded hexadecimal form of m with colons added. */
  predicate Prints(m: Uint64, t: string) {
    |FormatInt64(m)| <= 12 && WithoutColons(t) == Zeros(12 - |FormatInt64(m)|) + FormatInt64(m)
  }

  /** The colons stand after every second of the other characters and nowhere else. */
  predicate Spaced(t: string) {
    forall i :: 0 <= i < |t| ==> (t[i] == ':' <==> i % 3 == 2)
  }

  lemma {:induction false} SpacedNext(t: string, c: char)
    requires Spaced(t) && (c == ':' <==> |t| % 3 == 2)
    ensures Spaced(t + [c])
  {
  }

  /** Seventeen characters with colons between pairs. */
  predicate ColonsInPlace(t: string) {
    |t| == 17 && Spaced(t)
  }

  /**
   mac.go:9-22.  None stands for the run-time panic of the negative slice bound.
   */
  method MacIntToString(macInt: Uint64) returns (r: Option<string>)
    ensures r == None <==> TWO_TO_THE_48 <= macInt <= TWO_TO_THE_64 - TWO_TO_THE_44
    ensures r.Some? ==> Prints(macInt, r.value) && ColonsInPlace(r.value)
    ensures r.Some? && IsAddress(r.value) <==> macInt < TWO_TO_THE_48
  {
    var macStr := FormatInt64(macInt);
    PrintedWidth(macInt);
    if |PADDING| < |macStr| {
      return None;
    }
    var padded := PADDING[..|PADDING| - |macStr|] + macStr;
    assert padded == Zeros(12 - |macStr|) + macStr;
    var buffer := WriteWithColons(padded);
    AddressExactlyBelow48Bits(macInt, buffer);
    return Some(buffer);
  }

  /** mac.go:13-20, the loop over the padded text. */
  method WriteWithColons(padded: string) returns (buffer: string)
    requires |padded| == 12 && forall i :: 0 <= i < 12 ==> padded[i] != ':'
    ensures WithoutColons(buffer) == padded && ColonsInPlace(buffer)
  {
    buffer := "";
    for index := 0 to |padded|
      invariant |buffer| == index + if index < 12 then index / 2 else 5
      invariant WithoutColons(buffer) == padded[..index]
      invariant Spaced(buffer)
    {
      WithoutColonsOfNext(buffer, padded[index]);
      SpacedNext(buffer, padded[index]);
      assert padded[..index + 1] == padded[..index] + [padded[index]];
      buffer := buffer + [padded[index]];
      if index % 2 == 1 && index != |padded| - 1 {
        WithoutColonsOfNext(buffer, ':');
        SpacedNext(buffer, ':');
        buffer := buffer + [':'];
      }
    }
    assert padded[..12] == padded;
  }

  predicate HexOrColon(t: string) {
    forall i :: 0 <= i < |t| ==> t[i] == ':' || IsHexDigit(t[i])
  }

  /** The characters other than colons are hex digits in a text just when they are once the colons are gone. */
  lemma {:induction false} HexApartFromColons(t: string)
    ensures AllHex(WithoutColons(t)) <==> HexOrColon(t)
  {
    if t != [] {
      var init, last := t[..|t| - 1], t[|t| - 1];
      HexApartFromColons(init);
      assert WithoutColons(t) == if last == ':' then WithoutColons(init) else WithoutColons(init) + [last];
      AllHexOfNext(WithoutColons(init), last);
      assert HexOrColon(t) ==> HexOrColon(init) && (last == ':' || IsHexDigit(last));
    }
  }

  lemma {:induction false} AllHexOfNext(t: string, c: char)
    ensures AllHex(t + [c]) <==> AllHex(t) && IsHexDigit(c)
  {
    assert (t + [c])[|t|] == c;
    assert forall i :: 0 <= i < |t| ==> (t + [c])[i] == t[i];
  }

  lemma {:induction false} AddressExactlyBelow48Bits(m: Uint64, t: string)
    requires Prints(m, t) && ColonsInPlace(t)
    ensures IsAddress(t) <==> m < TWO_TO_THE_48
  {
    HexApartFromColons(t);
    PrintedWidth(m);
    if m < TWO_TO_THE_48 {
      PaddedHexValue(12 - |FormatHex(m)|, m);
    } else {
      assert WithoutColons(t)[12 - |FormatInt64(m)|] == '-';
    }
  }

  /** The text outgrows its twelve characters exactly between 2^48 and 2^64 - 2^44. */
  lemma {:induction false} PrintedWidth(m: Uint64)
    ensures |FormatInt64(m)| > 12 <==> TWO_TO_THE_48 <= m <= TWO_TO_THE_64 - TWO_TO_THE_44
    ensures m >= TWO_TO_THE_64 / 2 <==> FormatInt64(m)[0] == '-'
    ensures forall i :: 0 <= i < |FormatInt64(m)| ==> FormatInt64(m)[i] != ':'
  {
    Pow16Values();
    if m < TWO_TO_THE_64 / 2 {
      FormatHexLength(m, 12);
    } else {
      FormatHexLength(TWO_TO_THE_64 - m, 11);
    }
  }

  // ---------------------------------------------------------------- the parser undoes the printer

  function Bytes(t: string): (r: seq<Byte>)
    requires forall i :: 0 <= i < |t| ==> t[i] as int < 256
    ensures |r| == |t|
  {
    seq(|t|, i requires 0 <= i < |t| => t[i] as int)
  }

  predicate AllHex(t: string) {
    forall i :: 0 <= i < |t| ==> IsHexDigit(t[i])
  }

  lemma {:induction false} HexTextParses(t: string)
    requires AllHex(t)
    ensures AllDigits(Bytes(t), 16)
  {
  }

  lemma {:induction false} ValueOfAppend(t: string, x: nat)
    requires AllHex(t) && x < 16
    ensures AllDigits(Bytes(t), 16) && AllDigits(Bytes(t + [HexChar(x)]), 16)
    ensures Value(Bytes(t + [HexChar(x)]), 16) == Value(Bytes(t), 16) * 16 + x
  {
    HexTextParses(t);
    HexTextParses(t + [HexChar(x)]);
    assert Bytes(t + [HexChar(x)])[..|t|] == Bytes(t);
  }

  lemma {:induction false} ValueOfZeros(k: nat)
    ensures AllHex(Zeros(k)) && AllDigits(Bytes(Zeros(k)), 16) && Value(Bytes(Zeros(k)), 16) == 0
  {
    HexTextParses(Zeros(k));
    if k > 0 {
      ValueOfZeros(k - 1);
      ValueOfAppend(Zeros(k - 1), 0);
      assert Zeros(k) == Zeros(k - 1) + [HexChar(0)];
    }
  }

  lemma {:induction false} PaddedHexValue(k: nat, x: nat)
    ensures var t := Zeros(k) + FormatHex(x);
      AllHex(t) && AllDigits(Bytes(t), 16) && Value(Bytes(t), 16) == x
  {
    ValueOfZeros(k);
    if x < 16 {
      ValueOfAppend(Zeros(k), x);
      assert Zeros(k) + FormatHex(x) == Zeros(k) + [HexChar(x)];
    } else {
      PaddedHexValue(k, x / 16);
      ValueOfAppend(Zeros(k) + FormatHex(x / 16), x % 16);
      assert Zeros(k) + FormatHex(x) == Zeros(k) + FormatHex(x / 16) + [HexChar(x % 16)];
    }
  }

  lemma {:induction false} HexAnswer(s: seq<Byte>, m: Uint64, n: Uint64, err: Option<NumError>)
    requires s != [] && AllDigits(s, 16) && Value(s, 16) == m
    ensures Answers(s, 16, 64, n, err) <==> n == m && err == None
  {
    assert Fits(s, 16, Bound(64), m);
    assert Answers(s, 16, 64, m, None);
    AnswerIsExact(s, 16, 64, m, None);
  }

  lemma {:induction false} PaddedHexParses(k: nat, m: Uint64, t: string, n: Uint64, err: Option<NumError>)
    requires t == Zeros(k) + FormatHex(m)
    ensures AllHex(t)
    ensures Answers(Bytes(t), 16, 64, n, err) <==> n == m && err == None
  {
    PaddedHexValue(k, m);
    HexAnswer(Bytes(t), m, n, err);
  }

  /** Parsing a printed 48-bit address without its colons in base 16 gives the number back. */
  lemma {:induction false} ParseUndoesPrint(m: Uint64, t: string, n: Uint64, err: Option<NumError>)
    requires m < TWO_TO_THE_48 && Prints(m, t)
    ensures AllHex(WithoutColons(t)) && |WithoutColons(t)| == 12
    ensures Answers(Bytes(WithoutColons(t)), 16, 64, n, err) <==> n == m && err == None
  {
    PrintedWidth(m);
    PaddedHexParses(12 - |FormatHex(m)|, m, WithoutColons(t), n, err);
  }

  /** Two 48-bit numbers never print alike. */
  lemma {:induction false} PrinterIsInjective(m1: Uint64, m2: Uint64, t: string)
    requires m1 < TWO_TO_THE_48 && m2 < TWO_TO_THE_48 && Prints(m1, t) && Prints(m2, t)
    ensures m1 == m2
  {
    ParseUndoesPrint(m1, t, m1, None);
    ParseUndoesPrint(m2, t, m1, None);
  }
}
