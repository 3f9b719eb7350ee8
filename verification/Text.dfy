/** Cutting strings apart and writing numbers, as the key formats need it. */
module Text {
  import opened Machine
  import opened Wrappers

  function StripPrefix(s: string, prefix: string): Option<string> {
    if prefix <= s then Some(s[|prefix|..]) else None
  }

  predicate StartsWith(s: string, prefix: string) { prefix <= s }

  /** The parts before and after the first `mark`. */
  function SplitOnce(s: string, mark: char): Option<(string, string)> {
    if s == "" then None
    else if s[0] == mark then Some(("", s[1..]))
    else match SplitOnce(s[1..], mark)
      case Some(parts) => Some(([s[0]] + parts.0, parts.1))
      case None => None
  }

  /** The parts before and after the last `mark`. */
  function RSplitOnce(s: string, mark: string): Option<(string, string)> {
    if |mark| <= |s| then RSplitFrom(s, mark, |s| - |mark|) else None
  }

  function RSplitFrom(s: string, mark: string, i: nat): Option<(string, string)>
    requires i + |mark| <= |s|
  {
    if s[i..i + |mark|] == mark then Some((s[..i], s[i + |mark|..]))
    else if i == 0 then None
    else RSplitFrom(s, mark, i - 1)
  }

  lemma {:induction false} SplitsAtFirst(before: string, mark: char, after: string)
    requires mark !in before
    ensures SplitOnce(before + [mark] + after, mark) == Some((before, after))
  {
    var s := before + [mark] + after;
    if before == "" {
      assert s[1..] == after;
    } else {
      SplitsAtFirst(before[1..], mark, after);
      assert s[1..] == before[1..] + [mark] + after;
      assert [before[0]] + before[1..] == before;
    }
  }

  /** A split is at the first mark. */
  lemma {:induction false} SplitsBeforeTheMark(s: string, mark: char)
    requires SplitOnce(s, mark).Some?
    ensures mark !in SplitOnce(s, mark).value.0
  {
    if s[0] != mark {
      SplitsBeforeTheMark(s[1..], mark);
    }
  }

  /** What a split returns is what was there. */
  lemma {:induction false} SplitRejoins(s: string, mark: char)
    requires SplitOnce(s, mark).Some?
    ensures var parts := SplitOnce(s, mark).value; s == parts.0 + [mark] + parts.1
  {
    if s[0] != mark {
      SplitRejoins(s[1..], mark);
      var parts := SplitOnce(s, mark).value;
      calc {
        s;
        [s[0]] + s[1..];
        [s[0]] + (parts.0[1..] + [mark] + parts.1);
        parts.0 + [mark] + parts.1;
      }
    } else {
      assert s == "" + [mark] + s[1..];
    }
  }

  lemma {:induction false} RSplitFromRejoins(s: string, mark: string, i: nat)
    requires i + |mark| <= |s| && RSplitFrom(s, mark, i).Some?
    ensures var parts := RSplitFrom(s, mark, i).value; s == parts.0 + mark + parts.1
    decreases i
  {
    if s[i..i + |mark|] == mark {
      assert s == s[..i] + s[i..i + |mark|] + s[i + |mark|..];
    } else {
      RSplitFromRejoins(s, mark, i - 1);
    }
  }

  lemma RSplitsAtLast(before: string, mark: string, after: string)
    requires mark != "" && mark[|mark| - 1] !in after
    ensures RSplitOnce(before + mark + after, mark) == Some((before, after))
  {
    RSplitFallsTo(before, mark, after, |after| + |before|);
  }

  lemma {:induction false} RSplitFallsTo(before: string, mark: string, after: string, i: nat)
    requires mark != "" && mark[|mark| - 1] !in after
    requires |before| <= i <= |before| + |after|
    ensures RSplitFrom(before + mark + after, mark, i) == Some((before, after))
    decreases i
  {
    var s := before + mark + after;
    if i == |before| {
      assert s[i..i + |mark|] == mark;
      assert s[..i] == before;
      assert s[i + |mark|..] == after;
    } else {
      var last := s[i..i + |mark|][|mark| - 1];
      assert last == s[i + |mark| - 1] == after[i - |before| - 1];
      RSplitFallsTo(before, mark, after, i - 1);
    }
  }

  // ---------------------------------------------------------------------
  // Numbers
  // ---------------------------------------------------------------------

  const HEX: string := "0123456789abcdef"

  predicate IsDigit(c: char) { '0' <= c <= '9' }
  predicate AllDigits(s: string) { forall i :: 0 <= i < |s| ==> IsDigit(s[i]) }
  predicate IsHexDigit(c: char) { '0' <= c <= '9' || 'a' <= c <= 'f' || 'A' <= c <= 'F' }
  predicate AllHex(s: string) { forall i :: 0 <= i < |s| ==> IsHexDigit(s[i]) }

  function HexDigit(n: nat): (c: char)
    requires n < 16
    ensures IsHexDigit(c) && c != ':'
  {
    HEX[n]
  }

  /** `{:02x}` */
  function Hex2(n: U8): string { [HexDigit(n / 16), HexDigit(n % 16)] }

  /** `{:04x}` */
  function Hex4(n: U16): string { Hex2(n / 256) + Hex2(n % 256) }

  lemma HexDigitInjective(m: nat, n: nat)
    requires m < 16 && n < 16 && HexDigit(m) == HexDigit(n)
    ensures m == n
  {
    assert forall i :: 0 <= i < 10 ==> HEX[i] as nat == '0' as nat + i;
    assert forall i :: 10 <= i < 16 ==> HEX[i] as nat == 'a' as nat + (i - 10);
  }

  lemma Hex2Injective(m: U8, n: U8)
    requires Hex2(m) == Hex2(n)
    ensures m == n
  {
    assert Hex2(m)[0] == HexDigit(m / 16) && Hex2(m)[1] == HexDigit(m % 16);
    assert Hex2(n)[0] == HexDigit(n / 16) && Hex2(n)[1] == HexDigit(n % 16);
    HexDigitInjective(m / 16, n / 16);
    HexDigitInjective(m % 16, n % 16);
  }

  lemma Hex4Injective(m: U16, n: U16)
    requires Hex4(m) == Hex4(n)
    ensures m == n
  {
    assert Hex4(m)[..2] == Hex2(m / 256) && Hex4(m)[2..] == Hex2(m % 256);
    assert Hex4(n)[..2] == Hex2(n / 256) && Hex4(n)[2..] == Hex2(n % 256);
    Hex2Injective(m / 256, n / 256);
    Hex2Injective(m % 256, n % 256);
  }

  function Digit(n: nat): (c: char)
    requires n < 10
    ensures IsDigit(c)
  {
    "0123456789"[n]
  }

  /** `{}` of a byte. */
  function Decimal(n: U8): (s: string)
    ensures s != "" && AllDigits(s)
  {
    if n < 10 then [Digit(n)]
    else if n < 100 then [Digit(n / 10)] + [Digit(n % 10)]
    else [Digit(n / 100)] + [Digit(n / 10 % 10)] + [Digit(n % 10)]
  }

  function DigitValue(c: char): nat
    requires IsDigit(c)
  {
    c as nat - '0' as nat
  }

  function DecimalValue(s: string): nat
    requires AllDigits(s)
  {
    if s == "" then 0 else 10 * DecimalValue(s[..|s| - 1]) + DigitValue(s[|s| - 1])
  }

  /** `parse::<u8>`: an optional plus, then digits, of a value that fits. */
  function ParseU8(s: string): Option<U8> {
    var digits := if StartsWith(s, "+") then s[1..] else s;
    if digits != "" && AllDigits(digits) then
      var n := DecimalValue(digits);
      if n < 0x100 then Some(n) else None
    else None
  }

  lemma DigitRoundTrip(n: nat)
    requires n < 10
    ensures DigitValue(Digit(n)) == n
  {
    assert forall k :: 0 <= k < 10 ==> "0123456789"[k] as nat == '0' as nat + k;
  }

  lemma ReadsOneMore(s: string, n: nat)
    requires n < 10 && AllDigits(s)
    ensures DecimalValue(s + [Digit(n)]) == 10 * DecimalValue(s) + n
  {
    DigitRoundTrip(n);
    assert (s + [Digit(n)])[..|s|] == s;
  }

  lemma OneDigitReads(n: nat)
    requires n < 10
    ensures DecimalValue([Digit(n)]) == n
  {
    DigitRoundTrip(n);
    assert [Digit(n)][..0] == "" && DecimalValue("") == 0;
  }

  lemma TwoDigitsRead(tens: nat, ones: nat)
    requires tens < 10 && ones < 10
    ensures DecimalValue([Digit(tens)] + [Digit(ones)]) == 10 * tens + ones
  {
    OneDigitReads(tens);
    ReadsOneMore([Digit(tens)], ones);
  }

  lemma ThreeDigitsRead(hundreds: nat, tens: nat, ones: nat)
    requires hundreds < 10 && tens < 10 && ones < 10
    ensures DecimalValue([Digit(hundreds)] + [Digit(tens)] + [Digit(ones)]) == 100 * hundreds + 10 * tens + ones
  {
    TwoDigitsRead(hundreds, tens);
    ReadsOneMore([Digit(hundreds)] + [Digit(tens)], ones);
  }

  lemma DigitsSum(n: nat)
    ensures n == 100 * (n / 100) + 10 * (n / 10 % 10) + n % 10
    ensures n < 100 ==> n == 10 * (n / 10) + n % 10
  {
    var tens, ones := n / 10, n % 10;
    assert n == 10 * tens + ones;
    var hundreds, rest := tens / 10, tens % 10;
    assert tens == 10 * hundreds + rest;
    assert 100 * hundreds <= n < 100 * hundreds + 100;
    assert n / 100 == hundreds;
  }

  lemma DecimalReads(n: U8)
    ensures DecimalValue(Decimal(n)) == n
  {
    DigitsSum(n);
    if n < 10 {
      OneDigitReads(n);
    } else if n < 100 {
      TwoDigitsRead(n / 10, n % 10);
    } else {
      ThreeDigitsRead(n / 100, n / 10 % 10, n % 10);
    }
  }

  /** A slot number is read back as it was written, and no other number is written that way. */
  lemma DecimalRoundTrip(n: U8)
    ensures ParseU8(Decimal(n)) == Some(n) && ParseU8("+" + Decimal(n)) == Some(n)
    ensures ':' !in Decimal(n)
  {
    DecimalReads(n);
    assert IsDigit(Decimal(n)[0]);
    assert ("+" + Decimal(n))[1..] == Decimal(n);
  }
}
