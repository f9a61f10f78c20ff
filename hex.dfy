/**
 * Hexadecimal text as the capture script produces it: `bytes.hex()` for
 * payloads (two lower-case digits per byte, no separators) and the format
 * `0x{id:04X}` for the manufacturer id (upper-case digits, zero-padded to at
 * least four). The decoders `Unhex` and `HexValue` are the inverses the
 * formatted fields are checked against.
 */
module Hex {
  import opened Wrappers

  /** One element of a Python `bytes` value. */
  type Byte = x: int | 0 <= x < 256

  predicate IsLowerHexDigit(c: char) {
    '0' <= c <= '9' || 'a' <= c <= 'f'
  }

  predicate IsUpperHexDigit(c: char) {
    '0' <= c <= '9' || 'A' <= c <= 'F'
  }

  /** The value of one hexadecimal digit of either case; None for any other character. */
  function DigitValue(c: char): (r: Option<nat>)
    ensures r.Some? <==> IsLowerHexDigit(c) || IsUpperHexDigit(c)
    ensures r.Some? ==> r.value < 16
  {
    if '0' <= c <= '9' then Some(c as int - '0' as int)
    else if 'a' <= c <= 'f' then Some(c as int - 'a' as int + 10)
    else if 'A' <= c <= 'F' then Some(c as int - 'A' as int + 10)
    else None
  }

  /** The lower-case digit for a value below 16. */
  function LowerDigit(n: nat): (c: char)
    requires n < 16
    ensures IsLowerHexDigit(c) && DigitValue(c) == Some(n)
  {
    if n < 10 then ('0' as int + n) as char else ('a' as int + n - 10) as char
  }

  /** The upper-case digit for a value below 16. */
  function UpperDigit(n: nat): (c: char)
    requires n < 16
    ensures IsUpperHexDigit(c) && DigitValue(c) == Some(n)
  {
    if n < 10 then ('0' as int + n) as char else ('A' as int + n - 10) as char
  }

  /** A lower-case digit is the one `LowerDigit` writes for its own value. */
  lemma LowerDigitOfValue(c: char)
    requires IsLowerHexDigit(c)
    ensures DigitValue(c).Some? && LowerDigit(DigitValue(c).value) == c
  {
  }

  /** `b.hex()` for a single byte: high nibble first. */
  function ByteHex(b: Byte): (s: string)
    ensures |s| == 2 && IsLowerHexDigit(s[0]) && IsLowerHexDigit(s[1])
    ensures DigitValue(s[0]).value * 16 + DigitValue(s[1]).value == b
  {
    [LowerDigit(b / 16), LowerDigit(b % 16)]
  }

  /** `bytes.hex()`: two lower-case digits per byte, in order, no separators. */
  function ToHex(bs: seq<Byte>): (s: string)
    ensures |s| == 2 * |bs|
    ensures forall i :: 0 <= i < |s| ==> IsLowerHexDigit(s[i])
  {
    if bs == [] then "" else ByteHex(bs[0]) + ToHex(bs[1..])
  }

  /**
   * `bytes.fromhex` restricted to unseparated text: pairs of digits of either
   * case, high digit first. None for an odd length or a non-digit character.
   */
  function Unhex(s: string): (r: Option<seq<Byte>>)
    ensures r.Some? <==> |s| % 2 == 0 && forall i :: 0 <= i < |s| ==> DigitValue(s[i]).Some?
    ensures r.Some? ==> 2 * |r.value| == |s|
  {
    if s == "" then Some([])
    else if |s| == 1 then None
    else if DigitValue(s[0]).None? || DigitValue(s[1]).None? then None
    else
      var rest := Unhex(s[2..]);
      if rest.None? then None
      else Some([(DigitValue(s[0]).value * 16 + DigitValue(s[1]).value) as Byte] + rest.value)
  }

  /** Decoding the hex text of a payload gives back the payload. */
  lemma {:induction false} UnhexHex(bs: seq<Byte>)
    ensures Unhex(ToHex(bs)) == Some(bs)
  {
    if bs != [] {
      var s := ToHex(bs);
      assert s[2..] == ToHex(bs[1..]);
      UnhexHex(bs[1..]);
      assert (bs[0] / 16) * 16 + bs[0] % 16 == bs[0];
      assert [bs[0]] + bs[1..] == bs;
    }
  }

  /** Lower-case hex text that decodes to some bytes is exactly their `hex()`. */
  lemma {:induction false} HexUnhex(s: string, bs: seq<Byte>)
    requires Unhex(s) == Some(bs)
    requires forall i :: 0 <= i < |s| ==> IsLowerHexDigit(s[i])
    ensures ToHex(bs) == s
  {
    if s != "" {
      var hi, lo := DigitValue(s[0]).value, DigitValue(s[1]).value;
      var rest := Unhex(s[2..]).value;
      assert bs == [(hi * 16 + lo) as Byte] + rest;
      HexUnhex(s[2..], rest);
      LowerDigitOfValue(s[0]);
      LowerDigitOfValue(s[1]);
      assert bs[0] / 16 == hi && bs[0] % 16 == lo;
      assert bs[1..] == rest;
      assert s == [s[0], s[1]] + s[2..];
    }
  }

  /** Two payloads with the same hex text are the same payload. */
  lemma HexInjective(a: seq<Byte>, b: seq<Byte>)
    requires ToHex(a) == ToHex(b)
    ensures a == b
  {
    UnhexHex(a);
    UnhexHex(b);
  }

  /** Upper-case digits of `n` without leading zeros, most significant first (`format(n, "X")`). */
  function UpperHexDigits(n: nat): (s: string)
    ensures 1 <= |s|
    ensures forall i :: 0 <= i < |s| ==> IsUpperHexDigit(s[i])
    decreases n
  {
    if n < 16 then [UpperDigit(n)] else UpperHexDigits(n / 16) + [UpperDigit(n % 16)]
  }

  /** `n` zero digits. */
  function Zeros(n: nat): (z: string)
    ensures |z| == n && forall i :: 0 <= i < n ==> z[i] == '0'
  {
    seq(n, _ => '0')
  }

  /** Left-pads with '0' up to `width` characters; longer text is kept whole. */
  function ZeroPad(s: string, width: nat): (r: string)
    ensures |r| == if |s| < width then width else |s|
    ensures r[|r| - |s|..] == s
    ensures forall i :: 0 <= i < |r| - |s| ==> r[i] == '0'
  {
    if |s| >= width then s else Zeros(width - |s|) + s
  }

  /** `f"0x{n:04X}"`. */
  function FormatId(n: nat): (s: string)
    ensures |s| >= 6 && s[..2] == "0x"
  {
    "0x" + ZeroPad(UpperHexDigits(n), 4)
  }

  /** The number a string of hex digits (either case) denotes, most significant first. */
  function HexValue(s: string): (v: nat)
    requires forall i :: 0 <= i < |s| ==> DigitValue(s[i]).Some?
  {
    if s == "" then 0 else 16 * HexValue(s[..|s| - 1]) + DigitValue(s[|s| - 1]).value
  }

  /** The digits `UpperHexDigits` writes denote the number they were written for. */
  lemma {:induction false} HexValueOfDigits(n: nat)
    ensures HexValue(UpperHexDigits(n)) == n
    decreases n
  {
    var s := UpperHexDigits(n);
    if n >= 16 {
      assert s[..|s| - 1] == UpperHexDigits(n / 16);
      HexValueOfDigits(n / 16);
    }
  }

  /** A leading zero digit does not change the value. */
  lemma {:induction false} HexValueLeadingZero(s: string)
    requires forall i :: 0 <= i < |s| ==> DigitValue(s[i]).Some?
    ensures HexValue("0" + s) == HexValue(s)
  {
    if s != "" {
      var z := "0" + s;
      assert z[..|z| - 1] == "0" + s[..|s| - 1];
      HexValueLeadingZero(s[..|s| - 1]);
    }
  }

  /** Leading zero digits do not change the value. */
  lemma {:induction false} HexValueZeros(k: nat, s: string)
    requires forall i :: 0 <= i < |s| ==> DigitValue(s[i]).Some?
    ensures forall i :: 0 <= i < |Zeros(k) + s| ==> DigitValue((Zeros(k) + s)[i]).Some?
    ensures HexValue(Zeros(k) + s) == HexValue(s)
  {
    if k > 0 {
      HexValueZeros(k - 1, s);
      assert Zeros(k) + s == "0" + (Zeros(k - 1) + s);
      HexValueLeadingZero(Zeros(k - 1) + s);
    } else {
      assert Zeros(k) + s == s;
    }
  }

  /** Zero padding does not change the value. */
  lemma HexValueZeroPad(s: string, width: nat)
    requires forall i :: 0 <= i < |s| ==> DigitValue(s[i]).Some?
    ensures forall i :: 0 <= i < |ZeroPad(s, width)| ==> DigitValue(ZeroPad(s, width)[i]).Some?
    ensures HexValue(ZeroPad(s, width)) == HexValue(s)
  {
    if |s| < width {
      HexValueZeros(width - |s|, s);
    }
  }

  function Pow16(k: nat): (p: nat)
    ensures p >= 1
  {
    if k == 0 then 1 else 16 * Pow16(k - 1)
  }

  /** A number below 16^k needs at most k digits. */
  lemma {:induction false} DigitsBound(n: nat, k: nat)
    requires 1 <= k && n < Pow16(k)
    ensures |UpperHexDigits(n)| <= k
    decreases n
  {
    if n >= 16 {
      assert k >= 2;
      assert n / 16 < Pow16(k - 1);
      DigitsBound(n / 16, k - 1);
    }
  }

  /**
   * For every 16-bit id the format gives "0x" and exactly four upper-case
   * digits whose value is the id.
   */
  lemma FormatIdShape(n: nat)
    requires n < 0x1_0000
    ensures |FormatId(n)| == 6 && FormatId(n)[..2] == "0x"
    ensures forall i :: 2 <= i < 6 ==> IsUpperHexDigit(FormatId(n)[i])
    ensures forall i :: 2 <= i < 6 ==> DigitValue(FormatId(n)[i]).Some?
    ensures HexValue(FormatId(n)[2..]) == n
  {
    var digits := UpperHexDigits(n);
    assert Pow16(4) == 0x1_0000;
    DigitsBound(n, 4);
    var padded := ZeroPad(digits, 4);
    assert FormatId(n)[2..] == padded;
    forall i | 0 <= i < 4
      ensures IsUpperHexDigit(padded[i])
    {
      if i >= 4 - |digits| {
        assert padded[i] == padded[4 - |digits|..][i - (4 - |digits|)];
      }
    }
    HexValueZeroPad(digits, 4);
    HexValueOfDigits(n);
  }
}
