/** The hexadecimal quantity encoding that the Ethereum node speaks
    (go-ethereum's `hexutil`): `EncodeBig`, `DecodeUint64` and the validity check of
    `DecodeBig`. The library itself is not part of this model; these functions follow
    its documented behaviour: a `0x` or `0X` prefix, at least one digit, no leading
    zero digit, digits in either case, and a range limit. */
module Hexutil {
  import opened Wrappers
  import opened Bson

  const TwoTo64: int := 0x1_0000_0000_0000_0000

  /** Lower-case hexadecimal digit, as `big.Int.Text(16)` writes it. */
  function HexDigit(d: nat): (c: char)
    requires d < 16
  {
    if d < 10 then ('0' as int + d) as char else ('a' as int + d - 10) as char
  }

  /** A hexadecimal digit in either case. */
  predicate IsHexDigit(c: char)
  {
    '0' <= c <= '9' || 'a' <= c <= 'f' || 'A' <= c <= 'F'
  }

  /** The value of a hexadecimal digit in either case: the digit that `HexDigit`
      writes for it, or its upper-case form. */
  function DigitValue(c: char): (r: Option<nat>)
    ensures r.Some? <==> IsHexDigit(c)
    ensures r.Some? ==> r.value < 16 && (c == HexDigit(r.value) || c as int == HexDigit(r.value) as int - 32)
  {
    if '0' <= c <= '9' then Some(c as int - '0' as int)
    else if 'a' <= c <= 'f' then Some(c as int - 'a' as int + 10)
    else if 'A' <= c <= 'F' then Some(c as int - 'A' as int + 10)
    else None
  }

  predicate IsLowerHexDigit(c: char)
  {
    '0' <= c <= '9' || 'a' <= c <= 'f'
  }

  /** `big.Int.Text(16)` of a non-negative number: no leading zeros, "0" for zero. */
  function HexText(n: nat): (s: string)
    decreases n
  {
    if n < 16 then [HexDigit(n)] else HexText(n / 16) + [HexDigit(n % 16)]
  }

  /** `hexutil.EncodeBig`. */
  function EncodeBig(n: int): string
  {
    if n == 0 then "0x0"
    else if n > 0 then "0x" + HexText(n)
    else "-0x" + HexText(-n)
  }

  /** The value of a string made only of hexadecimal digits; None if some
      character is not one (the empty string reads as 0). */
  function ParseHex(s: string): (r: Option<nat>)
    ensures r.Some? <==> forall i :: 0 <= i < |s| ==> IsHexDigit(s[i])
    ensures r.Some? ==> r.value < Pow16(|s|)
    decreases |s|
  {
    if |s| == 0 then Some(0)
    else match ParseHex(s[..|s| - 1])
      case None =>
        assert forall i :: 0 <= i < |s| - 1 ==> s[i] == s[..|s| - 1][i];
        None
      case Some(p) =>
        assert forall i :: 0 <= i < |s| - 1 ==> s[i] == s[..|s| - 1][i];
        match DigitValue(s[|s| - 1])
        case None => None
        case Some(d) =>
          assert p * 16 + d < 16 * Pow16(|s| - 1) by {
            assert p + 1 <= Pow16(|s| - 1);
            assert (p + 1) * 16 <= 16 * Pow16(|s| - 1);
          }
          Some(p * 16 + d)
  }

  predicate Has0xPrefix(s: string)
  {
    |s| >= 2 && s[0] == '0' && (s[1] == 'x' || s[1] == 'X')
  }

  /** hexutil's `checkNumber`: the digits after the prefix, or None for the empty
      string, a missing prefix, no digits, or a leading zero digit. */
  function CheckNumber(s: string): (r: Option<string>)
    ensures r.Some? <==> Has0xPrefix(s) && |s| > 2 && (|s| == 3 || s[2] != '0')
    ensures r.Some? ==> r.value == s[2..]
  {
    if |s| == 0 then None
    else if !Has0xPrefix(s) then None
    else
      var raw := s[2..];
      if |raw| == 0 then None
      else if |raw| > 1 && raw[0] == '0' then None
      else Some(raw)
  }

  /** `hexutil.DecodeUint64`; `MustDecodeUint64` panics exactly when this is None. */
  function DecodeUint64(s: string): (r: Option<uint64>)
    ensures r.Some? <==> CheckNumber(s).Some? && ParseHex(s[2..]).Some? && ParseHex(s[2..]).value < TwoTo64
    ensures r.Some? ==> ParseHex(s[2..]) == Some(r.value as nat)
  {
    match CheckNumber(s)
    case None => None
    case Some(raw) =>
      match ParseHex(raw)
      case None => None
      case Some(v) => if v < TwoTo64 then Some(v) else None
  }

  /** `hexutil.DecodeBig` (at most 256 bits, that is 64 digits); `MustDecodeBig`
      panics exactly when this is None. */
  function DecodeBig(s: string): (r: Option<nat>)
    ensures r.Some? <==> CheckNumber(s).Some? && |s| <= 66 && ParseHex(s[2..]).Some?
    ensures r.Some? ==> r == ParseHex(s[2..]) && r.value < Pow16(64)
  {
    match CheckNumber(s)
    case None => None
    case Some(raw) =>
      if |raw| > 64 then None
      else
        Pow16Monotone(|raw|, 64);
        ParseHex(raw)
  }

  // ---------------------------------------------------------------------------
  // Round trip between EncodeBig and DecodeUint64

  lemma DigitRoundTrip(d: nat)
    requires d < 16
    ensures DigitValue(HexDigit(d)) == Some(d)
    ensures IsLowerHexDigit(HexDigit(d))
  {
  }

  lemma {:induction false} HexTextShape(n: nat)
    ensures |HexText(n)| >= 1
    ensures n > 0 ==> HexText(n)[0] != '0'
    ensures forall i :: 0 <= i < |HexText(n)| ==> IsLowerHexDigit(HexText(n)[i])
    decreases n
  {
    if n >= 16 {
      HexTextShape(n / 16);
      DigitRoundTrip(n % 16);
      assert HexText(n) == HexText(n / 16) + [HexDigit(n % 16)];
    } else {
      DigitRoundTrip(n);
    }
  }

  /** Parsing the digits that `big.Int.Text(16)` writes gives the number back. */
  lemma {:induction false} ParseHexText(n: nat)
    ensures ParseHex(HexText(n)) == Some(n)
    decreases n
  {
    DigitRoundTrip(n % 16);
    if n < 16 {
      assert HexText(n)[..0] == [];
    } else {
      var s := HexText(n);
      assert s[..|s| - 1] == HexText(n / 16);
      assert s[|s| - 1] == HexDigit(n % 16);
      ParseHexText(n / 16);
    }
  }

  function Pow16(k: nat): (r: nat)
    ensures r >= 1
  {
    if k == 0 then 1 else 16 * Pow16(k - 1)
  }

  lemma {:induction false} Pow16Monotone(j: nat, k: nat)
    requires j <= k
    ensures Pow16(j) <= Pow16(k)
    decreases k
  {
    if j < k {
      Pow16Monotone(j, k - 1);
    }
  }

  /** Decoding what `EncodeBig` writes for a uint64 gives the same number. */
  lemma DecodeEncodeUint64(n: uint64)
    ensures DecodeUint64(EncodeBig(n)) == Some(n)
  {
    var s := EncodeBig(n);
    if n == 0 {
      assert s[2..] == "0";
      assert ParseHex("0") == Some(0) by {
        assert "0"[..0] == [];
      }
    } else {
      HexTextShape(n);
      ParseHexText(n);
      assert s[2..] == HexText(n);
    }
  }

  /** Distinct numbers have distinct `EncodeBig` texts. */
  lemma EncodeBigInjective(m: int, n: int)
    requires EncodeBig(m) == EncodeBig(n)
    ensures m == n
  {
    if m >= 0 && n >= 0 {
      EncodeNonNegative(m);
      EncodeNonNegative(n);
      HexTextInjective(m, n, 2, EncodeBig(m));
    } else if m < 0 && n < 0 {
      HexTextInjective(-m, -n, 3, EncodeBig(m));
    } else {
      // One text starts with '0', the other with '-'.
      EncodeBigSign(m);
      EncodeBigSign(n);
      assert false;
    }
  }

  /** The first character of `EncodeBig` tells the sign. */
  lemma EncodeBigSign(n: int)
    ensures |EncodeBig(n)| > 0
    ensures EncodeBig(n)[0] == if n >= 0 then '0' else '-'
  {
  }

  lemma EncodeNonNegative(n: nat)
    ensures EncodeBig(n) == "0x" + HexText(n)
  {
    if n == 0 {
      assert HexText(0) == "0";
    }
  }

  /** Two numbers whose digits both follow the same prefix of length `k` in `s`. */
  lemma HexTextInjective(m: nat, n: nat, k: nat, s: string)
    requires k <= |s| && s[k..] == HexText(m) && s[k..] == HexText(n)
    ensures m == n
  {
    ParseHexText(m);
    ParseHexText(n);
  }

  // ---------------------------------------------------------------------------
  // The converse: a decodable lower-case quantity is exactly what EncodeBig writes

  lemma {:induction false} ParseHexPositive(s: string)
    requires |s| >= 1 && s[0] != '0' && ParseHex(s).Some?
    ensures ParseHex(s).value >= Pow16(|s| - 1)
    decreases |s|
  {
    if |s| > 1 {
      var p := s[..|s| - 1];
      assert p[0] == s[0];
      ParseHexPositive(p);
    } else {
      assert s[..0] == [];
    }
  }

  lemma {:induction false} ParseHexCanonical(s: string)
    requires |s| >= 1 && (|s| == 1 || s[0] != '0')
    requires forall i :: 0 <= i < |s| ==> IsLowerHexDigit(s[i])
    requires ParseHex(s).Some?
    ensures HexText(ParseHex(s).value) == s
    decreases |s|
  {
    var n := ParseHex(s).value;
    var c := s[|s| - 1];
    var d := DigitValue(c).value;
    assert HexDigit(d) == c;
    if |s| == 1 {
      assert s[..0] == [];
      assert n == d;
      assert HexText(n) == [c];
      assert s == [c];
    } else {
      var p := s[..|s| - 1];
      assert p[0] == s[0];
      var q := ParseHex(p).value;
      assert n == q * 16 + d;
      ParseHexPositive(p);
      assert q >= 1;
      ParseHexCanonical(p);
      assert n / 16 == q && n % 16 == d;
      assert HexText(n) == HexText(q) + [HexDigit(d)];
      assert s == p + [c];
    }
  }

  /** A quantity that DecodeUint64 accepts and that is written with a lower-case
      `0x` prefix and lower-case digits is exactly `EncodeBig` of its value: the
      encoding is canonical. */
  lemma EncodeDecodeCanonical(s: string)
    requires DecodeUint64(s).Some?
    requires s[1] == 'x' && forall i :: 2 <= i < |s| ==> IsLowerHexDigit(s[i])
    ensures EncodeBig(DecodeUint64(s).value) == s
  {
    var raw := s[2..];
    var n := DecodeUint64(s).value;
    assert forall i :: 0 <= i < |raw| ==> IsLowerHexDigit(raw[i]) by {
      forall i | 0 <= i < |raw| ensures IsLowerHexDigit(raw[i]) {
        assert raw[i] == s[i + 2];
      }
    }
    ParseHexCanonical(raw);
    assert s == "0x" + raw;
    if n == 0 {
      assert raw == HexText(0);
    }
  }
}
