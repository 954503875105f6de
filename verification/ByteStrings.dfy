/** Byte strings as the wire carries them: big-endian integers, byte sums and hexadecimal text. */
module ByteStrings {
  import opened Wrappers

  type byte = x: int | 0 <= x < 256
  type bytes = seq<byte>

  /** A slice as Python takes it: bounds past the end are cut back to the end. */
  function Slice<T>(s: seq<T>, lo: nat, hi: nat): seq<T>
  {
    if lo >= |s| || lo >= hi then []
    else if hi >= |s| then s[lo..]
    else s[lo..hi]
  }

  /** The unsigned big-endian integer a byte string spells; 0 for the empty string. */
  function FromBytes(s: bytes): nat
  {
    if |s| == 0 then 0 else FromBytes(s[..|s| - 1]) * 256 + s[|s| - 1]
  }

  lemma FromBytes2(s: bytes)
    requires |s| == 2
    ensures FromBytes(s) == s[0] as int * 256 + s[1]
  {
    assert s[..1][..0] == [] && s[..1][0] == s[0];
    assert FromBytes(s[..1]) == s[0];
  }

  lemma FromBytes4(s: bytes)
    requires |s| == 4
    ensures FromBytes(s) == ((s[0] as int * 256 + s[1]) * 256 + s[2]) * 256 + s[3]
  {
    FromBytes2(s[..2]);
    assert s[..3][..2] == s[..2];
  }

  function Zeros(n: nat): (b: bytes)
    ensures |b| == n && forall i :: 0 <= i < n ==> b[i] == 0
  {
    seq(n, _ => 0)
  }

  lemma {:induction false} FromBytesPadded(n: nat, s: bytes)
    ensures FromBytes(Zeros(n) + s) == FromBytes(s)
    decreases |s|, n
  {
    var padded := Zeros(n) + s;
    if |s| > 0 {
      assert padded[..|padded| - 1] == Zeros(n) + s[..|s| - 1];
      FromBytesPadded(n, s[..|s| - 1]);
    } else if n > 0 {
      assert padded[..|padded| - 1] == Zeros(n - 1) + s;
      FromBytesPadded(n - 1, s);
    }
  }

  lemma FromBytesWord(s: bytes)
    requires |s| <= 4
    ensures FromBytes(s) < 0x1_0000_0000
  {
    var padded := Zeros(4 - |s|) + s;
    FromBytesPadded(4 - |s|, s);
    FromBytes4(padded);
  }

  function U16(n: int): (b: bytes)
    requires 0 <= n < 0x1_0000
    ensures |b| == 2 && FromBytes(b) == n
  {
    var b := [n / 256, n % 256];
    FromBytes2(b);
    b
  }

  function U32(n: int): (b: bytes)
    requires 0 <= n < 0x1_0000_0000
    ensures |b| == 4 && FromBytes(b) == n
  {
    var n1 := n / 256;
    var n2 := n1 / 256;
    var b := [n2 / 256, n2 % 256, n1 % 256, n % 256];
    FromBytes4(b);
    b
  }

  lemma SameDigits(a: nat, x: byte, b: nat, y: byte)
    requires a * 256 + x == b * 256 + y
    ensures a == b && x == y
  {
  }

  /** Two byte strings of one length spelling one integer are the same. */
  lemma {:induction false} FromBytesInjective(s: bytes, t: bytes)
    requires |s| == |t| && FromBytes(s) == FromBytes(t)
    ensures s == t
  {
    if |s| == 0 {
    } else {
      var n := |s| - 1;
      SameDigits(FromBytes(s[..n]), s[n], FromBytes(t[..n]), t[n]);
      FromBytesInjective(s[..n], t[..n]);
      assert s == s[..n] + [s[n]] && t == t[..n] + [t[n]];
    }
  }

  function Sum(s: bytes): nat
  {
    if |s| == 0 then 0 else s[0] + Sum(s[1..])
  }

  lemma {:induction false} SumAppend(s: bytes, t: bytes)
    ensures Sum(s + t) == Sum(s) + Sum(t)
  {
    if |s| == 0 {
      assert s + t == t;
    } else {
      assert (s + t)[1..] == s[1..] + t;
      SumAppend(s[1..], t);
    }
  }

  lemma {:induction false} SumUpdate(s: bytes, k: nat, b: byte)
    requires k < |s|
    ensures Sum(s[k := b]) == Sum(s) - s[k] + b
  {
    if k == 0 {
    } else {
      assert s[k := b][1..] == s[1..][k - 1 := b];
      SumUpdate(s[1..], k - 1, b);
    }
  }

  /** A change of one byte moves a sum by less than 0xFFFF, so it never vanishes in the checksum. */
  lemma SumUpdateMod(s: bytes, k: nat, b: byte)
    requires k < |s| && b != s[k]
    ensures Sum(s[k := b]) % 0xFFFF != Sum(s) % 0xFFFF
  {
    SumUpdate(s, k, b);
  }

  // Hexadecimal text

  function HexDigit(n: nat): char
    requires n < 16
  {
    if n < 10 then (n + '0' as int) as char else (n - 10 + 'a' as int) as char
  }

  function Hex(b: bytes): (s: string)
    ensures |s| == 2 * |b|
  {
    if |b| == 0 then "" else [HexDigit(b[0] / 16), HexDigit(b[0] % 16)] + Hex(b[1..])
  }

  function DigitValue(c: char): (v: Option<nat>)
    ensures v.Some? ==> v.value < 16
  {
    if '0' <= c <= '9' then Some((c - '0') as int)
    else if 'a' <= c <= 'f' then Some((c - 'a') as int + 10)
    else if 'A' <= c <= 'F' then Some((c - 'A') as int + 10)
    else None
  }

  predicate IsSpace(c: char)
  {
    c == ' ' || 9 <= c as int <= 13
  }

  /** Python's `bytes.fromhex`: digit pairs in either case, white space between them, anything else an error. */
  function FromHex(s: string): Option<bytes>
  {
    if |s| == 0 then Some([])
    else if IsSpace(s[0]) then FromHex(s[1..])
    else if |s| == 1 then None
    else match (DigitValue(s[0]), DigitValue(s[1]))
      case (Some(hi), Some(lo)) =>
        (match FromHex(s[2..])
         case Some(rest) => Some([hi * 16 + lo] + rest)
         case None => None)
      case _ => None
  }

  predicate IsLowerHex(s: string)
  {
    forall i | 0 <= i < |s| :: '0' <= s[i] <= '9' || 'a' <= s[i] <= 'f'
  }

  lemma DigitRoundTrip(c: char)
    requires '0' <= c <= '9' || 'a' <= c <= 'f'
    ensures DigitValue(c).Some? && HexDigit(DigitValue(c).value) == c && !IsSpace(c)
  {
  }

  lemma DigitPair(hi: nat, lo: nat, rest: bytes)
    requires hi < 16 && lo < 16
    ensures Hex([hi * 16 + lo] + rest) == [HexDigit(hi), HexDigit(lo)] + Hex(rest)
  {
    var b := [hi * 16 + lo] + rest;
    assert b[1..] == rest;
    assert b[0] / 16 == hi && b[0] % 16 == lo;
  }

  lemma FromHexDigits(s: string, hi: nat, lo: nat, rest: bytes)
    requires |s| >= 2 && !IsSpace(s[0]) && DigitValue(s[0]) == Some(hi) && DigitValue(s[1]) == Some(lo)
    requires FromHex(s[2..]) == Some(rest)
    ensures FromHex(s) == Some([hi * 16 + lo] + rest)
  {
  }

  lemma FromHexPair(s: string, rest: bytes)
    requires |s| >= 2 && IsLowerHex(s[..2]) && FromHex(s[2..]) == Some(rest)
    ensures FromHex(s).Some? && |FromHex(s).value| == 1 + |rest| && Hex(FromHex(s).value) == s[..2] + Hex(rest)
  {
    assert s[0] == s[..2][0] && s[1] == s[..2][1];
    DigitRoundTrip(s[0]);
    DigitRoundTrip(s[1]);
    var hi, lo := DigitValue(s[0]).value, DigitValue(s[1]).value;
    FromHexDigits(s, hi, lo, rest);
    DigitPair(hi, lo, rest);
    assert s[..2] == [s[0], s[1]];
  }

  /** Reading lower-case hexadecimal text and printing it again gives the text back. */
  lemma {:induction false} HexRoundTrip(s: string)
    requires IsLowerHex(s) && |s| % 2 == 0
    ensures FromHex(s).Some? && |FromHex(s).value| == |s| / 2 && Hex(FromHex(s).value) == s
    decreases |s|
  {
    if |s| == 0 {
    } else {
      HexRoundTrip(s[2..]);
      FromHexPair(s, FromHex(s[2..]).value);
      assert s == s[..2] + s[2..];
    }
  }
}
