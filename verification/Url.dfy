/** Percent coding (`crates/luaml/src/stdlib/url.rs`). */
module Url {
  // Section 2.1 of RFC 3986.

  import opened Wrappers

  type byte = x: int | 0 <= x < 256

  /** An ASCII character as a byte. */
  function Ascii(c: char): byte
    requires c < 128 as char
  {
    c as int
  }

  const PERCENT: byte := Ascii('%')

  predicate IsAlphanumeric(b: byte) {
    Ascii('0') <= b <= Ascii('9') || Ascii('A') <= b <= Ascii('Z') || Ascii('a') <= b <= Ascii('z')
  }

  /** The upper-case hexadecimal digit. */
  function HexDigit(n: int): byte
    requires 0 <= n < 16
  {
    if n < 10 then Ascii('0') + n else Ascii('A') + (n - 10)
  }

  /** `to_digit(16)`, in either case. */
  function DigitValue(b: byte): (n: Option<int>)
    ensures n.Some? ==> 0 <= n.value < 16
  {
    if Ascii('0') <= b <= Ascii('9') then Some(b - Ascii('0'))
    else if Ascii('A') <= b <= Ascii('F') then Some(b - Ascii('A') + 10)
    else if Ascii('a') <= b <= Ascii('f') then Some(b - Ascii('a') + 10)
    else None
  }

  /** `%HH`. */
  function Triplet(b: byte): seq<byte> {
    [PERCENT, HexDigit(b / 16), HexDigit(b % 16)]
  }

  function EncodeByte(b: byte): seq<byte> {
    if IsAlphanumeric(b) then [b] else Triplet(b)
  }

  function Encode(s: seq<byte>): seq<byte> {
    if s == [] then [] else EncodeByte(s[0]) + Encode(s[1..])
  }

  /** The byte that a triplet at the start of the text stands for. */
  function TripletValue(s: seq<byte>): (b: Option<byte>)
    ensures b.Some? ==> |s| >= 3
  {
    if |s| < 3 || s[0] != PERCENT || DigitValue(s[1]).None? || DigitValue(s[2]).None? then None
    else Some(DigitValue(s[1]).value * 16 + DigitValue(s[2]).value)
  }

  /** What is no triplet is passed through. */
  function Decode(s: seq<byte>): seq<byte> {
    if s == [] then []
    else
      match TripletValue(s)
      case Some(b) => [b] + Decode(s[3..])
      case None => [s[0]] + Decode(s[1..])
  }

  lemma EncodeStep(s: seq<byte>, i: nat, out: seq<byte>)
    requires i < |s|
    ensures out + Encode(s[i..]) == (out + EncodeByte(s[i])) + Encode(s[i + 1..])
  {
    assert s[i..][1..] == s[i + 1..];
    assert out + (EncodeByte(s[i]) + Encode(s[i + 1..])) == (out + EncodeByte(s[i])) + Encode(s[i + 1..]);
  }

  lemma EncodeNothing(s: seq<byte>)
    requires |s| == 0
    ensures Encode(s) == []
  {
  }

  method EncodeComponent(s: seq<byte>) returns (out: seq<byte>)
    ensures out == Encode(s)
  {
    hide Encode;
    out := [];
    assert s[0..] == s;
    for i := 0 to |s|
      invariant out + Encode(s[i..]) == Encode(s)
    {
      EncodeStep(s, i, out);
      if IsAlphanumeric(s[i]) {
        out := out + [s[i]];
      } else {
        out := out + Triplet(s[i]);
      }
    }
    EncodeNothing(s[|s|..]);
  }

  lemma DecodeNothing(s: seq<byte>)
    requires |s| == 0
    ensures Decode(s) == []
  {
  }

  method DecodeComponent(s: seq<byte>) returns (out: seq<byte>)
    ensures out == Decode(s)
  {
    hide Decode;
    out := [];
    var i := 0;
    assert s[0..] == s;
    while i < |s|
      invariant i <= |s| && out + Decode(s[i..]) == Decode(s)
    {
      DecodeStep(s, i, out);
      if s[i] == PERCENT && i + 2 < |s| {
        var hi, lo := DigitValue(s[i + 1]), DigitValue(s[i + 2]);
        if hi.Some? && lo.Some? {
          out := out + [hi.value * 16 + lo.value];
          i := i + 3;
          continue;
        }
      }
      out := out + [s[i]];
      i := i + 1;
    }
    DecodeNothing(s[i..]);
  }

  lemma DecodeStep(s: seq<byte>, i: nat, out: seq<byte>)
    requires i < |s|
    ensures TripletValue(s[i..]) == if i + 2 < |s| then TripletValue([s[i], s[i + 1], s[i + 2]]) else None
    ensures out + Decode(s[i..]) ==
      match TripletValue(s[i..])
      case Some(b) => (out + [b]) + Decode(s[i + 3..])
      case None => (out + [s[i]]) + Decode(s[i + 1..])
  {
    var rest := s[i..];
    assert rest[1..] == s[i + 1..];
    if TripletValue(rest).Some? {
      assert rest[3..] == s[i + 3..];
    }
  }

  lemma DigitReads(n: int)
    requires 0 <= n < 16
    ensures DigitValue(HexDigit(n)) == Some(n)
  {
  }

  lemma TripletReads(b: byte, rest: seq<byte>)
    ensures TripletValue(Triplet(b) + rest) == Some(b)
  {
    DigitReads(b / 16);
    DigitReads(b % 16);
  }

  /** Decoding undoes encoding on every byte string. */
  lemma {:induction false} DecodeUndoesEncode(s: seq<byte>)
    ensures Decode(Encode(s)) == s
  {
    if s != [] {
      var code, rest := EncodeByte(s[0]), Encode(s[1..]);
      DecodeUndoesEncode(s[1..]);
      if IsAlphanumeric(s[0]) {
        assert (code + rest)[1..] == rest && TripletValue(code + rest).None?;
      } else {
        TripletReads(s[0], rest);
        assert (code + rest)[3..] == rest;
      }
      assert s == [s[0]] + s[1..];
    }
  }

  /** Only letters, digits and upper-case triplets of other bytes: what the encoder writes. */
  predicate IsEncoded(t: seq<byte>) {
    t == [] ||
    if IsAlphanumeric(t[0]) then IsEncoded(t[1..])
    else
      var b := TripletValue(t);
      b.Some? && !IsAlphanumeric(b.value) && t[..3] == Triplet(b.value) && IsEncoded(t[3..])
  }

  lemma {:induction false} EncodedIsEncoded(s: seq<byte>)
    ensures IsEncoded(Encode(s))
  {
    if s != [] {
      var code, rest := EncodeByte(s[0]), Encode(s[1..]);
      EncodedIsEncoded(s[1..]);
      if IsAlphanumeric(s[0]) {
        assert (code + rest)[1..] == rest;
      } else {
        TripletReads(s[0], rest);
        assert (code + rest)[3..] == rest && (code + rest)[..3] == code;
      }
    }
  }

  lemma {:induction false} EncodedReencodes(t: seq<byte>)
    requires IsEncoded(t)
    ensures Encode(Decode(t)) == t
  {
    if t != [] {
      if IsAlphanumeric(t[0]) {
        EncodedReencodes(t[1..]);
        assert Decode(t) == [t[0]] + Decode(t[1..]) && Decode(t)[1..] == Decode(t[1..]);
        assert t == [t[0]] + t[1..];
      } else {
        var b := TripletValue(t).value;
        EncodedReencodes(t[3..]);
        assert Decode(t)[1..] == Decode(t[3..]);
        assert t == t[..3] + t[3..];
      }
    }
  }

  /** Encoding undoes decoding exactly on the texts the encoder writes. */
  lemma {:induction false} EncodeUndoesDecodeIff(t: seq<byte>)
    ensures Encode(Decode(t)) == t <==> IsEncoded(t)
  {
    EncodedIsEncoded(Decode(t));
    if IsEncoded(t) { EncodedReencodes(t); }
  }

  /** Encoded texts hold no byte that a URL gives a meaning, other than the percent sign. */
  lemma {:induction false} EncodedIsSafe(s: seq<byte>)
    ensures forall b | b in Encode(s) :: IsAlphanumeric(b) || b == PERCENT
  {
    if s != [] {
      EncodedIsSafe(s[1..]);
    }
  }

  // What single bytes come to.

  function UpperDigit(n: nat): byte
    requires n < 16
  {
    Ascii("0123456789ABCDEF"[n])
  }

  function LowerDigit(n: nat): byte
    requires n < 16
  {
    Ascii("0123456789abcdef"[n])
  }

  /** Hexadecimal digits are read in either case. */
  lemma DigitIff(b: byte, n: nat)
    requires n < 16
    ensures DigitValue(b) == Some(n) <==> b == UpperDigit(n) || b == LowerDigit(n)
  {
  }

  lemma HexDigitIs(n: nat)
    requires n < 16
    ensures HexDigit(n) == UpperDigit(n)
  {
  }

  predicate StartsTriplet(s: seq<byte>, hi: nat, lo: nat)
    requires hi < 16 && lo < 16
  {
    && |s| >= 3 && s[0] == PERCENT
    && (s[1] == UpperDigit(hi) || s[1] == LowerDigit(hi))
    && (s[2] == UpperDigit(lo) || s[2] == LowerDigit(lo))
  }

  lemma TripletIff(s: seq<byte>, hi: nat, lo: nat)
    requires hi < 16 && lo < 16
    ensures StartsTriplet(s, hi, lo) <==> TripletValue(s) == Some(16 * hi + lo)
  {
    if |s| >= 3 {
      DigitIff(s[1], hi);
      DigitIff(s[2], lo);
      hide UpperDigit, LowerDigit, DigitValue;
    }
  }

  /** A triplet in either case becomes its byte; any other byte at the front is passed through. */
  lemma DecodeFront(s: seq<byte>)
    ensures forall hi: nat, lo: nat | hi < 16 && lo < 16 && StartsTriplet(s, hi, lo) ::
      Decode(s) == [16 * hi + lo] + Decode(s[3..])
    ensures s != [] && (forall hi: nat, lo: nat | hi < 16 && lo < 16 :: !StartsTriplet(s, hi, lo)) ==>
      Decode(s) == [s[0]] + Decode(s[1..])
  {
    hide StartsTriplet, DigitValue;
    forall hi: nat, lo: nat | hi < 16 && lo < 16
      ensures StartsTriplet(s, hi, lo) <==> TripletValue(s) == Some(16 * hi + lo)
    {
      TripletIff(s, hi, lo);
    }
    if TripletValue(s).Some? {
      assert StartsTriplet(s, DigitValue(s[1]).value, DigitValue(s[2]).value);
    }
  }

  /** ASCII letters and digits stand for themselves, every other byte is written as an upper-case triplet. */
  lemma EncodeFront(b: byte, rest: seq<byte>)
    ensures var c := b as char;
      Encode([b] + rest) ==
        (if '0' <= c <= '9' || 'A' <= c <= 'Z' || 'a' <= c <= 'z' then [b]
         else [PERCENT, UpperDigit(b / 16), UpperDigit(b % 16)]) + Encode(rest)
  {
    HexDigitIs(b / 16);
    HexDigitIs(b % 16);
    hide UpperDigit, HexDigit;
    assert ([b] + rest)[1..] == rest;
  }
}
