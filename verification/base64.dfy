/**
 * `btoa` as the preload layer and the renderer use it: the base64 encoding of
 * section 4 of RFC 4648 applied to a string whose characters are all Latin-1
 * (each character is one byte); any other character makes `btoa` throw.
 *
 * The decoder below is the canonical RFC 4648 decoding (padding required,
 * unused bits zero). It exists to prove that the encoding is injective, which
 * is what keeps two export names from landing on the same global key.
 */
module Base64 {
  import opened Wrappers

  type Byte = x: int | 0 <= x < 256

  /** The 64-character alphabet of RFC 4648, Table 1. */
  function Symbol(v: nat): (c: char)
    requires v < 64
  {
    if v < 26 then ('A' as int + v) as char
    else if v < 52 then ('a' as int + (v - 26)) as char
    else if v < 62 then ('0' as int + (v - 52)) as char
    else if v == 62 then '+'
    else '/'
  }

  /** The inverse of `Symbol`; `None` for characters outside the alphabet (including '='). */
  function SymbolValue(c: char): (r: Option<nat>)
    ensures r.Some? ==> r.value < 64 && Symbol(r.value) == c
  {
    if 'A' <= c <= 'Z' then Some(c as int - 'A' as int)
    else if 'a' <= c <= 'z' then Some(c as int - 'a' as int + 26)
    else if '0' <= c <= '9' then Some(c as int - '0' as int + 52)
    else if c == '+' then Some(62)
    else if c == '/' then Some(63)
    else None
  }

  lemma SymbolRoundTrip(v: nat)
    requires v < 64
    ensures SymbolValue(Symbol(v)) == Some(v)
  {
  }

  predicate IsSymbol(c: char) {
    SymbolValue(c).Some?
  }

  /** Three bytes as four symbols. */
  function EncodeBlock(b0: Byte, b1: Byte, b2: Byte): string {
    [Symbol(b0 / 4), Symbol((b0 % 4) * 16 + b1 / 16), Symbol((b1 % 16) * 4 + b2 / 64), Symbol(b2 % 64)]
  }

  /** RFC 4648 section 4 encoding, with '=' padding of the final quantum. */
  function Encode(b: seq<Byte>): (r: string)
    ensures |r| == 4 * ((|b| + 2) / 3)
    decreases |b|
  {
    if |b| == 0 then ""
    else if |b| == 1 then
      [Symbol(b[0] / 4), Symbol((b[0] % 4) * 16), '=', '=']
    else if |b| == 2 then
      [Symbol(b[0] / 4), Symbol((b[0] % 4) * 16 + b[1] / 16), Symbol((b[1] % 16) * 4), '=']
    else
      EncodeBlock(b[0], b[1], b[2]) + Encode(b[3..])
  }

  /** Four symbols without padding as three bytes. */
  function DecodeBlock(q: string): Option<seq<Byte>>
    requires |q| == 4
  {
    var c0 :- SymbolValue(q[0]);
    var c1 :- SymbolValue(q[1]);
    var c2 :- SymbolValue(q[2]);
    var c3 :- SymbolValue(q[3]);
    if c0 < 64 && c1 < 64 && c2 < 64 && c3 < 64 then
      Some([c0 * 4 + c1 / 16, (c1 % 16) * 16 + c2 / 4, (c2 % 4) * 64 + c3])
    else None
  }

  /** The last quantum, which may carry one or two '=' pads. */
  function DecodeFinal(q: string): Option<seq<Byte>>
    requires |q| == 4
  {
    if q[2] == '=' && q[3] == '=' then
      var c0 :- SymbolValue(q[0]);
      var c1 :- SymbolValue(q[1]);
      if c0 < 64 && c1 < 64 && c1 % 16 == 0 then Some([c0 * 4 + c1 / 16]) else None
    else if q[3] == '=' then
      var c0 :- SymbolValue(q[0]);
      var c1 :- SymbolValue(q[1]);
      var c2 :- SymbolValue(q[2]);
      if c0 < 64 && c1 < 64 && c2 < 64 && c2 % 4 == 0 then
        Some([c0 * 4 + c1 / 16, (c1 % 16) * 16 + c2 / 4])
      else None
    else DecodeBlock(q)
  }

  /** Canonical RFC 4648 decoding; `None` for anything `Encode` cannot produce. */
  function Decode(s: string): Option<seq<Byte>>
    decreases |s|
  {
    if |s| == 0 then Some([])
    else if |s| < 4 then None
    else if |s| == 4 then DecodeFinal(s)
    else
      var head :- DecodeBlock(s[..4]);
      var tail :- Decode(s[4..]);
      Some(head + tail)
  }

  lemma BlockRoundTrip(b0: Byte, b1: Byte, b2: Byte)
    ensures DecodeBlock(EncodeBlock(b0, b1, b2)) == Some([b0, b1, b2])
  {
    var c0, c1, c2, c3 := b0 / 4, (b0 % 4) * 16 + b1 / 16, (b1 % 16) * 4 + b2 / 64, b2 % 64;
    BlockArithmetic(b0, b1, b2);
    DecodeSymbols(EncodeBlock(b0, b1, b2), c0, c1, c2, c3, b0, b1, b2);
  }

  /** The symbol values of a block, put back together, give its three bytes. */
  lemma BlockArithmetic(b0: Byte, b1: Byte, b2: Byte)
    ensures (b0 % 4) * 16 + b1 / 16 < 64 && (b1 % 16) * 4 + b2 / 64 < 64
    ensures (b0 / 4) * 4 + ((b0 % 4) * 16 + b1 / 16) / 16 == b0
    ensures (((b0 % 4) * 16 + b1 / 16) % 16) * 16 + ((b1 % 16) * 4 + b2 / 64) / 4 == b1
    ensures (((b1 % 16) * 4 + b2 / 64) % 4) * 64 + b2 % 64 == b2
  {
  }

  lemma DecodeSymbols(q: string, c0: nat, c1: nat, c2: nat, c3: nat, x0: Byte, x1: Byte, x2: Byte)
    requires c0 < 64 && c1 < 64 && c2 < 64 && c3 < 64
    requires q == [Symbol(c0), Symbol(c1), Symbol(c2), Symbol(c3)]
    requires x0 == c0 * 4 + c1 / 16 && x1 == (c1 % 16) * 16 + c2 / 4 && x2 == (c2 % 4) * 64 + c3
    ensures DecodeBlock(q) == Some([x0, x1, x2])
  {
    SymbolRoundTrip(c0);
    SymbolRoundTrip(c1);
    SymbolRoundTrip(c2);
    SymbolRoundTrip(c3);
  }

  lemma DecodeFinalOne(q: string, c0: nat, c1: nat)
    requires c0 < 64 && c1 < 64 && c1 % 16 == 0
    requires q == [Symbol(c0), Symbol(c1), '=', '=']
    ensures Decode(q) == Some([c0 * 4 + c1 / 16])
  {
    SymbolRoundTrip(c0);
    SymbolRoundTrip(c1);
  }

  lemma DecodeEncodeOne(b: seq<Byte>)
    requires |b| == 1
    ensures Decode(Encode(b)) == Some(b)
  {
    var q := Encode(b);
    assert q == [Symbol(b[0] / 4), Symbol((b[0] % 4) * 16), '=', '='];
    DecodeFinalOne(q, b[0] / 4, (b[0] % 4) * 16);
    assert b == [b[0]];
  }

  lemma TwoBytesArithmetic(b0: Byte, b1: Byte)
    ensures (b0 % 4) * 16 + b1 / 16 < 64 && (b1 % 16) * 4 < 64
    ensures ((b1 % 16) * 4) % 4 == 0
    ensures (b0 / 4) * 4 + ((b0 % 4) * 16 + b1 / 16) / 16 == b0
    ensures (((b0 % 4) * 16 + b1 / 16) % 16) * 16 + ((b1 % 16) * 4) / 4 == b1
  {
  }

  lemma DecodeFinalTwo(q: string, c0: nat, c1: nat, c2: nat, x0: Byte, x1: Byte)
    requires c0 < 64 && c1 < 64 && c2 < 64 && c2 % 4 == 0
    requires q == [Symbol(c0), Symbol(c1), Symbol(c2), '=']
    requires x0 == c0 * 4 + c1 / 16 && x1 == (c1 % 16) * 16 + c2 / 4
    ensures Decode(q) == Some([x0, x1])
  {
    SymbolRoundTrip(c0);
    SymbolRoundTrip(c1);
    SymbolRoundTrip(c2);
  }

  lemma DecodeEncodeTwo(b: seq<Byte>)
    requires |b| == 2
    ensures Decode(Encode(b)) == Some(b)
  {
    var c1 := (b[0] % 4) * 16 + b[1] / 16;
    var c2 := (b[1] % 16) * 4;
    var q := Encode(b);
    assert q == [Symbol(b[0] / 4), Symbol(c1), Symbol(c2), '='];
    TwoBytesArithmetic(b[0], b[1]);
    DecodeFinalTwo(q, b[0] / 4, c1, c2, b[0], b[1]);
    assert b == [b[0], b[1]];
  }

  lemma DecodeEncodeThree(b: seq<Byte>)
    requires |b| == 3
    ensures Decode(Encode(b)) == Some(b)
  {
    var e := Encode(b);
    BlockRoundTrip(b[0], b[1], b[2]);
    assert Encode(b[3..]) == "";
    assert e == EncodeBlock(b[0], b[1], b[2]);
    assert e[3] != '=';
    assert b == [b[0], b[1], b[2]];
  }

  lemma DecodeConcat(h: string, t: string, x: seq<Byte>, y: seq<Byte>)
    requires |h| == 4 && |t| >= 4
    requires DecodeBlock(h) == Some(x) && Decode(t) == Some(y)
    ensures Decode(h + t) == Some(x + y)
  {
    var s := h + t;
    assert s[..4] == h && s[4..] == t;
  }

  lemma EncodeLonger(b: seq<Byte>)
    requires |b| > 3
    ensures Encode(b) == EncodeBlock(b[0], b[1], b[2]) + Encode(b[3..])
  {
  }

  lemma DecodeBlockThenRest(b: seq<Byte>)
    requires |b| > 3
    requires Decode(Encode(b[3..])) == Some(b[3..])
    ensures Decode(EncodeBlock(b[0], b[1], b[2]) + Encode(b[3..])) == Some(b)
  {
    BlockRoundTrip(b[0], b[1], b[2]);
    DecodeConcat(EncodeBlock(b[0], b[1], b[2]), Encode(b[3..]), [b[0], b[1], b[2]], b[3..]);
    assert [b[0], b[1], b[2]] + b[3..] == b;
  }

  lemma DecodeEncodeLonger(b: seq<Byte>)
    requires |b| > 3
    requires Decode(Encode(b[3..])) == Some(b[3..])
    ensures Decode(Encode(b)) == Some(b)
  {
    DecodeBlockThenRest(b);
    EncodeLonger(b);
  }

  /** Decoding undoes encoding, for every byte sequence. */
  lemma {:induction false} DecodeEncode(b: seq<Byte>)
    ensures Decode(Encode(b)) == Some(b)
    decreases |b|
  {
    if |b| == 0 {
    } else if |b| == 1 {
      DecodeEncodeOne(b);
    } else if |b| == 2 {
      DecodeEncodeTwo(b);
    } else if |b| == 3 {
      DecodeEncodeThree(b);
    } else {
      DecodeEncode(b[3..]);
      DecodeEncodeLonger(b);
    }
  }

  lemma EncodeInjective(a: seq<Byte>, b: seq<Byte>)
    requires Encode(a) == Encode(b)
    ensures a == b
  {
    DecodeEncode(a);
    DecodeEncode(b);
  }

  /** Every character is a single byte, as `btoa` demands. */
  predicate IsLatin1(s: string) {
    forall k :: 0 <= k < |s| ==> s[k] as int < 256
  }

  function Bytes(s: string): (b: seq<Byte>)
    requires IsLatin1(s)
    ensures |b| == |s| && forall k :: 0 <= k < |s| ==> b[k] == s[k] as int
  {
    seq(|s|, k requires 0 <= k < |s| => s[k] as int)
  }

  /** `btoa(s)`: `None` where the browser throws `InvalidCharacterError`. */
  function Btoa(s: string): (r: Option<string>)
    ensures r.Some? <==> IsLatin1(s)
  {
    if IsLatin1(s) then Some(Encode(Bytes(s))) else None
  }

  /** Distinct Latin-1 strings never share a `btoa` key. */
  lemma BtoaInjective(s: string, t: string)
    requires Btoa(s).Some? && Btoa(s) == Btoa(t)
    ensures s == t
  {
    EncodeInjective(Bytes(s), Bytes(t));
    assert forall k :: 0 <= k < |s| ==> s[k] as int == t[k] as int;
  }
}
