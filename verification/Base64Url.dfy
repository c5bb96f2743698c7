/**
 The base64url loop of `jwt_claims` in src/accounts.rs, against the encoding of
 section 5 of RFC 4648 (unpadded, as section 2 of RFC 7515 uses it).
 */
module Base64Url {
  import opened Common

  const PAD: Byte := 61          // `=`

  function Pow2(n: nat): (r: nat)
    ensures r >= 1
  {
    if n == 0 then 1 else 2 * Pow2(n - 1)
  }

  /** The value of an alphabet character. */
  function Value(c: Byte): (v: Option<nat>)
    ensures v.Some? ==> v.value < 64
  {
    if 65 <= c <= 90 then Some(c - 65)
    else if 97 <= c <= 122 then Some(c - 97 + 26)
    else if 48 <= c <= 57 then Some(c - 48 + 52)
    else if c == 45 then Some(62)
    else if c == 95 then Some(63)
    else None
  }

  function Digit(v: nat): Byte
    requires v < 64
  {
    if v < 26 then v + 65 else if v < 52 then v - 26 + 97 else if v < 62 then v - 52 + 48
    else if v == 62 then 45 else 95
  }

  lemma DigitValue(v: nat)
    requires v < 64
    ensures Value(Digit(v)) == Some(v) && Digit(v) != PAD
  {
  }

  /** Table 2 of RFC 4648: `A` to `Z`, `a` to `z`, `0` to `9`, `-` and `_` in this
      order, and no other character. */
  lemma AlphabetExactly(c: char)
    requires c as int < 256
    ensures 'A' <= c <= 'Z' ==> Value(c as int) == Some(c as int - 'A' as int)
    ensures 'a' <= c <= 'z' ==> Value(c as int) == Some(26 + c as int - 'a' as int)
    ensures '0' <= c <= '9' ==> Value(c as int) == Some(52 + c as int - '0' as int)
    ensures Value('-' as int) == Some(62) && Value('_' as int) == Some(63) && PAD == '=' as int
    ensures !('A' <= c <= 'Z') && !('a' <= c <= 'z') && !('0' <= c <= '9') && c != '-' && c != '_' ==>
              Value(c as int).None?
    ensures Value(c as int).Some? ==> Digit(Value(c as int).value) == c as int
  {
  }

  /** The encoding, three bytes to four characters. */
  function Encode(bs: seq<Byte>): seq<Byte> {
    if |bs| == 0 then []
    else if |bs| == 1 then [Digit(bs[0] / 4), Digit(bs[0] % 4 * 16)]
    else if |bs| == 2 then [Digit(bs[0] / 4), Digit(bs[0] % 4 * 16 + bs[1] / 16), Digit(bs[1] % 16 * 4)]
    else [Digit(bs[0] / 4), Digit(bs[0] % 4 * 16 + bs[1] / 16), Digit(bs[1] % 16 * 4 + bs[2] / 64), Digit(bs[2] % 64)]
         + Encode(bs[3..])
  }

  // ---- The accumulator ----

  datatype Acc = Acc(bits: nat, count: nat, bytes: seq<Byte>)

  function Emit(bits: nat, count: nat, bytes: seq<Byte>): Acc {
    if count >= 8 then Acc(bits, count - 8, bytes + [bits / Pow2(count - 8) % 256]) else Acc(bits, count, bytes)
  }

  /** `bits = (bits << 6) | value` in 32 bits: what overflows is dropped. */
  function Feed(a: Acc, v: nat): Acc {
    Emit(a.bits * 64 % 0x1_0000_0000 + v, a.count + 6, a.bytes)
  }

  /** The same without a width. */
  function FeedWide(a: Acc, v: nat): Acc {
    Emit(a.bits * 64 + v, a.count + 6, a.bytes)
  }

  function DecodeFrom(encoded: seq<Byte>, a: Acc): Option<seq<Byte>> {
    if encoded == [] || encoded[0] == PAD then Some(a.bytes)
    else
      var v := Value(encoded[0]);
      if v.None? then None else DecodeFrom(encoded[1..], Feed(a, v.value))
  }

  function DecodeWide(encoded: seq<Byte>, a: Acc): Option<seq<Byte>> {
    if encoded == [] || encoded[0] == PAD then Some(a.bytes)
    else
      var v := Value(encoded[0]);
      if v.None? then None else DecodeWide(encoded[1..], FeedWide(a, v.value))
  }

  function Decode(encoded: seq<Byte>): Option<seq<Byte>> {
    DecodeFrom(encoded, Acc(0, 0, []))
  }

  // ---- Thirty-two bits are enough ----

  /** The narrow accumulator is the wide one modulo its width, and both have
      emitted the same bytes. */
  predicate Agree(narrow: Acc, wide: Acc) {
    && narrow.bits == wide.bits % 0x1_0000_0000 && narrow.bytes == wide.bytes
    && narrow.count == wide.count && (wide.count == 0 || wide.count == 2 || wide.count == 4 || wide.count == 6)
  }

  lemma DropMultiple(m: nat, r: nat)
    ensures (m * 256 + r) % 256 == r % 256
  {
  }

  lemma DivideBy4(m: nat, r: nat)
    ensures (m * 4 + r) / 4 == m + r / 4
  {
  }

  lemma DivideBy16(m: nat, r: nat)
    ensures (m * 16 + r) / 16 == m + r / 16
  {
  }

  lemma ShiftAgrees(wide: nat, v: nat)
    requires v < 64
    ensures wide % 0x1_0000_0000 * 64 % 0x1_0000_0000 + v == (wide * 64 + v) % 0x1_0000_0000
  {
    var q, r := wide / 0x1_0000_0000, wide % 0x1_0000_0000;
    assert wide * 64 == q * 64 * 0x1_0000_0000 + r * 64;
  }

  lemma LowByteAgrees0(wide: nat)
    ensures wide % 0x1_0000_0000 % 256 == wide % 256
  {
    DropMultiple(wide / 0x1_0000_0000 * 0x100_0000, wide % 0x1_0000_0000);
  }

  lemma LowByteAgrees2(wide: nat)
    ensures wide % 0x1_0000_0000 / 4 % 256 == wide / 4 % 256
  {
    var q, r := wide / 0x1_0000_0000, wide % 0x1_0000_0000;
    DivideBy4(q * 0x4000_0000, r);
    DropMultiple(q * 0x40_0000, r / 4);
  }

  lemma LowByteAgrees4(wide: nat)
    ensures wide % 0x1_0000_0000 / 16 % 256 == wide / 16 % 256
  {
    var q, r := wide / 0x1_0000_0000, wide % 0x1_0000_0000;
    DivideBy16(q * 0x1000_0000, r);
    DropMultiple(q * 0x10_0000, r / 16);
  }

  lemma Powers()
    ensures Pow2(0) == 1 && Pow2(2) == 4 && Pow2(4) == 16
  {
    assert Pow2(1) == 2;
    assert Pow2(2) == 4;
    assert Pow2(3) == 8;
  }

  lemma FeedAgrees(narrow: Acc, wide: Acc, v: nat)
    requires Agree(narrow, wide) && v < 64
    ensures Agree(Feed(narrow, v), FeedWide(wide, v))
  {
    ShiftAgrees(wide.bits, v);
    Powers();
    LowByteAgrees0(wide.bits * 64 + v);
    LowByteAgrees2(wide.bits * 64 + v);
    LowByteAgrees4(wide.bits * 64 + v);
  }

  lemma {:induction false} NarrowIsWide(encoded: seq<Byte>, narrow: Acc, wide: Acc)
    requires Agree(narrow, wide)
    ensures DecodeFrom(encoded, narrow) == DecodeWide(encoded, wide)
  {
    if encoded != [] && encoded[0] != PAD && Value(encoded[0]).Some? {
      FeedAgrees(narrow, wide, Value(encoded[0]).value);
      NarrowIsWide(encoded[1..], Feed(narrow, Value(encoded[0]).value), FeedWide(wide, Value(encoded[0]).value));
    }
  }

  /** For every input, dropping the high bits changes nothing that is emitted. */
  lemma NoNeededBitIsLost(encoded: seq<Byte>)
    ensures Decode(encoded) == DecodeWide(encoded, Acc(0, 0, []))
  {
    NarrowIsWide(encoded, Acc(0, 0, []), Acc(0, 0, []));
  }

  // ---- Decoding inverts encoding ----

  lemma JoinTwo(high: nat, b: Byte, x: nat)
    requires x < 16
    ensures (high * 64 + b / 4) * 64 + (b % 4 * 16 + x) == (high * 256 + b) * 16 + x
    ensures ((high * 256 + b) * 16 + x) / 16 % 256 == b
  {
    DivideBy16(high * 256 + b, x);
    DropMultiple(high, b);
  }

  lemma JoinThree(high: nat, b: Byte, y: nat)
    requires y < 4
    ensures (high * 16 + b / 16) * 64 + (b % 16 * 4 + y) == (high * 256 + b) * 4 + y
    ensures ((high * 256 + b) * 4 + y) / 4 % 256 == b
  {
    DivideBy4(high * 256 + b, y);
    DropMultiple(high, b);
  }

  lemma JoinFour(high: nat, b: Byte)
    ensures (high * 4 + b / 64) * 64 + b % 64 == high * 256 + b
    ensures (high * 256 + b) % 256 == b
  {
    DropMultiple(high, b);
  }

  /** Feeding the characters of one to three bytes emits exactly those bytes. */
  lemma FeedTwo(a: Acc, b0: Byte, x: nat)
    requires a.count == 0 && x < 16
    ensures FeedWide(FeedWide(a, b0 / 4), b0 % 4 * 16 + x) == Acc((a.bits * 256 + b0) * 16 + x, 4, a.bytes + [b0])
  {
    Powers();
    JoinTwo(a.bits, b0, x);
  }

  lemma FeedThird(a: Acc, high: nat, b: Byte, y: nat)
    requires a.count == 4 && a.bits == high * 16 + b / 16 && y < 4
    ensures FeedWide(a, b % 16 * 4 + y) == Acc((high * 256 + b) * 4 + y, 2, a.bytes + [b])
  {
    Powers();
    JoinThree(high, b, y);
  }

  lemma FeedFourth(a: Acc, high: nat, b: Byte)
    requires a.count == 2 && a.bits == high * 4 + b / 64
    ensures FeedWide(a, b % 64) == Acc(high * 256 + b, 0, a.bytes + [b])
  {
    Powers();
    JoinFour(high, b);
  }

  lemma FeedThree(a: Acc, b0: Byte, b1: Byte, y: nat)
    requires a.count == 0 && y < 4
    ensures FeedWide(FeedWide(FeedWide(a, b0 / 4), b0 % 4 * 16 + b1 / 16), b1 % 16 * 4 + y)
            == Acc(((a.bits * 256 + b0) * 256 + b1) * 4 + y, 2, a.bytes + [b0] + [b1])
  {
    FeedTwo(a, b0, b1 / 16);
    FeedThird(FeedWide(FeedWide(a, b0 / 4), b0 % 4 * 16 + b1 / 16), a.bits * 256 + b0, b1, y);
  }

  lemma FeedFour(a: Acc, b0: Byte, b1: Byte, b2: Byte)
    requires a.count == 0
    ensures FeedWide(FeedWide(FeedWide(FeedWide(a, b0 / 4), b0 % 4 * 16 + b1 / 16), b1 % 16 * 4 + b2 / 64), b2 % 64)
            == Acc(((a.bits * 256 + b0) * 256 + b1) * 256 + b2, 0, a.bytes + [b0] + [b1] + [b2])
  {
    FeedThree(a, b0, b1, b2 / 64);
    FeedFourth(FeedWide(FeedWide(FeedWide(a, b0 / 4), b0 % 4 * 16 + b1 / 16), b1 % 16 * 4 + b2 / 64),
               (a.bits * 256 + b0) * 256 + b1, b2);
  }

  lemma DecodeDigit(v: nat, rest: seq<Byte>, a: Acc)
    requires v < 64
    ensures DecodeWide([Digit(v)] + rest, a) == DecodeWide(rest, FeedWide(a, v))
  {
    DigitValue(v);
    assert ([Digit(v)] + rest)[1..] == rest;
  }

  predicate IsPadding(pad: seq<Byte>) {
    pad == [] || pad[0] == PAD
  }

  lemma DecodeOne(b0: Byte, pad: seq<Byte>, a: Acc)
    requires IsPadding(pad) && a.count == 0
    ensures DecodeWide(Encode([b0]) + pad, a) == Some(a.bytes + [b0])
  {
    var d0, d1 := b0 / 4, b0 % 4 * 16;
    assert Encode([b0]) + pad == [Digit(d0)] + ([Digit(d1)] + pad);
    DecodeDigit(d0, [Digit(d1)] + pad, a);
    DecodeDigit(d1, pad, FeedWide(a, d0));
    FeedTwo(a, b0, 0);
  }

  lemma DecodeTwo(b0: Byte, b1: Byte, pad: seq<Byte>, a: Acc)
    requires IsPadding(pad) && a.count == 0
    ensures DecodeWide(Encode([b0, b1]) + pad, a) == Some(a.bytes + [b0, b1])
  {
    var d0, d1, d2 := b0 / 4, b0 % 4 * 16 + b1 / 16, b1 % 16 * 4;
    assert Encode([b0, b1]) + pad == [Digit(d0)] + ([Digit(d1)] + ([Digit(d2)] + pad));
    DecodeDigit(d0, [Digit(d1)] + ([Digit(d2)] + pad), a);
    DecodeDigit(d1, [Digit(d2)] + pad, FeedWide(a, d0));
    DecodeDigit(d2, pad, FeedWide(FeedWide(a, d0), d1));
    FeedThree(a, b0, b1, 0);
    assert a.bytes + [b0] + [b1] == a.bytes + [b0, b1];
  }

  lemma DecodeShort(bs: seq<Byte>, pad: seq<Byte>, a: Acc)
    requires IsPadding(pad) && a.count == 0 && |bs| < 3
    ensures DecodeWide(Encode(bs) + pad, a) == Some(a.bytes + bs)
  {
    if bs == [] {
      assert Encode(bs) + pad == pad && a.bytes + bs == a.bytes;
    } else if |bs| == 1 {
      assert bs == [bs[0]];
      DecodeOne(bs[0], pad, a);
    } else {
      assert bs == [bs[0], bs[1]];
      DecodeTwo(bs[0], bs[1], pad, a);
    }
  }

  lemma {:induction false} DecodeEncoded(bs: seq<Byte>, pad: seq<Byte>, a: Acc)
    requires IsPadding(pad) && a.count == 0
    ensures DecodeWide(Encode(bs) + pad, a) == Some(a.bytes + bs)
  {
    if |bs| < 3 {
      DecodeShort(bs, pad, a);
    } else {
      var t := DecodeGroup(bs, pad, a);
      DecodeEncoded(bs[3..], pad, t);
      assert a.bytes + [bs[0]] + [bs[1]] + [bs[2]] + bs[3..] == a.bytes + bs;
    }
  }

  lemma DecodeGroup(bs: seq<Byte>, pad: seq<Byte>, a: Acc) returns (t: Acc)
    requires |bs| >= 3 && a.count == 0
    ensures DecodeWide(Encode(bs) + pad, a) == DecodeWide(Encode(bs[3..]) + pad, t)
    ensures t.count == 0 && t.bytes == a.bytes + [bs[0]] + [bs[1]] + [bs[2]]
  {
    var d0, d1, d2, d3 := bs[0] / 4, bs[0] % 4 * 16 + bs[1] / 16, bs[1] % 16 * 4 + bs[2] / 64, bs[2] % 64;
    var rest := Encode(bs[3..]) + pad;
    assert Encode(bs) + pad == [Digit(d0)] + ([Digit(d1)] + ([Digit(d2)] + ([Digit(d3)] + rest)));
    DecodeDigit(d0, [Digit(d1)] + ([Digit(d2)] + ([Digit(d3)] + rest)), a);
    DecodeDigit(d1, [Digit(d2)] + ([Digit(d3)] + rest), FeedWide(a, d0));
    DecodeDigit(d2, [Digit(d3)] + rest, FeedWide(FeedWide(a, d0), d1));
    DecodeDigit(d3, rest, FeedWide(FeedWide(FeedWide(a, d0), d1), d2));
    FeedFour(a, bs[0], bs[1], bs[2]);
    t := FeedWide(FeedWide(FeedWide(FeedWide(a, d0), d1), d2), d3);
  }

  /** Every byte string survives encoding and decoding, padded or not. */
  lemma RoundTrip(bs: seq<Byte>, pad: seq<Byte>)
    requires IsPadding(pad)
    ensures Decode(Encode(bs) + pad) == Some(bs)
  {
    DecodeEncoded(bs, pad, Acc(0, 0, []));
    assert [] + bs == bs;
    NoNeededBitIsLost(Encode(bs) + pad);
  }

  // ---- Which inputs decode ----

  /** The characters before the first `=`. */
  function Body(encoded: seq<Byte>): seq<Byte> {
    if encoded == [] || encoded[0] == PAD then [] else [encoded[0]] + Body(encoded[1..])
  }

  /** Decoding fails exactly on a character outside the alphabet, and otherwise
      yields one byte for every eight bits. */
  lemma {:induction false} DecodesExactly(encoded: seq<Byte>, a: Acc)
    requires a.count < 8
    ensures DecodeFrom(encoded, a).Some? <==> forall i :: 0 <= i < |Body(encoded)| ==> Value(Body(encoded)[i]).Some?
    ensures DecodeFrom(encoded, a).Some? ==>
              |DecodeFrom(encoded, a).value| == |a.bytes| + (a.count + 6 * |Body(encoded)|) / 8
  {
    if encoded != [] && encoded[0] != PAD {
      var body := Body(encoded[1..]);
      assert Body(encoded) == [encoded[0]] + body;
      if Value(encoded[0]).None? {
        assert Value(Body(encoded)[0]).None?;
      } else {
        DecodesExactly(encoded[1..], Feed(a, Value(encoded[0]).value));
        assert forall i :: 0 <= i < |body| ==> body[i] == Body(encoded)[i + 1];
        assert forall i :: 1 <= i < |Body(encoded)| ==> Body(encoded)[i] == body[i - 1];
      }
    }
  }

  // ---- The loop ----

  method DecodePayload(encoded: seq<Byte>) returns (r: Option<seq<Byte>>)
    ensures r == Decode(encoded)
  {
    var bits, count, bytes: seq<Byte> := 0, 0, [];
    var i := 0;
    while i < |encoded| && encoded[i] != PAD
      invariant 0 <= i <= |encoded| && 0 <= bits && 0 <= count
      invariant DecodeFrom(encoded[i..], Acc(bits, count, bytes)) == Decode(encoded)
    {
      var value := Value(encoded[i]);
      assert encoded[i..][1..] == encoded[i + 1..];
      if value.None? {
        return None;
      }
      bits := bits * 64 % 0x1_0000_0000 + value.value;
      count := count + 6;
      if count >= 8 {
        count := count - 8;
        bytes := bytes + [bits / Pow2(count) % 256];
      }
      i := i + 1;
    }
    r := Some(bytes);
  }
}
