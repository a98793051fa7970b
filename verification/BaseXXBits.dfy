/** The encodings as RFC 4648 describes them: one string of bits, most significant first, cut
    into groups of 4, 5 or 6 and of 8.  Nothing here knows about blocks; the two main lemmas say
    that the block-wise functions compute just this. */
module BaseXXBits {
  import opened BaseXX
  import CyoEncode
  import CyoDecode

  function Width(base: Base): nat {
    match base case Base16 => 4 case Base32 => 5 case Base64 => 6
  }

  function Mask(j: nat): byte
    requires j < 8
  {
    if j == 0 then 0x80 else if j == 1 then 0x40 else if j == 2 then 0x20 else if j == 3 then 0x10
    else if j == 4 then 0x08 else if j == 5 then 0x04 else if j == 6 then 0x02 else 0x01
  }

  function Weigh(bit: bool, weight: byte): byte { if bit then weight else 0 }

  // ---------- encoding ----------

  /** Bit `i` of the input read as one big-endian bit string, zero past its end. */
  predicate Bit(x: seq<byte>, i: nat) {
    i < 8 * |x| && x[i / 8] & Mask(i % 8) != 0
  }

  /** The `k`-th group of bits of the input. */
  function Group(base: Base, x: seq<byte>, k: nat): (v: byte)
    ensures v <= base.MaxValue()
  {
    var i := k * Width(base);
    match base
    case Base16 =>
      Weigh(Bit(x, i), 8) | Weigh(Bit(x, i + 1), 4) | Weigh(Bit(x, i + 2), 2) | Weigh(Bit(x, i + 3), 1)
    case Base32 =>
      Weigh(Bit(x, i), 16) | Weigh(Bit(x, i + 1), 8) | Weigh(Bit(x, i + 2), 4) | Weigh(Bit(x, i + 3), 2)
      | Weigh(Bit(x, i + 4), 1)
    case Base64 =>
      Weigh(Bit(x, i), 32) | Weigh(Bit(x, i + 1), 16) | Weigh(Bit(x, i + 2), 8) | Weigh(Bit(x, i + 3), 4)
      | Weigh(Bit(x, i + 4), 2) | Weigh(Bit(x, i + 5), 1)
  }

  /** Symbol `k` of the reference encoding: the letter of group `k` while there are input bits, then '='. */
  function Symbol(base: Base, x: seq<byte>, k: nat): byte {
    if k * Width(base) < 8 * |x| then base.Letter(Group(base, x, k)) else PAD
  }

  /** RFC 4648: the symbols of the whole bit string, padded to whole blocks. */
  function Reference(base: Base, x: seq<byte>): seq<byte> {
    seq(CyoEncode.EncodeGetLength(base, |x|) - 1, k requires 0 <= k => Symbol(base, x, k))
  }

  /** The encoder computes the reference encoding, for every input. */
  lemma EncodeIsReference(base: Base, x: seq<byte>)
    ensures Encode(base, x) == Reference(base, x)
  {
    hide Encode, Symbol;
    CyoEncode.EncodeLength(base, x);
    forall k | 0 <= k < |Encode(base, x)| ensures Encode(base, x)[k] == Symbol(base, x, k) {
      SymbolAt(base, x, k);
    }
  }

  lemma {:induction false} SymbolAt(base: Base, x: seq<byte>, k: nat)
    requires k < |Encode(base, x)|
    ensures Encode(base, x)[k] == Symbol(base, x, k)
  {
    hide Encode, EncodeBlock, Symbol;
    if x == [] {
      CyoEncode.EncodeEmpty(base);
    } else {
      CyoEncode.EncodeUnfold(base, x);
      CyoEncode.EncodeEmpty(base);
      var h := Head(base, x);
      if k < base.Coded() {
        HeadSymbol(base, x, k);
      } else {
        assert x[h..] != [];
        SymbolAt(base, x[h..], k - base.Coded());
        LaterSymbol(base, x, k);
      }
    }
  }

  lemma LaterBit(x: seq<byte>, i: nat, d: nat)
    requires d <= |x| && 8 * d <= i
    ensures Bit(x, i) == Bit(x[d..], i - 8 * d)
  {
    hide Mask;
    assert (i - 8 * d) % 8 == i % 8 && (i - 8 * d) / 8 == i / 8 - d;
  }

  /** Past the first block, symbols are those of the rest of the input. */
  lemma LaterSymbol(base: Base, x: seq<byte>, k: nat)
    requires base.Raw() <= |x| && base.Coded() <= k
    ensures Symbol(base, x, k) == Symbol(base, x[base.Raw()..], k - base.Coded())
  {
    hide Bit, Base.Letter;
    var i, d := k * Width(base), base.Raw();
    assert 8 * d == base.Coded() * Width(base);
    LaterBit(x, i, d);
    LaterBit(x, i + 1, d);
    LaterBit(x, i + 2, d);
    LaterBit(x, i + 3, d);
    LaterBit(x, i + 4, d);
    LaterBit(x, i + 5, d);
  }

  /** The symbols of the first block. */
  lemma HeadSymbol(base: Base, x: seq<byte>, k: nat)
    requires x != [] && k < base.Coded()
    ensures EncodeBlock(base, x[..Head(base, x)])[k] == Symbol(base, x, k)
  {
    hide Base.Letter, Groups, Group;
    var b := x[..Head(base, x)];
    HeadGroup(base, x, k);
    assert k < Used(base, |b|) <==> k * Width(base) < 8 * |x| by {
      match base
      case Base16 =>
      case Base32 =>
      case Base64 =>
    }
  }

  /** The first block holds the first bits. */
  lemma HeadBit(base: Base, x: seq<byte>, i: nat)
    requires i < 8 * base.Raw()
    ensures Bit(x, i) == Bit(x[..Head(base, x)], i)
  {
    hide Mask;
  }

  lemma HeadGroup(base: Base, x: seq<byte>, k: nat)
    requires k < base.Coded()
    ensures Group(base, x, k) == Groups(base, x[..Head(base, x)])[k]
  {
    hide Head, Bit, Groups;
    var i, w := k * Width(base), Width(base);
    assert i + w <= 8 * base.Raw();
    HeadBit(base, x, i);
    HeadBit(base, x, i + 1);
    HeadBit(base, x, i + 2);
    HeadBit(base, x, i + 3);
    if w > 4 {
      HeadBit(base, x, i + 4);
    }
    if w > 5 {
      HeadBit(base, x, i + 5);
    }
    var b := x[..Head(base, x)];
    match base
    case Base16 => Groups16(b, k);
    case Base32 => Groups32(b, k);
    case Base64 => Groups64(b, k);
  }

  /** The eight bits of byte `q`. */
  lemma ByteBits(b: seq<byte>, q: nat)
    ensures Bit(b, 8 * q) == (At(b, q) & 0x80 != 0) && Bit(b, 8 * q + 1) == (At(b, q) & 0x40 != 0)
    ensures Bit(b, 8 * q + 2) == (At(b, q) & 0x20 != 0) && Bit(b, 8 * q + 3) == (At(b, q) & 0x10 != 0)
    ensures Bit(b, 8 * q + 4) == (At(b, q) & 0x08 != 0) && Bit(b, 8 * q + 5) == (At(b, q) & 0x04 != 0)
    ensures Bit(b, 8 * q + 6) == (At(b, q) & 0x02 != 0) && Bit(b, 8 * q + 7) == (At(b, q) & 0x01 != 0)
  {
  }

  lemma Groups16(b: seq<byte>, k: nat)
    requires k < 2
    ensures Group(Base16, b, k) == Groups(Base16, b)[k]
  {
    hide Bit, At;
    ByteBits(b, 0);
  }

  lemma Groups32(b: seq<byte>, k: nat)
    requires k < 8
    ensures Group(Base32, b, k) == Groups(Base32, b)[k]
  {
    hide Bit, At;
    ByteBits(b, 5 * k / 8);
    if k == 0 {} else if k == 1 { ByteBits(b, 1); } else if k == 2 {} else if k == 3 { ByteBits(b, 2); }
    else if k == 4 { ByteBits(b, 3); } else if k == 5 {} else if k == 6 { ByteBits(b, 4); } else {}
  }

  lemma Groups64(b: seq<byte>, k: nat)
    requires k < 4
    ensures Group(Base64, b, k) == Groups(Base64, b)[k]
  {
    hide Bit, At;
    ByteBits(b, 6 * k / 8);
    if k == 0 {} else if k == 1 { ByteBits(b, 1); } else if k == 2 { ByteBits(b, 2); } else {}
  }

  // ---------- decoding ----------

  /** Bit `i` of the symbols' values read as one big-endian bit string of `Width`-bit groups;
      the value of '=' reads as zeros. */
  predicate ValueBit(base: Base, v: seq<byte>, i: nat) {
    var w := Width(base);
    i / w < |v| && v[i / w] & Mask(8 - w + i % w) != 0
  }

  /** The `q`-th group of eight bits. */
  function Octet(base: Base, v: seq<byte>, q: nat): byte {
    var i := 8 * q;
    Weigh(ValueBit(base, v, i), 0x80) | Weigh(ValueBit(base, v, i + 1), 0x40)
    | Weigh(ValueBit(base, v, i + 2), 0x20) | Weigh(ValueBit(base, v, i + 3), 0x10)
    | Weigh(ValueBit(base, v, i + 4), 0x08) | Weigh(ValueBit(base, v, i + 5), 0x04)
    | Weigh(ValueBit(base, v, i + 6), 0x02) | Weigh(ValueBit(base, v, i + 7), 0x01)
  }

  /** A decoding that completes has stored the bit string cut into bytes, and the terminator. */
  lemma DecodeIsReference(base: Base, s: seq<byte>)
    requires Whole(base, |s|) && Decode(base, s).outcome.Completed?
    ensures var n := |s| / base.Coded() * base.Raw();
            Decode(base, s).stored == seq(n, q requires 0 <= q => Octet(base, Values(base, s), q)) + [0]
  {
    hide Decode, Octet, Values;
    CyoDecode.DecodeLength(base, s);
    CyoDecode.WholeLength(base, |s|);
    var n := |s| / base.Coded() * base.Raw();
    forall q | 0 <= q < n ensures Decode(base, s).stored[q] == Octet(base, Values(base, s), q) {
      OctetAt(base, s, q);
    }
    LastIsTerminator(base, s);
  }

  lemma {:induction false} LastIsTerminator(base: Base, s: seq<byte>)
    requires Whole(base, |s|) && Decode(base, s).outcome.Completed?
    ensures |Decode(base, s).stored| > 0 && Decode(base, s).stored[|Decode(base, s).stored| - 1] == 0
  {
    hide Decode, DecodeBlock, Whole;
    if s == [] {
      CyoDecode.DecodeEmpty(base);
    } else {
      CyoDecode.WholeBlocks(base, |s|);
      assert s[0..] == s;
      CyoDecode.DecodeStep(base, s, 0);
      LastIsTerminator(base, s[base.Coded()..]);
    }
  }

  lemma {:induction false} OctetAt(base: Base, s: seq<byte>, q: nat)
    requires Whole(base, |s|) && Decode(base, s).outcome.Completed? && q < |Decode(base, s).stored| - 1
    ensures Decode(base, s).stored[q] == Octet(base, Values(base, s), q)
  {
    hide Decode, Octet, FromValues, Whole, Values;
    if s == [] {
      CyoDecode.DecodeEmpty(base);
    } else {
      CyoDecode.WholeBlocks(base, |s|);
      assert s[0..] == s;
      CyoDecode.DecodeStep(base, s, 0);
      var c := base.Coded();
      if q < base.Raw() {
        HeadOctet(base, s, q);
      } else {
        OctetAt(base, s[c..], q - base.Raw());
        LaterOctet(base, s, q);
      }
    }
  }

  lemma LaterOctet(base: Base, s: seq<byte>, q: nat)
    requires base.Coded() <= |s| && base.Raw() <= q
    ensures Octet(base, Values(base, s), q) == Octet(base, Values(base, s[base.Coded()..]), q - base.Raw())
  {
    hide ValueBit;
    var v, w := Values(base, s), Values(base, s[base.Coded()..]);
    assert w == v[base.Coded()..];
    var i := 8 * q;
    LaterValueBit(base, v, i);
    LaterValueBit(base, v, i + 1);
    LaterValueBit(base, v, i + 2);
    LaterValueBit(base, v, i + 3);
    LaterValueBit(base, v, i + 4);
    LaterValueBit(base, v, i + 5);
    LaterValueBit(base, v, i + 6);
    LaterValueBit(base, v, i + 7);
  }

  lemma LaterValueBit(base: Base, v: seq<byte>, i: nat)
    requires base.Coded() <= |v| && 8 * base.Raw() <= i
    ensures ValueBit(base, v, i) == ValueBit(base, v[base.Coded()..], i - 8 * base.Raw())
  {
    hide Mask;
    ShiftByBlock(base, i);
  }

  lemma ShiftByBlock(base: Base, i: nat)
    requires 8 * base.Raw() <= i
    ensures (i - 8 * base.Raw()) / Width(base) == i / Width(base) - base.Coded()
    ensures (i - 8 * base.Raw()) % Width(base) == i % Width(base)
  {
    match base
    case Base16 => assert (i - 8) / 4 == i / 4 - 2;
    case Base32 => assert (i - 40) / 5 == i / 5 - 8;
    case Base64 => assert (i - 24) / 6 == i / 6 - 4;
  }

  lemma HeadOctet(base: Base, s: seq<byte>, q: nat)
    requires base.Coded() <= |s| && q < base.Raw()
    requires DecodeBlock(base, s[..base.Coded()]).Good?
    ensures DecodeBlock(base, s[..base.Coded()]).out[q] == Octet(base, Values(base, s), q)
  {
    hide Octet, Join;
    var v, b := Values(base, s), Values(base, s[..base.Coded()]);
    assert b == v[..base.Coded()];
    HeadOctetBits(base, v, q);
    match base
    case Base16 => Join16(b);
    case Base32 => Join32(b, q);
    case Base64 => Join64(b, q);
  }

  lemma HeadOctetBits(base: Base, v: seq<byte>, q: nat)
    requires base.Coded() <= |v| && q < base.Raw()
    ensures Octet(base, v, q) == Octet(base, v[..base.Coded()], q)
  {
    hide ValueBit;
    forall i: nat | i < 8 * base.Raw()
      ensures ValueBit(base, v, i) == ValueBit(base, v[..base.Coded()], i)
    {
      HeadValueBit(base, v, i);
    }
  }

  lemma HeadValueBit(base: Base, v: seq<byte>, i: nat)
    requires base.Coded() <= |v| && i < 8 * base.Raw()
    ensures ValueBit(base, v, i) == ValueBit(base, v[..base.Coded()], i)
  {
    hide Mask;
  }

  lemma SplitIndex(base: Base, p: nat, j: nat)
    requires j < Width(base)
    ensures (Width(base) * p + j) / Width(base) == p && (Width(base) * p + j) % Width(base) == j
  {
    match base
    case Base16 =>
    case Base32 =>
    case Base64 =>
  }

  lemma ValueBitAt(base: Base, v: seq<byte>, p: nat, j: nat)
    requires p < |v| && j < Width(base)
    ensures ValueBit(base, v, Width(base) * p + j) == (v[p] & Mask(8 - Width(base) + j) != 0)
  {
    hide Mask, Width;
    SplitIndex(base, p, j);
  }

  /** The bits of the value at `p`. */
  lemma ValueBits(base: Base, v: seq<byte>, p: nat)
    requires p < |v|
    ensures var w := Width(base);
            && ValueBit(base, v, w * p + w - 4) == (v[p] & 0x08 != 0)
            && ValueBit(base, v, w * p + w - 3) == (v[p] & 0x04 != 0)
            && ValueBit(base, v, w * p + w - 2) == (v[p] & 0x02 != 0)
            && ValueBit(base, v, w * p + w - 1) == (v[p] & 0x01 != 0)
            && (w > 4 ==> ValueBit(base, v, w * p + w - 5) == (v[p] & 0x10 != 0))
            && (w > 5 ==> ValueBit(base, v, w * p + w - 6) == (v[p] & 0x20 != 0))
  {
    hide ValueBit;
    var w := Width(base);
    ValueBitAt(base, v, p, w - 1);
    ValueBitAt(base, v, p, w - 2);
    ValueBitAt(base, v, p, w - 3);
    ValueBitAt(base, v, p, w - 4);
    if w > 4 {
      ValueBitAt(base, v, p, w - 5);
    }
    if w > 5 {
      ValueBitAt(base, v, p, w - 6);
    }
  }

  lemma Join16(v: seq<byte>)
    requires |v| == 2 && Acceptable(Base16, v)
    ensures Join(Base16, v)[0] == Octet(Base16, v, 0)
  {
    hide ValueBit;
    ValueBits(Base16, v, 0);
    ValueBits(Base16, v, 1);
  }

  lemma Join32(v: seq<byte>, q: nat)
    requires |v| == 8 && q < 5
    ensures Join(Base32, v)[q] == Octet(Base32, v, q)
  {
    hide ValueBit;
    var p := 8 * q / 5;
    ValueBits(Base32, v, p);
    ValueBits(Base32, v, p + 1);
    if q == 0 {
    } else if q == 1 {
      ValueBits(Base32, v, 3);
    } else if q == 2 {
    } else if q == 3 {
      ValueBits(Base32, v, 6);
    } else {
    }
  }

  lemma Join64(v: seq<byte>, q: nat)
    requires |v| == 4 && q < 3
    ensures Join(Base64, v)[q] == Octet(Base64, v, q)
  {
    hide ValueBit;
    if q == 0 {
      ValueBits(Base64, v, 0);
      ValueBits(Base64, v, 1);
    } else if q == 1 {
      ValueBits(Base64, v, 1);
      ValueBits(Base64, v, 2);
    } else {
      ValueBits(Base64, v, 2);
      ValueBits(Base64, v, 3);
    }
  }
}
