/** Callers' view of the codec: buffer sizes in `size_t` arithmetic, and the string functions of
    src/fc/crypto/base32.cpp. */
module Base32String {
  import opened BaseXX
  import CyoEncode
  import CyoDecode
  import BaseXXRoundTrip
  import BaseXXCanonical

  // ---------- size_t ----------

  /** cyoBaseXXEncodeGetLength in unsigned arithmetic modulo `m`. */
  function EncodeGetLengthMod(base: Base, size: nat, m: nat): nat
    requires m > 0
  {
    ((((size + base.Raw() - 1) % m) / base.Raw() * base.Coded()) % m + 1) % m
  }

  /** cyoBaseXXDecodeGetLength in unsigned arithmetic modulo `m`. */
  function DecodeGetLengthMod(base: Base, size: nat, m: nat): nat
    requires m > 0
  {
    if size % base.Coded() != 0 then 0
    else ((((size + base.Coded() - 1) % m) / base.Coded() * base.Raw()) % m + 1) % m
  }

  lemma NoWrap(a: nat, m: nat)
    requires a < m
    ensures a % m == a
  {
  }

  /** The quotient of a rounded-up division, bounded on both sides. */
  lemma RoundedUp(size: nat, block: nat, q: nat)
    requires block > 0 && q == (size + block - 1) / block
    ensures size <= q * block <= size + block - 1
  {
    assert (size + block - 1) == q * block + (size + block - 1) % block;
  }

  /** The encoder's length is right exactly when the true length is a `size_t`. */
  lemma EncodeLengthFits(base: Base, size: nat, m: nat)
    requires size < m && m >= 8
    ensures EncodeGetLengthMod(base, size, m) == CyoEncode.EncodeGetLength(base, size)
            <==> CyoEncode.EncodeGetLength(base, size) < m
  {
    var q := (size + base.Raw() - 1) / base.Raw();
    RoundedUp(size, base.Raw(), q);
    if q * base.Coded() + 1 < m {
      assert size + base.Raw() - 1 < m by {
        match base
        case Base16 =>
        case Base32 => assert size <= 5 * q && 8 * q + 1 < m;
        case Base64 => assert size <= 3 * q && 4 * q + 1 < m;
      }
      NoWrap(size + base.Raw() - 1, m);
      NoWrap(q * base.Coded(), m);
      NoWrap(q * base.Coded() + 1, m);
    }
  }

  /** The decoder's length is right for every `size_t`, the modulus being a multiple of the block. */
  lemma DecodeLengthFits(base: Base, size: nat, m: nat)
    requires size < m && m > 0 && m % 8 == 0
    ensures DecodeGetLengthMod(base, size, m) == CyoDecode.DecodeGetLength(base, size)
  {
    if size % base.Coded() == 0 {
      var q := (size + base.Coded() - 1) / base.Coded();
      RoundedUp(size, base.Coded(), q);
      LastBlockFits(base, size, m);
      assert q * base.Raw() <= q * base.Coded() by {
        match base
        case Base16 =>
        case Base32 =>
        case Base64 =>
      }
      NoWrap(size + base.Coded() - 1, m);
      NoWrap(q * base.Raw(), m);
      BytesFit(base, size, q, m);
      NoWrap(q * base.Raw() + 1, m);
    }
  }

  lemma LastBlockFits(base: Base, size: nat, m: nat)
    requires size < m && m % 8 == 0 && size % base.Coded() == 0
    ensures size + base.Coded() - 1 < m
  {
    BlocksFit(base, size / base.Coded(), m / 8);
  }

  lemma BlocksFit(base: Base, j: nat, k: nat)
    requires j * base.Coded() < k * 8
    ensures j * base.Coded() + base.Coded() <= k * 8
  {
    match base
    case Base16 => assert j + 1 <= 4 * k;
    case Base32 => assert j + 1 <= k;
    case Base64 => assert j + 1 <= 2 * k;
  }

  lemma BytesFit(base: Base, size: nat, q: nat, m: nat)
    requires q * base.Coded() <= size + base.Coded() - 1 < m && m >= 8
    ensures q * base.Raw() + 1 < m
  {
    match base
    case Base16 => assert q * 2 < m;
    case Base32 => assert q * 8 < m;
    case Base64 => assert q * 4 < m;
  }

  /** A buffer of the decoder's length for an encoding of `n` bytes holds them and the terminator. */
  lemma DecodeLengthCovers(base: Base, n: nat)
    ensures CyoDecode.DecodeGetLength(base, CyoEncode.EncodeGetLength(base, n) - 1) >= n + 1
  {
    var q := (n + base.Raw() - 1) / base.Raw();
    RoundedUp(n, base.Raw(), q);
    WholeMultiple(base, q);
    CyoDecode.WholeLength(base, q * base.Coded());
  }

  lemma WholeMultiple(base: Base, q: nat)
    ensures Whole(base, q * base.Coded()) && q * base.Coded() / base.Coded() == q
  {
    match base
    case Base16 =>
    case Base32 =>
    case Base64 =>
  }

  // ---------- fc::to_base32, fc::from_base32 ----------

  datatype Text = Bytes(v: seq<byte>) | AssertFailed

  /** What from_base32 makes of a string: errors of any kind read as the empty vector. */
  function FromText(b32: seq<byte>): Text {
    if !Whole(Base32, |b32|) then Bytes([])
    else
      var d := Decode(Base32, b32);
      if d.outcome.Aborted? then AssertFailed else Bytes(BaseXXCanonical.Payload(d))
  }

  method ToBase32(data: array<byte>) returns (b32: seq<byte>)
    ensures b32 == Encode(Base32, data[..])
  {
    hide Encode, CyoEncode.EncodeGetLength;
    var s := CyoEncode.EncodeGetLength(Base32, data.Length);
    CyoEncode.EncodeLength(Base32, data[..]);
    var buffer := new byte[s](_ => 0);
    assert data[..data.Length] == data[..];
    var n := CyoEncode.EncodeInto(Base32, buffer, data, data.Length);
    b32 := buffer[..s - 1];
  }

  method FromBase32(b32: array<byte>) returns (r: Text)
    ensures r == FromText(b32[..])
  {
    hide Decode, CyoDecode.DecodeGetLength;
    var v := new byte[CyoDecode.DecodeGetLength(Base32, b32.Length)](_ => 0);
    assert b32[..b32.Length] == b32[..];
    if Whole(Base32, b32.Length) {
      CyoDecode.DecodeLength(Base32, b32[..]);
    }
    var len := CyoDecode.DecodeInto(Base32, v, b32, b32.Length);
    if len.AssertFailed? {
      return AssertFailed;
    }
    return Bytes(v[..len.size]);
  }

  /** from_base32 undoes to_base32, and to_base32 undoes from_base32 exactly on canonical strings. */
  lemma TextRoundTrips(x: seq<byte>, b32: seq<byte>)
    ensures FromText(Encode(Base32, x)) == Bytes(x)
    ensures Whole(Base32, |b32|) && Decode(Base32, b32).outcome.Completed? ==>
              (Encode(Base32, FromText(b32).v) == b32 <==> exists n :: BaseXXCanonical.Canonical(Base32, b32, n))
  {
    hide Encode, Decode, BaseXXCanonical.Canonical, CyoDecode.DecodeGetLength, Whole;
    CyoEncode.EncodeLength(Base32, x);
    BaseXXRoundTrip.RoundTrip(Base32, x);
    assert Decode(Base32, Encode(Base32, x)).stored[..|x|] == x;
    if Whole(Base32, |b32|) && Decode(Base32, b32).outcome.Completed? {
      BaseXXCanonical.ReencodesIffCanonical(Base32, b32);
    }
  }
}
