/** The three encodings of CyoEncode.c and CyoDecode.c as functions on byte strings.

    A base cuts the input into blocks of `Raw` bytes and turns each into `Coded` symbols
    of `Width` bits.  Everything that is the same for the three bases is written once,
    over `Base`; only the tables and the block functions differ. */
module BaseXX {

  type byte = bv8

  const PAD: byte := 0x3d  // '='

  datatype Base = Base16 | Base32 | Base64 {

    /** Bytes in a block of plain data. */
    function Raw(): (n: nat)
      ensures n > 0
    {
      match this case Base16 => 1 case Base32 => 5 case Base64 => 3
    }

    /** Symbols in a block of encoded data. */
    function Coded(): (n: nat)
      ensures n > 1
    {
      match this case Base16 => 2 case Base32 => 8 case Base64 => 4
    }

    function MaxPadding(): (n: nat) {
      match this case Base16 => 0 case Base32 => 6 case Base64 => 2
    }

    function MaxValue(): byte {
      match this case Base16 => 15 case Base32 => 31 case Base64 => 63
    }

    /** The encoder's table: the letter of value `n`; the entry after the last value is '='
        (base 16 has no such entry). */
    function Letter(n: byte): byte
      requires n <= MaxValue() + 1
      requires Base16? ==> n <= MaxValue()
    {
      match this
      case Base16 => if n < 10 then n + 0x30 else n + 0x37
      case Base32 => if n < 26 then n + 0x41 else if n < 32 then n + 0x18 else PAD
      case Base64 =>
        if n < 26 then n + 0x41
        else if n < 52 then n + 0x47
        else if n < 62 then n - 4
        else if n == 62 then 0x2b
        else if n == 63 then 0x2f
        else PAD
    }

    /** The decoder's 128-entry table; 0xFF marks a byte that is no symbol.  Bytes of 0x80 or
        more, which are turned away before the lookup, count as 0xFF too. */
    function Value(ch: byte): byte {
      match this
      case Base16 =>
        if 0x30 <= ch <= 0x39 then ch - 0x30
        else if 0x41 <= ch <= 0x46 then ch - 0x37
        else if 0x61 <= ch <= 0x66 then ch - 0x57
        else 0xff
      case Base32 =>
        if 0x32 <= ch <= 0x37 then ch - 0x18
        else if ch == PAD then 0x20
        else if 0x41 <= ch <= 0x5a then ch - 0x41
        else if 0x61 <= ch <= 0x7a then ch - 0x61
        else 0xff
      case Base64 =>
        if ch == 0x2b then 0x3e
        else if ch == 0x2f then 0x3f
        else if 0x30 <= ch <= 0x39 then ch + 4
        else if ch == PAD then 0x40
        else if 0x41 <= ch <= 0x5a then ch - 0x41
        else if 0x61 <= ch <= 0x7a then ch - 0x47
        else 0xff
    }

    predicate IsLetter(ch: byte) { Value(ch) <= MaxValue() }

    predicate IsPad(ch: byte) { Value(ch) == MaxValue() + 1 }
  }

  /** Reading the encoder's letter through the decoder's table gives the value back. */
  lemma LetterValue(base: Base, n: byte)
    requires n <= base.MaxValue() + 1
    requires base.Base16? ==> n <= base.MaxValue()
    ensures base.Value(base.Letter(n)) == n
  {
    match base
    case Base16 =>
    case Base32 =>
    case Base64 =>
  }

  // ---------- encoding ----------

  /** Byte `i` of the input, or zero past its end. */
  function At(x: seq<byte>, i: nat): byte {
    if i < |x| then x[i] else 0
  }

  /** How many of a block's symbols carry bits of `n` input bytes; the others are padding. */
  function Used(base: Base, n: nat): (u: nat)
    requires 1 <= n <= base.Raw()
    ensures 2 <= u <= base.Coded()
  {
    match base
    case Base16 => 2
    case Base32 => if n == 1 then 2 else if n == 2 then 4 else if n == 3 then 5 else if n == 4 then 7 else 8
    case Base64 => n + 1
  }

  /** The block extended with zeros and cut into `Coded` groups of bits. */
  function Groups(base: Base, x: seq<byte>): (v: seq<byte>)
    ensures |v| == base.Coded()
    ensures forall i :: 0 <= i < |v| ==> v[i] <= base.MaxValue()
  {
    var b0, b1, b2, b3, b4 := At(x, 0), At(x, 1), At(x, 2), At(x, 3), At(x, 4);
    match base
    case Base16 => [b0 >> 4, b0 & 0x0f]
    case Base32 =>
      [b0 >> 3, ((b0 & 0x07) << 2) | (b1 >> 6), (b1 & 0x3e) >> 1, ((b1 & 0x01) << 4) | (b2 >> 4),
       ((b2 & 0x0f) << 1) | (b3 >> 7), (b3 & 0x7c) >> 2, ((b3 & 0x03) << 3) | (b4 >> 5), b4 & 0x1f]
    case Base64 =>
      [b0 >> 2, ((b0 & 0x03) << 4) | (b1 >> 4), ((b1 & 0x0f) << 2) | (b2 >> 6), b2 & 0x3f]
  }

  /** Table lookups for a row of indices. */
  function Letters(base: Base, n: seq<byte>): (s: seq<byte>)
    requires forall i :: 0 <= i < |n| ==> n[i] <= if base.Base16? then base.MaxValue() else base.MaxValue() + 1
    ensures |s| == |n|
  {
    seq(|n|, i requires 0 <= i < |n| => base.Letter(n[i]))
  }

  function EncodeBlock(base: Base, x: seq<byte>): (s: seq<byte>)
    requires 1 <= |x| <= base.Raw()
    ensures |s| == base.Coded()
  {
    var v, u := Groups(base, x), Used(base, |x|);
    seq(base.Coded(), i requires 0 <= i < base.Coded() => if i < u then base.Letter(v[i]) else PAD)
  }

  /** The first block of the input: a full one, or whatever is left. */
  function Head(base: Base, x: seq<byte>): (n: nat)
    ensures n <= |x|
  {
    if |x| < base.Raw() then |x| else base.Raw()
  }

  function Encode(base: Base, x: seq<byte>): (s: seq<byte>) {
    if x == [] then []
    else var h := Head(base, x); EncodeBlock(base, x[..h]) + Encode(base, x[h..])
  }

  // ---------- decoding ----------

  /** What the decoder makes of one block: bytes, of which the first `kept` count;
      a symbol that is not allowed where it stands; or a padding pattern that trips
      an `assert` after the block's bytes have been stored. */
  datatype Block =
    | Good(out: seq<byte>, kept: nat)
    | BadSymbol
    | BadPadding(stored: seq<byte>)

  /** The bits of a block's values joined and cut into bytes; a pad value counts as zero. */
  function Join(base: Base, v: seq<byte>): (out: seq<byte>)
    requires |v| == base.Coded()
    ensures |out| == base.Raw()
  {
    match base
    case Base16 => [(v[0] << 4) | v[1]]
    case Base32 =>
      [((v[0] & 0x1f) << 3) | ((v[1] & 0x1c) >> 2),
       ((v[1] & 0x03) << 6) | ((v[2] & 0x1f) << 1) | ((v[3] & 0x10) >> 4),
       ((v[3] & 0x0f) << 4) | ((v[4] & 0x1e) >> 1),
       ((v[4] & 0x01) << 7) | ((v[5] & 0x1f) << 2) | ((v[6] & 0x18) >> 3),
       ((v[6] & 0x07) << 5) | (v[7] & 0x1f)]
    case Base64 =>
      [((v[0] & 0x3f) << 2) | ((v[1] & 0x30) >> 4),
       ((v[1] & 0x0f) << 4) | ((v[2] & 0x3c) >> 2),
       ((v[2] & 0x03) << 6) | (v[3] & 0x3f)]
  }

  /** Bytes of the block that the padding takes away. */
  function Dropped(base: Base, v: seq<byte>): (n: nat)
    requires |v| == base.Coded()
    ensures n < base.Raw()
  {
    match base
    case Base16 => 0
    case Base32 =>
      if v[7] != 32 then 0
      else if v[5] != 32 then 1
      else if v[4] != 32 then 2
      else if v[2] != 32 then 3
      else 4
    case Base64 =>
      if v[3] != 64 then 0 else if v[2] != 64 then 1 else 2
  }

  /** The two padding asserts of the base32 decoder. */
  predicate PaddingAsserts(base: Base, v: seq<byte>)
    requires |v| == base.Coded()
  {
    base.Base32? && v[7] == 32 ==>
      && (v[6] == 32 ==> v[5] == 32)
      && (v[5] == 32 && v[4] == 32 && v[3] == 32 ==> v[2] == 32)
  }

  function Values(base: Base, s: seq<byte>): (v: seq<byte>)
    ensures |v| == |s|
  {
    seq(|s|, i requires 0 <= i < |s| => base.Value(s[i]))
  }

  /** The first two symbols of a block must be letters, the others may be padding. */
  predicate Acceptable(base: Base, v: seq<byte>)
    requires |v| == base.Coded()
  {
    match base
    case Base16 => v[0] <= 15 && v[1] <= 15
    case Base32 =>
      && v[0] <= 31 && v[1] <= 31
      && v[2] <= 32 && v[3] <= 32 && v[4] <= 32 && v[5] <= 32 && v[6] <= 32 && v[7] <= 32
    case Base64 => v[0] <= 63 && v[1] <= 63 && v[2] <= 64 && v[3] <= 64
  }

  function DecodeBlock(base: Base, s: seq<byte>): (b: Block)
    requires |s| == base.Coded()
    ensures b.Good? ==> |b.out| == base.Raw() && 1 <= b.kept <= base.Raw()
    ensures b.BadPadding? ==> |b.stored| == base.Raw()
  {
    FromValues(base, Values(base, s))
  }

  function FromValues(base: Base, v: seq<byte>): (b: Block)
    requires |v| == base.Coded()
    ensures b.Good? ==> |b.out| == base.Raw() && 1 <= b.kept <= base.Raw()
    ensures b.BadPadding? ==> |b.stored| == base.Raw()
  {
    if !Acceptable(base, v) then BadSymbol
    else if PaddingAsserts(base, v) then Good(Join(base, v), base.Raw() - Dropped(base, v))
    else BadPadding(Join(base, v))
  }

  /** How a call of a decoder ends. */
  datatype Outcome = Completed(size: nat) | Rejected | Aborted

  /** A whole decoding: the bytes stored, in order, and how it ended.  Only a completed one
      stores the terminator. */
  datatype Decoding = Decoding(stored: seq<byte>, outcome: Outcome)

  /** A number of symbols that makes up whole blocks. */
  predicate Whole(base: Base, n: nat) { n % base.Coded() == 0 }

  /** The blocks of `s` in turn; the decoders are only let loose on whole blocks. */
  function Decode(base: Base, s: seq<byte>): (d: Decoding) {
    if |s| < base.Coded() then Decoding([0], Completed(0))
    else
      match DecodeBlock(base, s[..base.Coded()])
      case BadSymbol => Decoding([], Rejected)
      case BadPadding(out) => Decoding(out, Aborted)
      case Good(out, kept) =>
        var rest := Decode(base, s[base.Coded()..]);
        Decoding(out + rest.stored, After(kept, rest.outcome))
  }

  /** The outcome of a decoding whose first blocks have contributed `size` bytes. */
  function After(size: nat, o: Outcome): Outcome {
    if o.Completed? then Completed(size + o.size) else o
  }
}
