/** The code tables and the codec against RFC 4648: the alphabets of its tables 5, 3 and 1 and the
    test vectors of its section 10. */
module BaseXXTables {
  import opened BaseXX
  import BaseXXBits
  import CyoEncode
  import CyoDecode

  const UPPER := "ABCDEFGHIJKLMNOPQRSTUVWXYZ"
  const LOWER := "abcdefghijklmnopqrstuvwxyz"
  const DIGITS := "0123456789"

  function Alphabet(base: Base): (a: string)
    ensures |a| == base.MaxValue() as int + 1
  {
    match base
    case Base16 => DIGITS + "ABCDEF"
    case Base32 => UPPER + "234567"
    case Base64 => UPPER + LOWER + DIGITS + "+/"
  }

  /** The byte is the code of the character. */
  predicate Codes(ch: byte, c: char) { ch as int == c as int }

  function LowerCase(c: char): char {
    if 'A' <= c <= 'Z' then c + ('a' - 'A') else c
  }

  /** The byte stands for the value `n`: it is the alphabet's `n`-th character, or where case does
      not matter its lower-case form. */
  predicate Stands(base: Base, ch: byte, n: nat)
    requires n <= base.MaxValue() as int
  {
    Codes(ch, Alphabet(base)[n]) || (!base.Base64? && Codes(ch, LowerCase(Alphabet(base)[n])))
  }

  lemma UpperCodes(k: nat)
    requires k < 26
    ensures UPPER[k] as int == 0x41 + k
  {
  }

  lemma LowerCodes(k: nat)
    requires k < 26
    ensures LOWER[k] as int == 0x61 + k
  {
  }

  lemma DigitCodes(k: nat)
    requires k < 10
    ensures DIGITS[k] as int == 0x30 + k
  {
  }

  lemma AlphabetCodes(base: Base, n: nat)
    requires n <= base.MaxValue() as int
    ensures Alphabet(base)[n] as int ==
            match base
            case Base16 => if n < 10 then 0x30 + n else 0x37 + n
            case Base32 => if n < 26 then 0x41 + n else 0x18 + n
            case Base64 =>
              if n < 26 then 0x41 + n
              else if n < 52 then 0x47 + n
              else if n < 62 then n - 4
              else if n == 62 then 0x2b
              else 0x2f
  {
    match base
    case Base16 => Codes16(n);
    case Base32 => Codes32(n);
    case Base64 => Codes64(n);
  }

  lemma Codes16(n: nat)
    requires n < 16
    ensures (DIGITS + "ABCDEF")[n] as int == if n < 10 then 0x30 + n else 0x37 + n
  {
    if n < 10 {
      DigitCodes(n);
    }
  }

  lemma Codes32(n: nat)
    requires n < 32
    ensures (UPPER + "234567")[n] as int == if n < 26 then 0x41 + n else 0x18 + n
  {
    if n < 26 {
      UpperCodes(n);
    }
  }

  lemma Codes64(n: nat)
    requires n < 64
    ensures (UPPER + LOWER + DIGITS + "+/")[n] as int ==
            if n < 26 then 0x41 + n
            else if n < 52 then 0x47 + n
            else if n < 62 then n - 4
            else if n == 62 then 0x2b
            else 0x2f
  {
    var all := UPPER + LOWER + DIGITS + "+/";
    if n < 26 {
      UpperCodes(n);
      assert all[n] == UPPER[n];
    } else if n < 52 {
      LowerCodes(n - 26);
      assert all[n] == LOWER[n - 26];
    } else if n < 62 {
      DigitCodes(n - 52);
      assert all[n] == DIGITS[n - 52];
    }
  }

  /** The encoder's letter of value `n` is the `n`-th character of the alphabet. */
  lemma LetterIsAlphabet(base: Base, n: byte)
    requires n <= base.MaxValue()
    ensures Codes(base.Letter(n), Alphabet(base)[n as int])
  {
    hide Alphabet;
    AlphabetCodes(base, n as int);
    match base
    case Base16 =>
    case Base32 =>
    case Base64 =>
  }

  /** The decoder's table gives a byte the value `n` exactly if the byte stands for it, marks '='
      as padding where the base pads, and has 0xFF for all others. */
  lemma ValueIsAlphabet(base: Base, ch: byte)
    ensures forall n: nat :: n <= base.MaxValue() as int ==>
              (base.Value(ch) as int == n <==> Stands(base, ch, n))
    ensures base.IsPad(ch) <==> !base.Base16? && Codes(ch, '=')
    ensures base.IsLetter(ch) || base.IsPad(ch) || base.Value(ch) == 0xff
  {
    hide Alphabet, Stands;
    forall n: nat | n <= base.MaxValue() as int
      ensures base.Value(ch) as int == n <==> Stands(base, ch, n)
    {
      match base
      case Base16 => Value16(ch, n);
      case Base32 => Value32(ch, n);
      case Base64 => Value64(ch, n);
    }
    match base
    case Base16 =>
    case Base32 =>
    case Base64 =>
  }

  lemma Value16(ch: byte, n: nat)
    requires n < 16
    ensures Base16.Value(ch) as int == n <==> Stands(Base16, ch, n)
  {
    hide Alphabet;
    AlphabetCodes(Base16, n);
  }

  lemma Value32(ch: byte, n: nat)
    requires n < 32
    ensures Base32.Value(ch) as int == n <==> Stands(Base32, ch, n)
  {
    hide Alphabet;
    AlphabetCodes(Base32, n);
  }

  lemma Value64(ch: byte, n: nat)
    requires n < 64
    ensures Base64.Value(ch) as int == n <==> Stands(Base64, ch, n)
  {
    hide Alphabet;
    AlphabetCodes(Base64, n);
  }

  /** Symbol `k` of an encoding, as a character: the alphabet's for the `k`-th group of bits, and
      '=' after the last. */
  lemma EncodeSpells(base: Base, x: seq<byte>, k: nat)
    requires k < |Encode(base, x)|
    ensures Codes(Encode(base, x)[k],
                  if k * BaseXXBits.Width(base) < 8 * |x| then Alphabet(base)[BaseXXBits.Group(base, x, k) as int]
                  else '=')
  {
    hide Encode, Alphabet, BaseXXBits.Group, Base.Letter;
    BaseXXBits.EncodeIsReference(base, x);
    LetterIsAlphabet(base, BaseXXBits.Group(base, x, k));
  }

  /** Two strings that differ at most in the case of letters, where that does not matter. */
  ghost predicate SameButCase(base: Base, s: seq<byte>, t: seq<byte>) {
    |s| == |t| && forall k :: 0 <= k < |s| ==> s[k] == t[k] || StandForTheSame(base, s[k], t[k])
  }

  ghost predicate StandForTheSame(base: Base, a: byte, b: byte) {
    exists n: nat :: n <= base.MaxValue() as int && Stands(base, a, n) && Stands(base, b, n)
  }

  /** The decoders do not see the case of base 16 and base 32 letters. */
  lemma DecodeIgnoresCase(base: Base, s: seq<byte>, t: seq<byte>)
    requires SameButCase(base, s, t)
    ensures Decode(base, s) == Decode(base, t)
  {
    hide Decode, Stands, Base.Value;
    forall k | 0 <= k < |s| ensures base.Value(s[k]) == base.Value(t[k]) {
      ValueIsAlphabet(base, s[k]);
      ValueIsAlphabet(base, t[k]);
    }
    assert Values(base, s) == Values(base, t);
    DecodeByValues(base, s, t);
  }

  lemma {:induction false} DecodeByValues(base: Base, s: seq<byte>, t: seq<byte>)
    requires Values(base, s) == Values(base, t)
    ensures Decode(base, s) == Decode(base, t)
  {
    hide FromValues;
    var c, v := base.Coded(), Values(base, s);
    assert |s| == |v| == |t|;
    if c <= |s| {
      assert Values(base, s[..c]) == v[..c] == Values(base, t[..c]);
      assert Values(base, s[c..]) == v[c..] == Values(base, t[c..]);
      DecodeByValues(base, s[c..], t[c..]);
    }
  }

  // ---------- section 10 of RFC 4648 ----------

  predicate Reads(s: seq<byte>, text: string) {
    |s| == |text| && forall k :: 0 <= k < |s| ==> Codes(s[k], text[k])
  }

  /** The bytes of "foobar". */
  const FOOBAR: seq<byte> := [0x66, 0x6f, 0x6f, 0x62, 0x61, 0x72]

  lemma OneBlockEncodes(base: Base, x: seq<byte>)
    requires 1 <= |x| <= base.Raw()
    ensures Encode(base, x) == EncodeBlock(base, x)
  {
    hide EncodeBlock;
    CyoEncode.EncodeUnfold(base, x);
    CyoEncode.EncodeEmpty(base);
    assert x[..|x|] == x && x[|x|..] == [];
  }

  /** One test vector for every length of a last block. */
  lemma Vectors()
    ensures Reads(Encode(Base16, FOOBAR[..1]), "66")
    ensures Reads(Encode(Base32, FOOBAR[..1]), "MY======") && Reads(Encode(Base32, FOOBAR[..2]), "MZXQ====")
    ensures Reads(Encode(Base32, FOOBAR[..3]), "MZXW6===") && Reads(Encode(Base32, FOOBAR[..4]), "MZXW6YQ=")
    ensures Reads(Encode(Base32, FOOBAR[..5]), "MZXW6YTB")
    ensures Reads(Encode(Base64, FOOBAR[..1]), "Zg==") && Reads(Encode(Base64, FOOBAR[..2]), "Zm8=")
    ensures Reads(Encode(Base64, FOOBAR[..3]), "Zm9v")
  {
    hide Encode, EncodeBlock, Reads;
    OneBlockEncodes(Base16, FOOBAR[..1]);
    forall n | 1 <= n <= 5 ensures Encode(Base32, FOOBAR[..n]) == EncodeBlock(Base32, FOOBAR[..n]) {
      OneBlockEncodes(Base32, FOOBAR[..n]);
    }
    forall n | 1 <= n <= 3 ensures Encode(Base64, FOOBAR[..n]) == EncodeBlock(Base64, FOOBAR[..n]) {
      OneBlockEncodes(Base64, FOOBAR[..n]);
    }
    Block16();
    Block32One();
    Block32Two();
    Block32Three();
    Block32Four();
    Block32Five();
    Block64One();
    Block64Two();
    Block64Three();
  }

  lemma Block16()
    ensures Reads(EncodeBlock(Base16, FOOBAR[..1]), "66")
  {
  }

  lemma Block32One()
    ensures Reads(EncodeBlock(Base32, FOOBAR[..1]), "MY======")
  {
  }

  lemma Block32Two()
    ensures Reads(EncodeBlock(Base32, FOOBAR[..2]), "MZXQ====")
  {
  }

  lemma Block32Three()
    ensures Reads(EncodeBlock(Base32, FOOBAR[..3]), "MZXW6===")
  {
  }

  lemma Block32Four()
    ensures Reads(EncodeBlock(Base32, FOOBAR[..4]), "MZXW6YQ=")
  {
  }

  lemma Block32Five()
    ensures Reads(EncodeBlock(Base32, FOOBAR[..5]), "MZXW6YTB")
  {
  }

  lemma Block64One()
    ensures Reads(EncodeBlock(Base64, FOOBAR[..1]), "Zg==")
  {
  }

  lemma Block64Two()
    ensures Reads(EncodeBlock(Base64, FOOBAR[..2]), "Zm8=")
  {
  }

  lemma Block64Three()
    ensures Reads(EncodeBlock(Base64, FOOBAR[..3]), "Zm9v")
  {
  }
}
