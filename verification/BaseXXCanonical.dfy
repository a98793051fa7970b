/** Which strings decode, which of them the validator passes, and which are encodings.

    The validator and the decoder do not agree: the base32 validator passes padding counts
    that trip the decoder's asserts, and the base32 and base64 decoders take '=' in the middle
    of a string.  The lemmas say exactly how far they do agree. */
module BaseXXCanonical {
  import opened BaseXX
  import CyoEncode
  import opened CyoDecode
  import BaseXXRoundTrip

  /** Padding counts an encoder can leave in a last block (sections 4, 6 and 8 of RFC 4648). */
  predicate LegalPads(base: Base, p: nat) {
    match base
    case Base16 => p == 0
    case Base32 => p in {0, 1, 3, 4, 6}
    case Base64 => p <= 2
  }

  /** Bytes by which `p` pads shorten the data. */
  function Lost(base: Base, p: nat): (n: nat)
    requires LegalPads(base, p)
    ensures n < base.Raw()
  {
    match base
    case Base16 => 0
    case Base32 => if p == 0 then 0 else if p == 1 then 1 else if p == 3 then 2 else if p == 4 then 3 else 4
    case Base64 => p
  }

  // ---------- validator and decoder ----------

  /** On what the validator passes, the decoder completes exactly for the legal padding counts,
      with the size the padding says; the other counts run into its asserts. */
  lemma {:induction false} WellFormedDecodes(base: Base, s: seq<byte>, n: nat)
    requires Whole(base, |s|) && LettersThenPads(base, s, n)
    ensures Decode(base, s).outcome ==
            if LegalPads(base, |s| - n) then Completed(|s| / base.Coded() * base.Raw() - Lost(base, |s| - n))
            else Aborted
  {
    hide Decode, DecodeBlock, Whole, Base.Value;
    var c := base.Coded();
    if s == [] {
      DecodeEmpty(base);
    } else {
      WholeBlocks(base, |s|);
      assert s[0..] == s;
      DecodeStep(base, s, 0);
      BlockCount(base, |s|);
      if |s| == c {
        assert s[..c] == s;
        DecodeEmpty(base);
        LastBlock(base, s, n);
      } else {
        WholeBlocks(base, |s| - c);
        LettersBlock(base, s[..c]);
        WellFormedDecodes(base, s[c..], n - c);
      }
    }
  }

  lemma BlockCount(base: Base, n: nat)
    requires base.Coded() <= n
    ensures n / base.Coded() * base.Raw() == base.Raw() + (n - base.Coded()) / base.Coded() * base.Raw()
  {
    match base
    case Base16 =>
    case Base32 =>
    case Base64 =>
  }

  lemma LettersBlock(base: Base, s: seq<byte>)
    requires |s| == base.Coded() && forall k :: 0 <= k < |s| ==> base.IsLetter(s[k])
    ensures DecodeBlock(base, s) == Good(Join(base, Values(base, s)), base.Raw())
  {
    hide Join, Base.Value;
    match base
    case Base16 =>
    case Base32 =>
    case Base64 =>
  }

  lemma LastBlock(base: Base, s: seq<byte>, n: nat)
    requires |s| == base.Coded() && LettersThenPads(base, s, n)
    ensures var out := Join(base, Values(base, s));
            DecodeBlock(base, s) ==
            if LegalPads(base, |s| - n) then Good(out, base.Raw() - Lost(base, |s| - n)) else BadPadding(out)
  {
    hide Join, Base.Value;
    var v := Values(base, s);
    assert forall k :: 0 <= k < |s| ==>
             (v[k] <= base.MaxValue() <==> k < n) && (v[k] == base.MaxValue() + 1 <==> n <= k);
    match base
    case Base16 =>
    case Base32 =>
      assert n == 2 || n == 3 || n == 4 || n == 5 || n == 6 || n == 7 || n == 8;
    case Base64 =>
  }

  /** Every '=' is followed by nothing but '='. */
  ghost predicate PadsLast(base: Base, s: seq<byte>) {
    forall i, j :: 0 <= i < j < |s| && base.IsPad(s[i]) ==> base.IsPad(s[j])
  }

  /** Letters followed by a legal number of pads. */
  ghost predicate Legal(base: Base, s: seq<byte>, n: nat) {
    LettersThenPads(base, s, n) && LegalPads(base, |s| - n)
  }

  /** The strings of whole blocks that decode and keep their padding at the end are exactly
      the well-formed ones with a legal padding count. */
  lemma DecodesIffLegal(base: Base, s: seq<byte>)
    requires Whole(base, |s|)
    ensures Decode(base, s).outcome.Completed? && PadsLast(base, s) <==> exists n :: Legal(base, s, n)
  {
    hide Decode, Whole;
    if n :| Legal(base, s, n) {
      WellFormedDecodes(base, s, n);
    }
    if Decode(base, s).outcome.Completed? && PadsLast(base, s) {
      var n := FindPads(base, s);
    }
  }

  lemma {:induction false} FindPads(base: Base, s: seq<byte>) returns (n: nat)
    requires Whole(base, |s|) && Decode(base, s).outcome.Completed? && PadsLast(base, s)
    ensures Legal(base, s, n)
  {
    hide Decode, DecodeBlock, Whole, Base.Value;
    var c := base.Coded();
    if s == [] {
      n := 0;
    } else {
      WholeBlocks(base, |s|);
      assert s[0..] == s;
      DecodeStep(base, s, 0);
      var rest := s[c..];
      var m := FindPads(base, rest);
      var head := s[..c];
      GoodBlock(base, head);
      if rest == [] {
        n := FindPadsInBlock(base, head);
        assert head == s;
      } else {
        WholeBlocks(base, |rest|);
        DecodeStep(base, s, c);
        GoodBlock(base, s[c..c + c]);
        assert !base.IsPad(s[c]);
        forall k | 0 <= k < c ensures base.IsLetter(s[k]) {
          assert head[k] == s[k];
        }
        n := c + m;
        assert forall k :: c <= k < |s| ==> s[k] == rest[k - c];
      }
    }
  }

  lemma GoodBlock(base: Base, s: seq<byte>)
    requires |s| == base.Coded() && DecodeBlock(base, s).Good?
    ensures base.IsLetter(s[0]) && base.IsLetter(s[1])
    ensures forall k :: 0 <= k < |s| ==> base.IsLetter(s[k]) || (base.IsPad(s[k]) && !base.Base16?)
    ensures PaddingAsserts(base, Values(base, s))
  {
    hide Join, Base.Value;
    var v := Values(base, s);
    match base
    case Base16 =>
    case Base32 => assert forall k :: 0 <= k < 8 ==> v[k] <= 31 || v[k] == 32;
    case Base64 => assert forall k :: 0 <= k < 4 ==> v[k] <= 63 || v[k] == 64;
  }

  lemma FindPadsInBlock(base: Base, s: seq<byte>) returns (n: nat)
    requires |s| == base.Coded() && DecodeBlock(base, s).Good? && PadsLast(base, s)
    ensures Legal(base, s, n)
  {
    hide DecodeBlock, Base.Value;
    GoodBlock(base, s);
    n := 2;
    while n < |s| && base.IsLetter(s[n])
      invariant 2 <= n <= |s|
      invariant forall k :: 0 <= k < n ==> base.IsLetter(s[k])
    {
      n := n + 1;
    }
    assert LettersThenPads(base, s, n);
    var v := Values(base, s);
    if base.Base32? {
      assert forall k :: 0 <= k < 8 ==> (v[k] == 32 <==> n <= k);
    }
  }

  /** Base 16 has no padding: validating and decoding to the end are the same. */
  lemma Base16Agrees(s: seq<byte>)
    requires Whole(Base16, |s|)
    ensures WellFormed(Base16, s) <==> Decode(Base16, s).outcome.Completed?
  {
    hide Decode, Whole;
    DecodesIffLegal(Base16, s);
    assert PadsLast(Base16, s);
    if n :| LettersThenPads(Base16, s, n) {
      assert Legal(Base16, s, n);
    }
    if n :| Legal(Base16, s, n) {
      assert LettersThenPads(Base16, s, n);
    }
  }

  /** "AAAAAA==" passes the base32 validator and stops the decoder. */
  lemma PassedButAborts()
    ensures var s: seq<byte> := [0x41, 0x41, 0x41, 0x41, 0x41, 0x41, 0x3d, 0x3d];
            WellFormed(Base32, s) && Decode(Base32, s).outcome == Aborted
  {
    var s: seq<byte> := [0x41, 0x41, 0x41, 0x41, 0x41, 0x41, 0x3d, 0x3d];
    assert LettersThenPads(Base32, s, 6);
    WellFormedDecodes(Base32, s, 6);
  }

  /** "AA==AAAA" decodes to four bytes, and the base64 validator refuses it. */
  lemma DecodesButRefused()
    ensures var s: seq<byte> := [0x41, 0x41, 0x3d, 0x3d, 0x41, 0x41, 0x41, 0x41];
            Decode(Base64, s).outcome == Completed(4) && !WellFormed(Base64, s)
  {
    var s: seq<byte> := [0x41, 0x41, 0x3d, 0x3d, 0x41, 0x41, 0x41, 0x41];
    hide Decode, DecodeBlock;
    assert s[0..] == s && s[0..4] == s[..4] && s[8..] == [];
    DecodeStep(Base64, s, 0);
    DecodeStep(Base64, s, 4);
    DecodeEmpty(Base64);
    assert LettersThenPads(Base64, s[..4], 2);
    LastBlock(Base64, s[..4], 2);
    LettersBlock(Base64, s[4..8]);
    forall n ensures !LettersThenPads(Base64, s, n) {
      assert Base64.IsPad(s[2]) && !Base64.IsPad(s[4]);
    }
  }

  // ---------- encoding a decoding ----------

  /** Bits of the last letter that no input byte reaches, given the padding count. */
  function Unused(base: Base, p: nat): byte {
    match base
    case Base16 => 0
    case Base32 => if p == 6 then 0x03 else if p == 4 then 0x0f else if p == 3 then 0x01 else if p == 1 then 0x07 else 0
    case Base64 => if p == 2 then 0x0f else if p == 1 then 0x03 else 0
  }

  /** `n` letters of the encoder's own alphabet, the unused bits of the last one zero, and a
      legal number of pads (section 3.5 of RFC 4648). */
  ghost predicate Canonical(base: Base, s: seq<byte>, n: nat) {
    && Whole(base, |s|) && Legal(base, s, n)
    && (forall k :: 0 <= k < n ==> s[k] == base.Letter(base.Value(s[k])))
    && (n > 0 ==> base.Value(s[n - 1]) & Unused(base, |s| - n) == 0)
  }

  /** The bytes a completed decoding reports. */
  function Payload(d: Decoding): seq<byte> {
    if d.outcome.Completed? && d.outcome.size <= |d.stored| then d.stored[..d.outcome.size] else []
  }

  /** Every encoding is canonical. */
  lemma {:induction false} EncodeIsCanonical(base: Base, x: seq<byte>) returns (n: nat)
    ensures Canonical(base, Encode(base, x), n)
  {
    hide Encode, EncodeBlock, Base.Letter, Base.Value, Whole, Unused;
    CyoEncode.EncodeLength(base, x);
    if x == [] {
      CyoEncode.EncodeEmpty(base);
      n := 0;
    } else {
      var h := Head(base, x);
      CyoEncode.EncodeUnfold(base, x);
      var b, rest := EncodeBlock(base, x[..h]), Encode(base, x[h..]);
      CanonicalBlock(base, x[..h]);
      if h == |x| {
        CyoEncode.EncodeEmpty(base);
        assert x[h..] == [] && b + rest == b;
        n := Used(base, |x[..h]|);
      } else {
        var m := EncodeIsCanonical(base, x[h..]);
        n := base.Coded() + m;
        CanonicalJoin(base, b, rest, m);
      }
    }
  }

  /** A full block in front of a canonical string that goes on. */
  lemma CanonicalJoin(base: Base, b: seq<byte>, rest: seq<byte>, m: nat)
    requires Canonical(base, b, base.Coded()) && |b| == base.Coded()
    requires Canonical(base, rest, m) && Whole(base, |b + rest|)
    ensures Canonical(base, b + rest, base.Coded() + m)
  {
    hide Base.Letter, Base.Value, Whole, Unused;
    var s, n := b + rest, base.Coded() + m;
    assert forall k :: 0 <= k < n ==> s[k] == if k < |b| then b[k] else rest[k - |b|];
    assert forall k :: n <= k < |s| ==> s[k] == rest[k - |b|];
    if m == 0 {
      NoFullPadBlock(base, rest);
      assert s[n - 1] == b[|b| - 1];
    } else {
      assert s[n - 1] == rest[m - 1];
    }
  }

  /** A well-formed string does not start with padding. */
  lemma NoFullPadBlock(base: Base, s: seq<byte>)
    requires Whole(base, |s|) && LettersThenPads(base, s, 0)
    ensures s == []
  {
    if s != [] {
      WholeBlocks(base, |s|);
    }
  }

  lemma CanonicalBlock(base: Base, x: seq<byte>)
    requires 1 <= |x| <= base.Raw()
    ensures Canonical(base, EncodeBlock(base, x), Used(base, |x|))
  {
    hide Groups, Base.Letter, Base.Value;
    var s, g, u := EncodeBlock(base, x), Groups(base, x), Used(base, |x|);
    BaseXXRoundTrip.BlockValues(base, x);
    forall k | 0 <= k < |s|
      ensures base.Value(s[k]) == if k < u then g[k] else base.MaxValue() + 1
    {
      assert Values(base, s)[k] == base.Value(s[k]);
    }
    UnusedGroupBits(base, x);
    match base
    case Base16 =>
    case Base32 =>
    case Base64 =>
  }

  lemma UnusedGroupBits(base: Base, x: seq<byte>)
    requires 1 <= |x| <= base.Raw()
    ensures var u := Used(base, |x|); Groups(base, x)[u - 1] & Unused(base, base.Coded() - u) == 0
  {
    match base
    case Base16 =>
    case Base32 =>
    case Base64 =>
  }

  /** Encoding what a canonical string decodes to gives the string back. */
  lemma {:induction false} CanonicalRoundTrip(base: Base, s: seq<byte>, n: nat)
    requires Canonical(base, s, n)
    ensures Decode(base, s).outcome.Completed?
    ensures Encode(base, Payload(Decode(base, s))) == s
  {
    hide Decode, DecodeBlock, Encode, EncodeBlock, Whole, Canonical;
    var c := base.Coded();
    if s == [] {
      DecodeEmpty(base);
      CyoEncode.EncodeEmpty(base);
      assert Payload(Decoding([0], Completed(0))) == [];
    } else {
      WholeParts(base, s, n);
      if |s| == c {
        CanonicalLast(base, s, n);
      } else {
        CanonicalTail(base, s, n);
        CanonicalRoundTrip(base, s[c..], n - c);
        CanonicalMore(base, s);
      }
    }
  }

  lemma WholeParts(base: Base, s: seq<byte>, n: nat)
    requires Canonical(base, s, n) && s != []
    ensures base.Coded() <= |s| && Whole(base, |s|) && Whole(base, |s| - base.Coded())
    ensures |s| != base.Coded() ==> 2 * base.Coded() <= |s|
  {
    WholeBlocks(base, |s|);
    if |s| != base.Coded() {
      WholeBlocks(base, |s| - base.Coded());
    }
  }

  lemma CanonicalLast(base: Base, s: seq<byte>, n: nat)
    requires Canonical(base, s, n) && |s| == base.Coded()
    ensures Decode(base, s).outcome.Completed?
    ensures Encode(base, Payload(Decode(base, s))) == s
  {
    hide Decode, DecodeBlock, Encode, EncodeBlock, Whole, Canonical;
    assert s[0..] == s && s[0..|s|] == s && s[|s|..] == [];
    DecodeStep(base, s, 0);
    DecodeEmpty(base);
    LastBlockBack(base, s, n);
    var b := DecodeBlock(base, s);
    var x := b.out[..b.kept];
    assert (b.out + [0])[..b.kept] == x;
    assert Payload(Decode(base, s)) == x;
    CyoEncode.EncodeUnfold(base, x);
    CyoEncode.EncodeEmpty(base);
    assert x[..|x|] == x && x[|x|..] == [];
  }

  /** A full block in front of a string that comes back. */
  lemma CanonicalMore(base: Base, s: seq<byte>)
    requires 2 * base.Coded() <= |s| && Whole(base, |s| - base.Coded())
    requires Canonical(base, s[..base.Coded()], base.Coded())
    requires var d := Decode(base, s[base.Coded()..]);
             d.outcome.Completed? && Encode(base, Payload(d)) == s[base.Coded()..]
    ensures Decode(base, s).outcome.Completed?
    ensures Encode(base, Payload(Decode(base, s))) == s
  {
    hide Decode, DecodeBlock, Encode, EncodeBlock, Whole, DecodeGetLength, Canonical;
    var c := base.Coded();
    var head, rest := s[..c], s[c..];
    assert s[0..] == s;
    DecodeStep(base, s, 0);
    FullBlockBack(base, head);
    DecodeLength(base, rest);
    var b, d := DecodeBlock(base, head).out, Decode(base, rest);
    var x := Payload(d);
    FullBlockFirst(b, d.stored, d.outcome.size);
    FullBlockFirst(b, x, 0);
    assert Payload(Decode(base, s)) == b + x;
    CyoEncode.EncodeUnfold(base, b + x);
    assert s == head + rest;
  }

  lemma FullBlockBack(base: Base, s: seq<byte>)
    requires |s| == base.Coded() && Canonical(base, s, base.Coded())
    ensures var b := DecodeBlock(base, s);
            b.Good? && b.kept == |b.out| == base.Raw() && EncodeBlock(base, b.out) == s
  {
    hide DecodeBlock, EncodeBlock, Whole, Unused, Base.Letter, Base.Value;
    LastBlockBack(base, s, base.Coded());
    LettersBlock(base, s);
    var out := DecodeBlock(base, s).out;
    assert out[..base.Raw()] == out;
  }

  lemma FullBlockFirst(b: seq<byte>, rest: seq<byte>, n: nat)
    requires n <= |rest|
    ensures (b + rest)[..|b| + n] == b + rest[..n]
    ensures (b + rest)[..|b|] == b && (b + rest)[|b|..] == rest
  {
  }

  /** Re-encoding gives a string back exactly when the string is canonical. */
  lemma ReencodesIffCanonical(base: Base, s: seq<byte>)
    requires Whole(base, |s|) && Decode(base, s).outcome.Completed?
    ensures Encode(base, Payload(Decode(base, s))) == s <==> exists n :: Canonical(base, s, n)
  {
    hide Decode, Encode, Canonical;
    if n :| Canonical(base, s, n) {
      CanonicalRoundTrip(base, s, n);
    }
    if Encode(base, Payload(Decode(base, s))) == s {
      var n := EncodeIsCanonical(base, Payload(Decode(base, s)));
    }
  }

  /** Encoding is one-to-one, and its image is the canonical strings. */
  lemma EncodeIsBijective(base: Base, x: seq<byte>, y: seq<byte>, s: seq<byte>)
    ensures Encode(base, x) == Encode(base, y) ==> x == y
    ensures (exists n :: Canonical(base, s, n)) <==> exists z :: Encode(base, z) == s
  {
    hide Decode, Encode, Canonical, DecodeGetLength;
    BaseXXRoundTrip.RoundTrip(base, x);
    BaseXXRoundTrip.RoundTrip(base, y);
    assert Decode(base, Encode(base, x)).stored[..|x|] == x;
    assert Decode(base, Encode(base, y)).stored[..|y|] == y;
    if n :| Canonical(base, s, n) {
      CanonicalRoundTrip(base, s, n);
    }
    if z :| Encode(base, z) == s {
      var n := EncodeIsCanonical(base, z);
    }
  }

  lemma OneBlock(base: Base)
    ensures Whole(base, base.Coded())
    ensures LegalPads(base, 0) && Unused(base, 0) == 0 && Lost(base, 0) == 0
  {
  }

  /** Cutting a full block off a canonical string. */
  lemma CanonicalTail(base: Base, s: seq<byte>, n: nat)
    requires Canonical(base, s, n) && 2 * base.Coded() <= |s| && Whole(base, |s| - base.Coded())
    ensures Whole(base, |s[base.Coded()..]|)
    ensures n >= base.Coded() && Canonical(base, s[base.Coded()..], n - base.Coded())
    ensures Canonical(base, s[..base.Coded()], base.Coded())
  {
    hide Base.Letter, Base.Value, Whole, LegalPads, Unused, Base.IsLetter, Base.IsPad;
    var c := base.Coded();
    FewPads(base, |s| - n);
    OneBlock(base);
    var tail, m := s[c..], n - c;
    assert forall k :: 0 <= k < |tail| ==> tail[k] == s[k + c];
    assert tail[m - 1] == s[n - 1];
    assert forall k :: 0 <= k < c ==> s[..c][k] == s[k];
  }

  lemma FewPads(base: Base, p: nat)
    requires LegalPads(base, p)
    ensures p < base.Coded()
  {
  }

  /** One block: decoded, and encoded again from the bytes that count. */
  lemma LastBlockBack(base: Base, s: seq<byte>, n: nat)
    requires |s| == base.Coded() && Canonical(base, s, n)
    ensures DecodeBlock(base, s).Good?
    ensures var b := DecodeBlock(base, s); |b.out| == base.Raw() && EncodeBlock(base, b.out[..b.kept]) == s
  {
    hide Join, Groups, Unused, Base.Letter, Base.Value;
    LastBlock(base, s, n);
    var v, b := Values(base, s), DecodeBlock(base, s);
    var x := b.out[..b.kept];
    GroupsJoin(base, v, n, x);
    forall k | 0 <= k < |s| ensures EncodeBlock(base, x)[k] == s[k] {
      if n <= k {
        OnlyPad(base, s[k]);
      }
    }
  }

  lemma OnlyPad(base: Base, ch: byte)
    requires base.IsPad(ch)
    ensures ch == PAD
  {
  }

  /** Cutting the joined bytes into groups gives the values back, the unused bits being zero. */
  lemma GroupsJoin(base: Base, v: seq<byte>, n: nat, x: seq<byte>)
    requires |v| == base.Coded() && 2 <= n <= |v| && LegalPads(base, |v| - n)
    requires forall k :: 0 <= k < n ==> v[k] <= base.MaxValue()
    requires forall k :: n <= k < |v| ==> v[k] == base.MaxValue() + 1
    requires v[n - 1] & Unused(base, |v| - n) == 0
    requires x == Join(base, v)[..base.Raw() - Lost(base, |v| - n)]
    ensures Used(base, |x|) == n
    ensures forall k :: 0 <= k < n ==> Groups(base, x)[k] == v[k]
  {
    hide Groups, Join;
    match base
    case Base16 => GroupsJoin16(v, x);
    case Base32 => GroupsJoin32(v, n, x);
    case Base64 => GroupsJoin64(v, n, x);
  }

  lemma GroupsJoin16(v: seq<byte>, x: seq<byte>)
    requires |v| == 2 && v[0] <= 15 && v[1] <= 15 && x == Join(Base16, v)
    ensures Groups(Base16, x) == v
  {
  }

  lemma GroupsJoin32(v: seq<byte>, n: nat, x: seq<byte>)
    requires |v| == 8 && n in {2, 4, 5, 7, 8}
    requires forall k :: 0 <= k < n ==> v[k] <= 31
    requires forall k :: n <= k < 8 ==> v[k] == 32
    requires v[n - 1] & Unused(Base32, 8 - n) == 0
    requires x == Join(Base32, v)[..5 - Lost(Base32, 8 - n)]
    ensures forall k :: 0 <= k < n ==> Groups(Base32, x)[k] == v[k]
  {
    hide Groups, Join, Joined32;
    var w := v[..n] + seq(8 - n, _ => 0);
    BytesOf32(v, x);
    if n == 2 {
      Joined2(v, x);
      assert w == [v[0], v[1], 0, 0, 0, 0, 0, 0];
    } else if n == 4 {
      Joined4(v, x);
      assert w == [v[0], v[1], v[2], v[3], 0, 0, 0, 0];
    } else if n == 5 {
      Joined5(v, x);
      assert w == [v[0], v[1], v[2], v[3], v[4], 0, 0, 0];
    } else if n == 7 {
      Joined7(v, x);
      assert w == [v[0], v[1], v[2], v[3], v[4], v[5], v[6], 0];
    } else {
      Joined8(v, x);
      assert w == v;
    }
    GroupsOfJoined(w, x);
  }

  /** The bytes of `x`, zero-extended, are the values `w` joined. */
  ghost predicate Joined32(w: seq<byte>, x: seq<byte>)
    requires |w| == 8
  {
    && At(x, 0) == (w[0] << 3) | (w[1] >> 2)
    && At(x, 1) == ((w[1] & 0x03) << 6) | (w[2] << 1) | (w[3] >> 4)
    && At(x, 2) == ((w[3] & 0x0f) << 4) | (w[4] >> 1)
    && At(x, 3) == ((w[4] & 0x01) << 7) | (w[5] << 2) | (w[6] >> 3)
    && At(x, 4) == ((w[6] & 0x07) << 5) | w[7]
  }

  lemma GroupsOfJoined(w: seq<byte>, x: seq<byte>)
    requires |w| == 8 && Joined32(w, x)
    requires forall k :: 0 <= k < 8 ==> w[k] <= 31
    ensures Groups(Base32, x) == w
  {
    hide Groups, At;
    GroupsOf32(x);
    assert w[0] <= 31 && w[1] <= 31 && w[2] <= 31 && w[3] <= 31;
    assert w[4] <= 31 && w[5] <= 31 && w[6] <= 31 && w[7] <= 31;
  }

  lemma Joined2(v: seq<byte>, x: seq<byte>)
    requires |v| == 8 && |x| == 1 && BytesFrom32(v, x)
    requires v[0] <= 31 && v[1] <= 31 && v[1] & 0x03 == 0
    ensures Joined32([v[0], v[1], 0, 0, 0, 0, 0, 0], x)
  {
    hide At;
  }

  lemma Joined4(v: seq<byte>, x: seq<byte>)
    requires |v| == 8 && |x| == 2 && BytesFrom32(v, x)
    requires v[0] <= 31 && v[1] <= 31 && v[2] <= 31 && v[3] <= 31 && v[3] & 0x0f == 0
    ensures Joined32([v[0], v[1], v[2], v[3], 0, 0, 0, 0], x)
  {
    hide At;
  }

  lemma Joined5(v: seq<byte>, x: seq<byte>)
    requires |v| == 8 && |x| == 3 && BytesFrom32(v, x)
    requires v[0] <= 31 && v[1] <= 31 && v[2] <= 31 && v[3] <= 31 && v[4] <= 31 && v[4] & 0x01 == 0
    ensures Joined32([v[0], v[1], v[2], v[3], v[4], 0, 0, 0], x)
  {
    hide At;
  }

  lemma Joined7(v: seq<byte>, x: seq<byte>)
    requires |v| == 8 && |x| == 4 && BytesFrom32(v, x)
    requires v[0] <= 31 && v[1] <= 31 && v[2] <= 31 && v[3] <= 31 && v[4] <= 31 && v[5] <= 31 && v[6] <= 31
    requires v[6] & 0x07 == 0
    ensures Joined32([v[0], v[1], v[2], v[3], v[4], v[5], v[6], 0], x)
  {
    hide At;
  }

  lemma Joined8(v: seq<byte>, x: seq<byte>)
    requires |v| == 8 && |x| == 5 && BytesFrom32(v, x)
    requires v[0] <= 31 && v[1] <= 31 && v[2] <= 31 && v[3] <= 31
    requires v[4] <= 31 && v[5] <= 31 && v[6] <= 31 && v[7] <= 31
    ensures Joined32(v, x)
  {
    hide At;
  }

  /** The bytes of `x` are the first of those the values `v` join to. */
  ghost predicate BytesFrom32(v: seq<byte>, x: seq<byte>)
    requires |v| == 8
  {
    && (|x| >= 1 ==> At(x, 0) == ((v[0] & 0x1f) << 3) | ((v[1] & 0x1c) >> 2))
    && (|x| >= 2 ==> At(x, 1) == ((v[1] & 0x03) << 6) | ((v[2] & 0x1f) << 1) | ((v[3] & 0x10) >> 4))
    && (|x| >= 3 ==> At(x, 2) == ((v[3] & 0x0f) << 4) | ((v[4] & 0x1e) >> 1))
    && (|x| >= 4 ==> At(x, 3) == ((v[4] & 0x01) << 7) | ((v[5] & 0x1f) << 2) | ((v[6] & 0x18) >> 3))
    && (|x| >= 5 ==> At(x, 4) == ((v[6] & 0x07) << 5) | (v[7] & 0x1f))
    && (|x| < 5 ==> At(x, 4) == 0)
    && (|x| < 4 ==> At(x, 3) == 0)
    && (|x| < 3 ==> At(x, 2) == 0)
    && (|x| < 2 ==> At(x, 1) == 0)
  }

  lemma BytesOf32(v: seq<byte>, x: seq<byte>)
    requires |v| == 8 && |x| <= 5 && x == Join(Base32, v)[..|x|]
    ensures BytesFrom32(v, x)
  {
  }

  lemma GroupsOf32(x: seq<byte>)
    ensures Groups(Base32, x)[0] == At(x, 0) >> 3
    ensures Groups(Base32, x)[1] == ((At(x, 0) & 0x07) << 2) | (At(x, 1) >> 6)
    ensures Groups(Base32, x)[2] == (At(x, 1) & 0x3e) >> 1
    ensures Groups(Base32, x)[3] == ((At(x, 1) & 0x01) << 4) | (At(x, 2) >> 4)
    ensures Groups(Base32, x)[4] == ((At(x, 2) & 0x0f) << 1) | (At(x, 3) >> 7)
    ensures Groups(Base32, x)[5] == (At(x, 3) & 0x7c) >> 2
    ensures Groups(Base32, x)[6] == ((At(x, 3) & 0x03) << 3) | (At(x, 4) >> 5)
    ensures Groups(Base32, x)[7] == At(x, 4) & 0x1f
  {
  }

  lemma GroupsJoin64(v: seq<byte>, n: nat, x: seq<byte>)
    requires |v| == 4 && 2 <= n <= 4
    requires forall k :: 0 <= k < n ==> v[k] <= 63
    requires forall k :: n <= k < 4 ==> v[k] == 64
    requires v[n - 1] & Unused(Base64, 4 - n) == 0
    requires x == Join(Base64, v)[..3 - Lost(Base64, 4 - n)]
    ensures forall k :: 0 <= k < n ==> Groups(Base64, x)[k] == v[k]
  {
    hide Groups, Join;
    if n == 2 {
      TwoLetters64(v, x);
    } else if n == 3 {
      ThreeLetters64(v, x);
    } else {
      FourLetters64(v, x);
    }
  }

  lemma TwoLetters64(v: seq<byte>, x: seq<byte>)
    requires |v| == 4 && v[0] <= 63 && v[1] <= 63 && v[1] & 0x0f == 0 && x == Join(Base64, v)[..1]
    ensures var g := Groups(Base64, x); g[0] == v[0] && g[1] == v[1]
  {
  }

  lemma ThreeLetters64(v: seq<byte>, x: seq<byte>)
    requires |v| == 4 && v[0] <= 63 && v[1] <= 63 && v[2] <= 63 && v[2] & 0x03 == 0 && x == Join(Base64, v)[..2]
    ensures var g := Groups(Base64, x); g[0] == v[0] && g[1] == v[1] && g[2] == v[2]
  {
  }

  lemma FourLetters64(v: seq<byte>, x: seq<byte>)
    requires |v| == 4 && v[0] <= 63 && v[1] <= 63 && v[2] <= 63 && v[3] <= 63 && x == Join(Base64, v)
    ensures Groups(Base64, x) == v
  {
  }
}
