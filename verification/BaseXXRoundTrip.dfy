/** Decoding an encoding gives the input back, in all three bases. */
module BaseXXRoundTrip {
  import opened BaseXX
  import CyoEncode
  import CyoDecode

  function Zeros(n: nat): (z: seq<byte>)
    ensures |z| == n
  {
    seq(n, _ => 0)
  }

  // ---------- decoding an encoding ----------

  /** Decoding the encoding of `x` trips no assert, reports `|x|`, and stores `x` followed by
      nothing but zeros: the filling of the last block and the terminator. */
  lemma {:induction false} RoundTrip(base: Base, x: seq<byte>)
    ensures var d := Decode(base, Encode(base, x));
            && d.outcome == Completed(|x|)
            && |x| < |d.stored| == CyoDecode.DecodeGetLength(base, |Encode(base, x)|)
            && d.stored == x + Zeros(|d.stored| - |x|)
  {
    hide Decode, DecodeBlock, Encode, EncodeBlock, CyoDecode.DecodeGetLength, CyoEncode.EncodeGetLength, Whole;
    var s := Encode(base, x);
    CyoEncode.EncodeLength(base, x);
    if x == [] {
      CyoEncode.EncodeEmpty(base);
      CyoDecode.DecodeEmpty(base);
      CyoDecode.DecodeLength(base, []);
    } else {
      var h := Head(base, x);
      CyoEncode.EncodeUnfold(base, x);
      var b, rest := EncodeBlock(base, x[..h]), Encode(base, x[h..]);
      assert s[..base.Coded()] == b && s[base.Coded()..] == rest && s[0..] == s;
      CyoDecode.DecodeStep(base, s, 0);
      BlockRoundTrip(base, x[..h]);
      RoundTrip(base, x[h..]);
      CyoDecode.DecodeLength(base, s);
      RejoinZeros(base, x, Decode(base, rest).stored);
    }
  }

  /** Only the last block is filled up. */
  lemma RejoinZeros(base: Base, x: seq<byte>, rest: seq<byte>)
    requires x != [] && |rest| >= |x| - Head(base, x)
    requires var h := Head(base, x); rest == x[h..] + Zeros(|rest| - |x[h..]|)
    ensures var h := Head(base, x);
            (x[..h] + Zeros(base.Raw() - h)) + rest == x + Zeros(base.Raw() + |rest| - |x|)
  {
  }

  lemma BlockRoundTrip(base: Base, x: seq<byte>)
    requires 1 <= |x| <= base.Raw()
    ensures DecodeBlock(base, EncodeBlock(base, x)) == Good(x + Zeros(base.Raw() - |x|), |x|)
  {
    hide Join, Groups, EncodeBlock;
    var v := Values(base, EncodeBlock(base, x));
    BlockValues(base, x);
    JoinGroups(base, x, v);
    match base
    case Base16 =>
    case Base32 =>
    case Base64 =>
  }

  /** The decoder looks up the groups the encoder made, and the pad value after them. */
  lemma BlockValues(base: Base, x: seq<byte>)
    requires 1 <= |x| <= base.Raw()
    ensures var v := Values(base, EncodeBlock(base, x));
            forall i :: 0 <= i < |v| ==>
              v[i] == if i < Used(base, |x|) then Groups(base, x)[i] else base.MaxValue() + 1
  {
    hide Groups, Base.Letter, Base.Value;
    var g, v := Groups(base, x), Values(base, EncodeBlock(base, x));
    forall i | 0 <= i < |v|
      ensures v[i] == if i < Used(base, |x|) then g[i] else base.MaxValue() + 1
    {
      LetterValue(base, g[i]);
      PadValue(base);
    }
  }

  lemma PadValue(base: Base)
    ensures !base.Base16? ==> base.Value(PAD) == base.MaxValue() + 1
  {
  }

  /** Joining the groups again gives the block, with pad values falling out under the masks. */
  lemma JoinGroups(base: Base, x: seq<byte>, v: seq<byte>)
    requires 1 <= |x| <= base.Raw() && |v| == base.Coded()
    requires forall i :: 0 <= i < |v| ==>
               v[i] == if i < Used(base, |x|) then Groups(base, x)[i] else base.MaxValue() + 1
    ensures Join(base, v) == x + Zeros(base.Raw() - |x|)
  {
    hide Groups, Join;
    GroupsPastUsed(base, x);
    JoinPads(base, v, Groups(base, x));
    match base
    case Base16 => JoinGroups16(x);
    case Base32 => JoinGroups32(x);
    case Base64 => JoinGroups64(x);
  }

  lemma GroupsPastUsed(base: Base, x: seq<byte>)
    requires 1 <= |x| <= base.Raw()
    ensures forall i :: Used(base, |x|) <= i < base.Coded() ==> Groups(base, x)[i] == 0
  {
  }

  /** Under the decoder's masks a pad value is as good as zero. */
  lemma JoinPads(base: Base, v: seq<byte>, g: seq<byte>)
    requires |v| == base.Coded() == |g|
    requires forall i :: 0 <= i < |v| ==> v[i] == g[i] || (!base.Base16? && v[i] == base.MaxValue() + 1 && g[i] == 0)
    ensures Join(base, v) == Join(base, g)
  {
    match base
    case Base16 =>
    case Base32 =>
    case Base64 =>
  }

  lemma JoinGroups16(x: seq<byte>)
    requires |x| == 1
    ensures Join(Base16, Groups(Base16, x)) == x + Zeros(0)
  {
  }

  lemma JoinGroups32(x: seq<byte>)
    requires 1 <= |x| <= 5
    ensures Join(Base32, Groups(Base32, x)) == x + Zeros(5 - |x|)
  {
    var b := Join(Base32, Groups(Base32, x));
    assert b[0] == At(x, 0) && b[1] == At(x, 1) && b[2] == At(x, 2) && b[3] == At(x, 3) && b[4] == At(x, 4);
  }

  lemma JoinGroups64(x: seq<byte>)
    requires 1 <= |x| <= 3
    ensures Join(Base64, Groups(Base64, x)) == x + Zeros(3 - |x|)
  {
    var b := Join(Base64, Groups(Base64, x));
    assert b[0] == At(x, 0) && b[1] == At(x, 1) && b[2] == At(x, 2);
  }
}
