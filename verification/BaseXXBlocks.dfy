/** How a decoding ends, said from the symbols: which blocks are good, how much of them counts, and
    what the first block that is not makes of the whole. */
module BaseXXBlocks {
  import opened BaseXX
  import CyoDecode
  import BaseXXCanonical
  import Base32String

  // ---------- one block ----------

  /** Letters in the first two places, letters or pads in the others. */
  ghost predicate Readable(base: Base, s: seq<byte>) {
    forall k :: 0 <= k < |s| ==> base.IsLetter(s[k]) || (k >= 2 && base.IsPad(s[k]))
  }

  /** The pads the decoder goes by, in the order it looks at them: each takes a byte away as long as
      all before it are there too. */
  function Places(base: Base): (places: seq<nat>)
    ensures forall i :: 0 <= i < |places| ==> places[i] < base.Coded()
  {
    match base case Base16 => [] case Base32 => [7, 5, 4, 2] case Base64 => [3, 2]
  }

  lemma RejectedIff(base: Base, s: seq<byte>)
    requires |s| == base.Coded()
    ensures DecodeBlock(base, s).BadSymbol? <==> !Readable(base, s)
  {
    hide Base.Value, Join, PaddingAsserts;
    var v := Values(base, s);
    assert forall k :: 0 <= k < |s| ==> v[k] == base.Value(s[k]);
    match base
    case Base16 =>
    case Base32 => assert Readable(base, s) <==> Acceptable(base, v);
    case Base64 =>
  }

  /** The asserts fail exactly on two kinds of readable base 32 blocks: with pads in the last two
      places and none before them, or with pads in places 4, 5, 6 and 8 and none in place 3. */
  lemma AssertFailsIff(base: Base, s: seq<byte>)
    requires |s| == base.Coded()
    ensures DecodeBlock(base, s).BadPadding? <==>
            && base.Base32? && Readable(base, s) && base.IsPad(s[7])
            && ((base.IsPad(s[6]) && !base.IsPad(s[5]))
                || (base.IsPad(s[5]) && base.IsPad(s[4]) && base.IsPad(s[3]) && !base.IsPad(s[2])))
  {
    hide Base.Value, Join, Acceptable;
    RejectedIff(base, s);
  }

  /** How many bytes of a good block count. */
  lemma KeptIff(base: Base, s: seq<byte>, m: nat)
    requires |s| == base.Coded() && DecodeBlock(base, s).Good? && m <= |Places(base)|
    ensures base.Raw() - DecodeBlock(base, s).kept >= m
            <==> forall i :: 0 <= i < m ==> base.IsPad(s[Places(base)[i]])
    ensures base.Raw() - DecodeBlock(base, s).kept <= |Places(base)|
  {
    hide Base.Value, Join, Acceptable, PaddingAsserts;
    var v := Values(base, s);
    assert forall k :: 0 <= k < |s| ==> v[k] == base.Value(s[k]);
    var places := Places(base);
    match base
    case Base16 =>
    case Base32 => assert places[0] == 7 && places[1] == 5 && places[2] == 4 && places[3] == 2;
    case Base64 => assert places[0] == 3 && places[1] == 2;
  }

  // ---------- all blocks ----------

  /** The block that starts at place `i`. */
  function BlockAt(base: Base, s: seq<byte>, i: nat): Block
    requires i + base.Coded() <= |s|
  {
    DecodeBlock(base, s[i..i + base.Coded()])
  }

  ghost predicate GoodBefore(base: Base, s: seq<byte>, i: nat)
    requires i <= |s|
  {
    forall p: nat :: Whole(base, p) && p + base.Coded() <= i ==> BlockAt(base, s, p).Good?
  }

  /** The bytes that count in the blocks before place `i`. */
  function KeptBefore(base: Base, s: seq<byte>, i: nat): nat
    requires i <= |s|
  {
    if i < base.Coded() then 0
    else
      var b := BlockAt(base, s, i - base.Coded());
      KeptBefore(base, s, i - base.Coded()) + if b.Good? then b.kept else 0
  }

  lemma {:induction false} PastGoodBlocks(base: Base, s: seq<byte>, i: nat)
    requires i <= |s| && Whole(base, i) && GoodBefore(base, s, i)
    ensures Decode(base, s).outcome == After(KeptBefore(base, s, i), Decode(base, s[i..]).outcome)
  {
    hide Decode, DecodeBlock, Whole, GoodBefore, KeptBefore;
    if i == 0 {
      assert s[0..] == s;
      NothingBefore(base, s);
    } else {
      CyoDecode.WholeBlocks(base, i);
      OneBlockBefore(base, s, i);
      PastGoodBlocks(base, s, i - base.Coded());
      CyoDecode.DecodeStep(base, s, i - base.Coded());
    }
  }

  lemma NothingBefore(base: Base, s: seq<byte>)
    ensures KeptBefore(base, s, 0) == 0
  {
  }

  lemma OneBlockBefore(base: Base, s: seq<byte>, i: nat)
    requires base.Coded() <= i <= |s| && Whole(base, i - base.Coded()) && GoodBefore(base, s, i)
    ensures GoodBefore(base, s, i - base.Coded())
    ensures var b := BlockAt(base, s, i - base.Coded());
            b.Good? && KeptBefore(base, s, i) == KeptBefore(base, s, i - base.Coded()) + b.kept
  {
    hide DecodeBlock, Whole;
  }

  /** A decoding completes if all blocks are good, with the bytes that count in them; otherwise the
      first block that is not decides between an error and a failed assert. */
  lemma FirstBadBlockDecides(base: Base, s: seq<byte>, i: nat)
    requires Whole(base, |s|) && Whole(base, i) && i <= |s| && GoodBefore(base, s, i)
    requires i < |s| ==> i + base.Coded() <= |s| && !BlockAt(base, s, i).Good?
    ensures Decode(base, s).outcome ==
            if i == |s| then Completed(KeptBefore(base, s, i))
            else if BlockAt(base, s, i).BadSymbol? then Rejected
            else Aborted
  {
    hide Decode, DecodeBlock, Whole;
    PastGoodBlocks(base, s, i);
    if i == |s| {
      assert s[i..] == [];
      CyoDecode.DecodeEmpty(base);
    } else {
      CyoDecode.DecodeStep(base, s, i);
    }
  }

  /** from_base32 gives the empty vector for a partial block and for a symbol out of place, and
      stops at a failed assert. */
  lemma TextErrors(b32: seq<byte>, i: nat)
    requires Whole(Base32, |b32|) ==>
               && i + 8 <= |b32| && Whole(Base32, i) && GoodBefore(Base32, b32, i)
               && !BlockAt(Base32, b32, i).Good?
    ensures Base32String.FromText(b32) ==
            if Whole(Base32, |b32|) && BlockAt(Base32, b32, i).BadPadding? then Base32String.AssertFailed
            else Base32String.Bytes([])
  {
    hide Decode, DecodeBlock, Whole;
    if Whole(Base32, |b32|) {
      FirstBadBlockDecides(Base32, b32, i);
    }
  }
}
