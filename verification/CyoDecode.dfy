/** CyoDecode.c: the validator and the decoders as loops over buffers.

    `i` is the read cursor `src`, `o` the write cursor `pDest`. */
module CyoDecode {
  import opened BaseXX
  import CyoEncode

  /** Space the decoder asks for, terminator included; zero when the length is not a whole
      number of blocks. */
  function DecodeGetLength(base: Base, size: nat): (n: nat) {
    if size % base.Coded() != 0 then 0
    else (size + base.Coded() - 1) / base.Coded() * base.Raw() + 1
  }

  // ---------- validation ----------

  /** `n` letters followed by nothing but padding, at most `MaxPadding` of it. */
  ghost predicate LettersThenPads(base: Base, s: seq<byte>, n: nat) {
    && n <= |s| <= n + base.MaxPadding()
    && (forall k :: 0 <= k < n ==> base.IsLetter(s[k]))
    && (forall k :: n <= k < |s| ==> base.IsPad(s[k]))
  }

  /** A well-formed encoding: whole blocks, letters, then padding. */
  ghost predicate WellFormed(base: Base, s: seq<byte>) {
    Whole(base, |s|) && exists n :: LettersThenPads(base, s, n)
  }

  /** Where the validator's two loops get stuck, no split into letters and padding is possible. */
  lemma NotWellFormed(base: Base, s: seq<byte>, n: nat, i: nat)
    requires n <= i < |s|
    requires forall k :: 0 <= k < n ==> base.IsLetter(s[k])
    requires !base.IsLetter(s[n])
    requires n < i ==> |s| - n <= base.MaxPadding()
    requires |s| - i > base.MaxPadding() || !base.IsPad(s[i])
    ensures !WellFormed(base, s)
  {
    forall m: nat ensures !LettersThenPads(base, s, m) {
      if n < m <= |s| {
        assert !base.IsLetter(s[n]);
      } else if m < n {
        assert base.IsLetter(s[m]);
      }
    }
  }

  /** cyoBaseXXValidate: 0 for exactly the well-formed strings. */
  method Validate(src: array<byte>, size: nat, base: Base) returns (r: int)
    requires size <= src.Length
    ensures r == if !Whole(base, size) then -1 else if WellFormed(base, src[..size]) then 0 else -2
  {
    if size % base.Coded() != 0 {
      return -1;
    }
    ghost var s := src[..size];
    var left, i := size, 0;
    while left >= 1
      invariant i + left == size
      invariant forall k :: 0 <= k < i ==> base.IsLetter(s[k])
    {
      var ch := src[i];
      if ch >= 0x80 || base.Value(ch) > base.MaxValue() {
        break;
      }
      left, i := left - 1, i + 1;
    }
    ghost var n := i;
    assert n == size || !base.IsLetter(s[n]);
    while 1 <= left <= base.MaxPadding()
      decreases left
      invariant i + left == size && n <= i
      invariant n < i ==> size - n <= base.MaxPadding()
      invariant forall k :: n <= k < i ==> base.IsPad(s[k])
    {
      var ch := src[i];
      if ch >= 0x80 || base.Value(ch) != base.MaxValue() + 1 {
        break;
      }
      left, i := left - 1, i + 1;
    }
    if left != 0 {
      NotWellFormed(base, s, n, i);
      return -2;
    }
    assert LettersThenPads(base, s, n);
    return 0;
  }

  // ---------- decoding ----------

  /** What a caller of a decoder sees: errors read as length 0, a failed `assert` stops the program. */
  datatype Call = Returned(size: nat) | AssertFailed

  lemma DecodeEmpty(base: Base)
    ensures Decode(base, []) == Decoding([0], Completed(0))
  {
  }

  lemma WholeBlocks(base: Base, n: nat)
    requires 0 < n && Whole(base, n)
    ensures base.Coded() <= n && Whole(base, n - base.Coded())
  {
    match base
    case Base16 =>
    case Base32 =>
    case Base64 =>
  }

  /** A decoding block by block: the block at `i` is next. */
  lemma DecodeStep(base: Base, s: seq<byte>, i: nat)
    requires i + base.Coded() <= |s|
    ensures Decode(base, s[i..]) ==
            match DecodeBlock(base, s[i..i + base.Coded()])
            case BadSymbol => Decoding([], Rejected)
            case BadPadding(out) => Decoding(out, Aborted)
            case Good(out, kept) =>
              var rest := Decode(base, s[i + base.Coded()..]);
              Decoding(out + rest.stored, After(kept, rest.outcome))
  {
    hide DecodeBlock;
    assert s[i..][..base.Coded()] == s[i..i + base.Coded()];
    assert s[i..][base.Coded()..] == s[i + base.Coded()..];
  }

  /** A completed decoding stores exactly the announced length and keeps less than that. */
  lemma {:induction false} DecodeLength(base: Base, s: seq<byte>)
    requires Whole(base, |s|)
    ensures |Decode(base, s).stored| <= DecodeGetLength(base, |s|)
    ensures Decode(base, s).outcome.Completed? ==>
              && |Decode(base, s).stored| == DecodeGetLength(base, |s|)
              && Decode(base, s).outcome.size < DecodeGetLength(base, |s|)
  {
    hide Decode, DecodeBlock, DecodeGetLength;
    LengthStep(base, |s|);
    if s == [] {
      DecodeEmpty(base);
    } else {
      assert s[0..] == s;
      WholeBlocks(base, |s|);
      DecodeStep(base, s, 0);
      DecodeLength(base, s[base.Coded()..]);
    }
  }

  /** The announced length is zero exactly if the last block is partial. */
  lemma NoLengthIff(base: Base, size: nat)
    ensures DecodeGetLength(base, size) == 0 <==> !Whole(base, size)
  {
  }

  lemma LengthStep(base: Base, size: nat)
    requires Whole(base, size)
    ensures size == 0 ==> DecodeGetLength(base, size) == 1
    ensures size != 0 ==>
              size >= base.Coded()
              && DecodeGetLength(base, size) == base.Raw() + DecodeGetLength(base, size - base.Coded())
  {
    if size != 0 {
      WholeBlocks(base, size);
      WholeLength(base, size - base.Coded());
    }
    WholeLength(base, size);
    match base
    case Base16 =>
    case Base32 =>
    case Base64 =>
  }

  lemma WholeLength(base: Base, size: nat)
    requires Whole(base, size)
    ensures DecodeGetLength(base, size) == size / base.Coded() * base.Raw() + 1
  {
    match base
    case Base16 =>
    case Base32 =>
    case Base64 =>
  }

  /** The inputs of one turn of a loop: read, checked to be below 0x80, looked up. */
  method Lookup(base: Base, s: seq<byte>) returns (ascii: bool, v: seq<byte>)
    requires |s| == base.Coded()
    ensures v == Values(base, s)
    ensures !ascii ==> DecodeBlock(base, s) == BadSymbol
  {
    hide Base.Value;
    HighByte(base, s);
    v := Values(base, s);
    ascii := forall k :: 0 <= k < |s| ==> s[k] < 0x80;
  }

  /** A byte of 0x80 or more has no value, and spoils its block. */
  lemma HighByte(base: Base, s: seq<byte>)
    requires |s| == base.Coded()
    ensures (exists k :: 0 <= k < |s| && s[k] >= 0x80) ==> DecodeBlock(base, s) == BadSymbol
  {
    hide Acceptable;
    if k :| 0 <= k < |s| && s[k] >= 0x80 {
      NoValue(base, Values(base, s), k);
    }
  }

  lemma NoValue(base: Base, v: seq<byte>, k: nat)
    requires |v| == base.Coded() && k < |v| && v[k] == 0xff
    ensures !Acceptable(base, v)
  {
    match base
    case Base16 =>
    case Base32 => assert k in {0, 1, 2, 3, 4, 5, 6, 7};
    case Base64 =>
  }

  /** The symbol checks: letters first, then letters or padding. */
  method Check(base: Base, v: seq<byte>) returns (ok: bool)
    requires |v| == base.Coded()
    ensures ok == Acceptable(base, v)
  {
    match base
    case Base16 => return !(v[0] > 15 || v[1] > 15);
    case Base32 =>
      if v[0] > 31 || v[1] > 31 {
        return false;
      }
      return !(v[2] > 32 || v[3] > 32 || v[4] > 32 || v[5] > 32 || v[6] > 32 || v[7] > 32);
    case Base64 =>
      if v[0] > 63 || v[1] > 63 {
        return false;
      }
      return !(v[2] > 64 || v[3] > 64);
  }

  /** The nested padding checks: whether the asserts on the way hold, and the bytes that count. */
  method Padding(base: Base, v: seq<byte>) returns (ok: bool, size: nat)
    requires |v| == base.Coded()
    ensures ok == PaddingAsserts(base, v)
    ensures ok ==> size == base.Raw() - Dropped(base, v)
  {
    size := base.Raw();
    match base {
    case Base16 =>
    case Base32 =>
      var in3, in4, in5, in6, in7, in8 := v[2], v[3], v[4], v[5], v[6], v[7];
      if in8 == 32 {
        size := size - 1;
        if !((in7 == 32 && in6 == 32) || in7 != 32) {
          return false, size;
        }
        if in6 == 32 {
          size := size - 1;
          if in5 == 32 {
            size := size - 1;
            if !((in4 == 32 && in3 == 32) || in4 != 32) {
              return false, size;
            }
            if in3 == 32 {
              size := size - 1;
            }
          }
        }
      }
    case Base64 =>
      var in3, in4 := v[2], v[3];
      if in4 == 64 {
        size := size - 1;
        if in3 == 64 {
          size := size - 1;
        }
      }
    }
    return true, size;
  }

  /** One turn of a decoder's loop: the block's bytes, and what they add to the size. */
  method DecodeTurn(base: Base, s: seq<byte>) returns (b: Block)
    requires |s| == base.Coded()
    ensures b == DecodeBlock(base, s)
  {
    hide Values, Acceptable, Join, PaddingAsserts, Dropped;
    var ascii, v := Lookup(base, s);
    if !ascii {
      return BadSymbol;
    }
    var acceptable := Check(base, v);
    if !acceptable {
      return BadSymbol;
    }
    var ok, size := Padding(base, v);
    return if ok then Good(Join(base, v), size) else BadPadding(Join(base, v));
  }

  /** What a block adds to the buffer. */
  function Stored(b: Block): seq<byte> {
    match b
    case Good(out, _) => out
    case BadPadding(out) => out
    case BadSymbol => []
  }

  /** One turn of a decoder's loop with its stores; the asserts come after the stores. */
  method StoreBlock(base: Base, dest: array<byte>, o: nat, s: seq<byte>, ghost done: seq<byte>, ghost was: seq<byte>)
    returns (b: Block)
    requires |s| == base.Coded()
    requires o == |done| && o + base.Raw() <= dest.Length && CyoEncode.Filled(dest[..], was, done)
    modifies dest
    ensures b == DecodeBlock(base, s)
    ensures CyoEncode.Filled(dest[..], was, done + Stored(b))
  {
    hide DecodeBlock;
    b := DecodeTurn(base, s);
    CyoEncode.Put(dest, o, Stored(b), done, was);
  }

  /** Half-way through a decoding: `done` is stored, and the symbols from `i` on give the rest. */
  ghost predicate Progress(base: Base, s: seq<byte>, i: nat, done: seq<byte>, size: nat) {
    && i <= |s| && Whole(base, |s|) && Whole(base, |s| - i)
    && |done| + DecodeGetLength(base, |s| - i) == DecodeGetLength(base, |s|)
    && var rest := Decode(base, s[i..]);
       Decode(base, s) == Decoding(done + rest.stored, After(size, rest.outcome))
  }

  lemma AtLeastOne(base: Base, size: nat)
    requires Whole(base, size)
    ensures DecodeGetLength(base, size) >= 1
  {
  }

  lemma ProgressStart(base: Base, s: seq<byte>)
    requires Whole(base, |s|)
    ensures Progress(base, s, 0, [], 0)
  {
    hide Decode, Whole;
    assert s[0..] == s;
  }

  lemma ProgressStep(base: Base, s: seq<byte>, i: nat, done: seq<byte>, size: nat)
    requires Progress(base, s, i, done, size) && i < |s|
    ensures i + base.Coded() <= |s| && Whole(base, |s|)
    ensures |done| + base.Raw() < DecodeGetLength(base, |s|)
    ensures match DecodeBlock(base, s[i..i + base.Coded()])
            case BadSymbol => Decode(base, s) == Decoding(done, Rejected)
            case BadPadding(out) => Decode(base, s) == Decoding(done + out, Aborted)
            case Good(out, kept) =>
              && Progress(base, s, i + base.Coded(), done + out, size + kept)
  {
    hide Decode, DecodeBlock, Whole, DecodeGetLength, Base.Coded, Base.Raw;
    WholeBlocks(base, |s| - i);
    DecodeStep(base, s, i);
    LengthStep(base, |s| - i);
    AtLeastOne(base, |s| - i - base.Coded());
    var b := DecodeBlock(base, s[i..i + base.Coded()]);
    if b.Good? {
      var rest := Decode(base, s[i + base.Coded()..]);
      CyoEncode.Regroup(done, b.out, rest.stored);
    }
  }

  lemma ProgressEnd(base: Base, s: seq<byte>, done: seq<byte>, size: nat)
    requires Progress(base, s, |s|, done, size)
    ensures Whole(base, |s|) && Decode(base, s) == Decoding(done + [0], Completed(size))
    ensures |done| < DecodeGetLength(base, |s|)
  {
    hide Decode, Whole, DecodeGetLength;
    AtLeastOne(base, 0);
    DecodeEmpty(base);
    assert s[|s|..] == [];
  }

  /** cyoBase16Decode, cyoBase32Decode and cyoBase64Decode: the loop the three have in common.  A
      partial last block is refused with the buffer untouched; otherwise the bytes of `Decode` are
      stored from the front and the rest of the buffer is left alone.  The asserts come after the
      stores. */
  method DecodeInto(base: Base, dest: array<byte>, src: array<byte>, size: nat) returns (r: Call)
    requires dest != src && size <= src.Length
    requires DecodeGetLength(base, size) <= dest.Length
    modifies dest
    ensures !Whole(base, size) ==> r == Returned(0) && dest[..] == old(dest[..])
    ensures Whole(base, size) ==>
              var d := Decode(base, src[..size]);
              && r == (match d.outcome
                       case Completed(n) => Returned(n)
                       case Rejected => Returned(0)
                       case Aborted => AssertFailed)
              && |d.stored| <= dest.Length && dest[..] == d.stored + old(dest[..])[|d.stored|..]
  {
    hide Decode, DecodeBlock, DecodeGetLength, Whole, Progress, CyoEncode.Filled, Base.Coded, Base.Raw;
    if !Whole(base, size) {
      return Returned(0);
    }
    ghost var s, was := src[..size], dest[..];
    ghost var done: seq<byte> := [];
    var i: nat, o: nat, dwSrcSize: nat, dwDestSize: nat := 0, 0, size, 0;
    ProgressStart(base, s);
    CyoEncode.NothingFilled(was);
    DecodeLength(base, s);
    while dwSrcSize >= 1
      invariant i + dwSrcSize == size && o == |done| <= dest.Length
      invariant Progress(base, s, i, done, dwDestSize)
      invariant CyoEncode.Filled(dest[..], was, done)
    {
      ProgressStep(base, s, i, done, dwDestSize);
      assert src[i..i + base.Coded()] == s[i..i + base.Coded()];
      var b := StoreBlock(base, dest, o, src[i..i + base.Coded()], done, was);
      assert done + [] == done;
      if !b.Good? {
        CyoEncode.FilledFront(dest[..], was, done + Stored(b));
        return if b.BadSymbol? then Returned(0) else AssertFailed;
      }
      i, dwSrcSize := i + base.Coded(), dwSrcSize - base.Coded();
      done, o := done + b.out, o + base.Raw();
      dwDestSize := dwDestSize + b.kept;
    }
    ProgressEnd(base, s, done, dwDestSize);
    CyoEncode.Put(dest, o, [0], done, was);
    CyoEncode.FilledFront(dest[..], was, done + [0]);
    return Returned(dwDestSize);
  }
}
