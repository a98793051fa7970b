/** CyoEncode.c: the encoders as loops over a source and a destination buffer.

    `i` is the read cursor `pSrc`, `o` the write cursor `dest`. */
module CyoEncode {
  import opened BaseXX

  /** Space an encoding needs, terminator included. */
  function EncodeGetLength(base: Base, size: nat): (n: nat) {
    (size + base.Raw() - 1) / base.Raw() * base.Coded() + 1
  }

  /** A buffer whose front has been overwritten with `done`; the rest is as it was. */
  ghost predicate Filled(now: seq<byte>, was: seq<byte>, done: seq<byte>) {
    |done| <= |was| && now == done + was[|done|..]
  }

  lemma NothingFilled(was: seq<byte>)
    ensures Filled(was, was, [])
  {
  }

  lemma FilledFront(now: seq<byte>, was: seq<byte>, done: seq<byte>)
    requires Filled(now, was, done)
    ensures |done| <= |was| && now == done + was[|done|..]
  {
  }

  lemma EncodeEmpty(base: Base)
    ensures Encode(base, []) == []
  {
  }

  lemma EncodeUnfold(base: Base, x: seq<byte>)
    requires x != []
    ensures Encode(base, x) == EncodeBlock(base, x[..Head(base, x)]) + Encode(base, x[Head(base, x)..])
  {
    hide EncodeBlock;
  }

  /** A block more of input is a block more of output. */
  lemma LengthStep(base: Base, size: nat, head: nat)
    requires 0 < size && head == if size < base.Raw() then size else base.Raw()
    ensures EncodeGetLength(base, size) == base.Coded() + EncodeGetLength(base, size - head)
  {
    match base
    case Base16 =>
    case Base32 =>
    case Base64 =>
  }

  lemma LengthZero(base: Base)
    ensures EncodeGetLength(base, 0) == 1
  {
    match base
    case Base16 =>
    case Base32 =>
    case Base64 =>
  }

  lemma MultiplePlusOne(base: Base, n: nat)
    requires Whole(base, n)
    ensures Whole(base, base.Coded() + n)
  {
    match base
    case Base16 => assert (2 + n) % 2 == n % 2;
    case Base32 => assert (8 + n) % 8 == n % 8;
    case Base64 => assert (4 + n) % 4 == n % 4;
  }

  /** The symbols of an encoding and its terminator fill exactly the announced length. */
  lemma {:induction false} EncodeLength(base: Base, x: seq<byte>)
    ensures |Encode(base, x)| + 1 == EncodeGetLength(base, |x|)
    ensures Whole(base, |Encode(base, x)|)
  {
    hide Encode, EncodeBlock, EncodeGetLength;
    if x == [] {
      EncodeEmpty(base);
      LengthZero(base);
    } else {
      EncodeUnfold(base, x);
      EncodeLength(base, x[Head(base, x)..]);
      LengthStep(base, |x|, Head(base, x));
      ghost var rest := |Encode(base, x[Head(base, x)..])|;
      assert |Encode(base, x)| == base.Coded() + rest;
      MultiplePlusOne(base, rest);
    }
  }

  /** One turn of an encoder's loop: the block at `i` is next. */
  lemma EncodeStep(base: Base, x: seq<byte>, i: nat, n: nat)
    requires i < |x| && n == Head(base, x[i..])
    ensures Encode(base, x[i..]) == EncodeBlock(base, x[i..i + n]) + Encode(base, x[i + n..])
  {
    hide Encode, EncodeBlock;
    EncodeUnfold(base, x[i..]);
    assert x[i..][..n] == x[i..i + n];
    assert x[i..][n..] == x[i + n..];
  }

  /** A block's symbols are the letters of its groups, with the pad index past the used ones. */
  lemma BlockLetters(base: Base, x: seq<byte>, v: seq<byte>, n: seq<byte>)
    requires 1 <= |x| <= base.Raw() && !base.Base16?
    requires v == Groups(base, x) && |n| == |v|
    requires forall i :: 0 <= i < |v| ==> n[i] == if i < Used(base, |x|) then v[i] else base.MaxValue() + 1
    ensures EncodeBlock(base, x) == Letters(base, n)
  {
    hide Groups;
  }

  lemma Regroup<T>(a: seq<T>, b: seq<T>, c: seq<T>)
    ensures a + (b + c) == (a + b) + c
  {
  }

  /** A run of stores `*dest++ = ...` at the write cursor `o`. */
  method Put(dest: array<byte>, o: nat, s: seq<byte>, ghost done: seq<byte>, ghost was: seq<byte>)
    requires o == |done| && o + |s| <= dest.Length
    requires Filled(dest[..], was, done)
    modifies dest
    ensures Filled(dest[..], was, done + s)
  {
    for k := 0 to |s|
      invariant |was| == dest.Length && dest[..] == done + s[..k] + was[o + k..]
    {
      dest[o + k] := s[k];
    }
  }

  /** The two stores of the base16 loop. */
  method Base16Block(x: seq<byte>) returns (out: seq<byte>)
    requires |x| == 1
    ensures out == EncodeBlock(Base16, x)
  {
    var ch := x[0];
    out := [Base16.Letter((ch & 0xf0) >> 4), Base16.Letter(ch & 0x0f)];
  }

  /** The first fall-through switch of the base32 loop, on the block `x`. */
  method Base32Groups(x: seq<byte>) returns (v: seq<byte>)
    requires 1 <= |x| <= 5
    ensures v == Groups(Base32, x)
  {
    var dwBlockSize := |x|;
    var n1: byte, n2: byte, n3: byte, n4: byte, n5: byte, n6: byte, n7: byte, n8: byte := 0, 0, 0, 0, 0, 0, 0, 0;
    if dwBlockSize >= 5 {
      n8 := x[4] & 0x1f;
      n7 := (x[4] & 0xe0) >> 5;
    }
    assert n8 == At(x, 4) & 0x1f && n7 == At(x, 4) >> 5;
    if dwBlockSize >= 4 {
      n7 := n7 | ((x[3] & 0x03) << 3);
      n6 := (x[3] & 0x7c) >> 2;
      n5 := (x[3] & 0x80) >> 7;
    }
    assert n7 == ((At(x, 3) & 0x03) << 3) | (At(x, 4) >> 5) && n6 == (At(x, 3) & 0x7c) >> 2 && n5 == At(x, 3) >> 7;
    if dwBlockSize >= 3 {
      n5 := n5 | ((x[2] & 0x0f) << 1);
      n4 := (x[2] & 0xf0) >> 4;
    }
    assert n5 == ((At(x, 2) & 0x0f) << 1) | (At(x, 3) >> 7) && n4 == At(x, 2) >> 4;
    if dwBlockSize >= 2 {
      n4 := n4 | ((x[1] & 0x01) << 4);
      n3 := (x[1] & 0x3e) >> 1;
      n2 := (x[1] & 0xc0) >> 6;
    }
    assert n4 == ((At(x, 1) & 0x01) << 4) | (At(x, 2) >> 4) && n3 == (At(x, 1) & 0x3e) >> 1 && n2 == At(x, 1) >> 6;
    n2 := n2 | ((x[0] & 0x07) << 2);
    n1 := (x[0] & 0xf8) >> 3;
    v := [n1, n2, n3, n4, n5, n6, n7, n8];
  }

  /** The second switch, which pads, and the eight stores. */
  method Base32Block(x: seq<byte>) returns (out: seq<byte>)
    requires 1 <= |x| <= 5
    ensures out == EncodeBlock(Base32, x)
  {
    hide Groups, EncodeBlock, Letters;
    var v := Base32Groups(x);
    var dwBlockSize := |x|;
    var n3, n4, n5, n6, n7, n8 := v[2], v[3], v[4], v[5], v[6], v[7];
    if dwBlockSize <= 1 { n3 := 32; n4 := 32; }
    if dwBlockSize <= 2 { n5 := 32; }
    if dwBlockSize <= 3 { n6 := 32; n7 := 32; }
    if dwBlockSize <= 4 { n8 := 32; }
    var n := [v[0], v[1], n3, n4, n5, n6, n7, n8];
    BlockLetters(Base32, x, v, n);
    out := Letters(Base32, n);
  }

  /** The first fall-through switch of the base64 loop, on the block `x`. */
  method Base64Groups(x: seq<byte>) returns (v: seq<byte>)
    requires 1 <= |x| <= 3
    ensures v == Groups(Base64, x)
  {
    var dwBlockSize := |x|;
    var n1: byte, n2: byte, n3: byte, n4: byte := 0, 0, 0, 0;
    if dwBlockSize >= 3 {
      n4 := x[2] & 0x3f;
      n3 := (x[2] & 0xc0) >> 6;
    }
    assert n4 == At(x, 2) & 0x3f && n3 == At(x, 2) >> 6;
    if dwBlockSize >= 2 {
      n3 := n3 | ((x[1] & 0x0f) << 2);
      n2 := (x[1] & 0xf0) >> 4;
    }
    assert n3 == ((At(x, 1) & 0x0f) << 2) | (At(x, 2) >> 6) && n2 == At(x, 1) >> 4;
    n2 := n2 | ((x[0] & 0x03) << 4);
    n1 := (x[0] & 0xfc) >> 2;
    v := [n1, n2, n3, n4];
  }

  /** The second switch, which pads, and the four stores. */
  method Base64Block(x: seq<byte>) returns (out: seq<byte>)
    requires 1 <= |x| <= 3
    ensures out == EncodeBlock(Base64, x)
  {
    hide Groups, EncodeBlock, Letters;
    var v := Base64Groups(x);
    var dwBlockSize := |x|;
    var n3, n4 := v[2], v[3];
    if dwBlockSize <= 1 { n3 := 64; }
    if dwBlockSize <= 2 { n4 := 64; }
    var n := [v[0], v[1], n3, n4];
    BlockLetters(Base64, x, v, n);
    out := Letters(Base64, n);
  }

  /** The symbols of one block. */
  method EncodeTurn(base: Base, x: seq<byte>) returns (out: seq<byte>)
    requires 1 <= |x| <= base.Raw()
    ensures out == EncodeBlock(base, x)
  {
    hide EncodeBlock;
    match base
    case Base16 => out := Base16Block(x);
    case Base32 => out := Base32Block(x);
    case Base64 => out := Base64Block(x);
  }

  /** cyoBase16Encode, cyoBase32Encode and cyoBase64Encode: the loop the three have in common. */
  method EncodeInto(base: Base, dest: array<byte>, src: array<byte>, size: nat) returns (dwDestSize: nat)
    requires dest != src && size <= src.Length
    requires EncodeGetLength(base, size) <= dest.Length
    modifies dest
    ensures dwDestSize == |Encode(base, src[..size])|
    ensures dwDestSize < dest.Length
    ensures dest[..] == Encode(base, src[..size]) + [0] + old(dest[dwDestSize + 1..])
  {
    hide Encode, EncodeBlock, EncodeGetLength, Filled, Base.Coded;
    ghost var x, was := src[..size], dest[..];
    EncodeLength(base, x);
    NothingFilled(was);
    ghost var done: seq<byte> := [];
    var i: nat, dwSrcSize: nat := 0, size;
    dwDestSize := 0;
    assert x[0..] == x;
    while dwSrcSize >= 1
      invariant i + dwSrcSize == size && dwDestSize == |done|
      invariant done + Encode(base, x[i..]) == Encode(base, x)
      invariant Filled(dest[..], was, done)
    {
      var dwBlockSize := if dwSrcSize < base.Raw() then dwSrcSize else base.Raw();
      EncodeStep(base, x, i, dwBlockSize);
      assert x[i..i + dwBlockSize] == src[i..i + dwBlockSize];
      var out := EncodeTurn(base, src[i..i + dwBlockSize]);
      i := i + dwBlockSize;
      dwSrcSize := dwSrcSize - dwBlockSize;
      Put(dest, dwDestSize, out, done, was);
      Regroup(done, out, Encode(base, x[i..]));
      done := done + out;
      dwDestSize := dwDestSize + base.Coded();
    }
    EncodeEmpty(base);
    assert x[i..] == [] && done == Encode(base, x);
    Put(dest, dwDestSize, [0], done, was);
    FilledFront(dest[..], was, done + [0]);
  }
}
