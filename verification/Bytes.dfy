/** Bytes, machine integers and the failure types shared by the models. */
module Bytes {

  const U32_MAX: nat := 0xFFFF_FFFF
  const U64_MAX: nat := 0xFFFF_FFFF_FFFF_FFFF
  const U256_MAX: nat := 0xFFFF_FFFF_FFFF_FFFF_FFFF_FFFF_FFFF_FFFF_FFFF_FFFF_FFFF_FFFF_FFFF_FFFF_FFFF_FFFF

  type byte = b: int | 0 <= b < 256
  type u32 = x: int | 0 <= x <= U32_MAX
  type u64 = x: int | 0 <= x <= U64_MAX
  type u256 = x: int | 0 <= x <= U256_MAX

  datatype Option<+T> = None | Some(value: T)

  datatype Result<+T, +E> = Ok(value: T) | Err(error: E)
}

/** Big-endian numbers: the bytes of a number to a given width and back. */
module BigEndian {
  import opened Bytes

  function Pow256(width: nat): (p: nat)
    ensures p >= 1
  {
    if width == 0 then 1 else 256 * Pow256(width - 1)
  }

  function ToBytes(value: nat, width: nat): (s: seq<byte>)
    ensures |s| == width
  {
    if width == 0 then [] else ToBytes(value / 256, width - 1) + [value % 256]
  }

  /** The number a string of bytes spells; the empty string spells 0. */
  function FromBytes(s: seq<byte>): nat {
    if s == [] then 0 else 256 * FromBytes(s[..|s| - 1]) + s[|s| - 1]
  }

  lemma {:induction false} FromBytesBound(s: seq<byte>)
    ensures FromBytes(s) < Pow256(|s|)
  {
    if s != [] {
      FromBytesBound(s[..|s| - 1]);
    }
  }

  lemma {:induction false} FromToBytes(value: nat, width: nat)
    requires value < Pow256(width)
    ensures FromBytes(ToBytes(value, width)) == value
  {
    if width != 0 {
      FromToBytes(value / 256, width - 1);
      assert ToBytes(value, width)[..width - 1] == ToBytes(value / 256, width - 1);
    }
  }

  /** The bytes of two numbers side by side are the bytes of one. */
  lemma {:induction false} ToBytesConcat(high: nat, width: nat, low: nat, k: nat)
    requires low < Pow256(k)
    ensures ToBytes(high * Pow256(k) + low, width + k) == ToBytes(high, width) + ToBytes(low, k)
    decreases k
  {
    if k == 0 {
      assert high * Pow256(0) + low == high;
    } else {
      var rest := high * Pow256(k - 1) + low / 256;
      assert high * Pow256(k) == 256 * (high * Pow256(k - 1));
      assert high * Pow256(k) + low == 256 * rest + low % 256;
      assert (256 * rest + low % 256) / 256 == rest && (256 * rest + low % 256) % 256 == low % 256;
      ToBytesConcat(high, width, low / 256, k - 1);
    }
  }

  lemma DivMod(value: nat, d: nat)
    requires d > 0
    ensures value == value / d * d + value % d && 0 <= value % d < d
  {
  }

  lemma MiddleSlice(s: seq<byte>, high: seq<byte>, middle: seq<byte>, low: seq<byte>)
    requires s == high + middle + low
    ensures s[|high|..|high| + |middle|] == middle
  {
  }

  /** The number some bytes in the middle of a big-endian number spell. */
  lemma FromMiddleBytes(value: nat, width: nat, first: nat, end: nat)
    requires first <= end <= width
    ensures FromBytes(ToBytes(value, width)[first..end]) == value / Pow256(width - end) % Pow256(end - first)
  {
    hide Pow256, ToBytes, FromBytes;
    var tail, size := Pow256(width - end), Pow256(end - first);
    var upper: nat, low: nat := value / tail, value % tail;
    var high: nat, middle: nat := upper / size, upper % size;
    DivMod(value, tail);
    DivMod(upper, size);
    ToBytesConcat(upper, end, low, width - end);
    ToBytesConcat(high, first, middle, end - first);
    MiddleSlice(ToBytes(value, width), ToBytes(high, first), ToBytes(middle, end - first), ToBytes(low, width - end));
    FromToBytes(middle, end - first);
  }

  /** The widths of a 64-bit and a 256-bit number, and of a 256-bit number less its first byte. */
  lemma Widths()
    ensures Pow256(8) == U64_MAX + 1 && Pow256(32) == U256_MAX + 1 == 256 * Pow256(31)
  {
    assert Pow256(8) == 0x1_0000_0000_0000_0000 by { assert Pow256(4) == 0x1_0000_0000; }
    assert Pow256(16) == Pow256(8) * 0x1_0000_0000_0000_0000 by { assert Pow256(12) == Pow256(8) * 0x1_0000_0000; }
    assert Pow256(24) == Pow256(16) * 0x1_0000_0000_0000_0000 by { assert Pow256(20) == Pow256(16) * 0x1_0000_0000; }
    assert Pow256(28) == Pow256(24) * 0x1_0000_0000;
  }

  /** Subtracting from the largest number of a width complements every byte. */
  lemma {:induction false} ComplementBytes(value: nat, width: nat)
    requires value < Pow256(width)
    ensures forall k :: 0 <= k < width ==>
      ToBytes(Pow256(width) - 1 - value, width)[k] == 255 - ToBytes(value, width)[k]
  {
    if width > 0 {
      var rest := Pow256(width) - 1 - value;
      assert rest / 256 == Pow256(width - 1) - 1 - value / 256 && rest % 256 == 255 - value % 256;
      ComplementBytes(value / 256, width - 1);
    }
  }

  lemma {:induction false} ToFromBytes(s: seq<byte>)
    ensures ToBytes(FromBytes(s), |s|) == s
  {
    if s != [] {
      var front, last := s[..|s| - 1], s[|s| - 1];
      ToFromBytes(front);
      assert FromBytes(s) / 256 == FromBytes(front) && FromBytes(s) % 256 == last;
      assert s == front + [last];
    }
  }
}

/** Runs of consecutive numbers, and pieces that cover a run. */
module Ranges {

  function Range(from: nat, next: nat): (s: seq<nat>)
    requires from <= next
    ensures |s| == next - from && forall i :: 0 <= i < |s| ==> s[i] == from + i
  {
    seq(next - from, i requires 0 <= i < next - from => from + i)
  }

  /** The numbers `first` to `last`. */
  datatype Window = Window(first: nat, last: nat)

  /** The pieces follow each other without gap or overlap from `from` up to `next`. */
  predicate Tiles<T>(pieces: seq<T>, span: T -> Window, from: nat, next: nat) {
    if pieces == [] then from == next
    else
      var w := span(pieces[|pieces| - 1]);
      from <= w.first <= w.last && w.last + 1 == next && Tiles(pieces[..|pieces| - 1], span, from, w.first)
  }

  lemma {:induction false} TilesAscend<T>(pieces: seq<T>, span: T -> Window, from: nat, next: nat)
    requires Tiles(pieces, span, from, next)
    ensures from <= next
  {
  }

  lemma TilesExtend<T>(pieces: seq<T>, span: T -> Window, from: nat, next: nat, piece: T)
    requires Tiles(pieces, span, from, next) && span(piece).first == next <= span(piece).last
    ensures Tiles(pieces + [piece], span, from, span(piece).last + 1)
  {
    TilesAscend(pieces, span, from, next);
    assert (pieces + [piece])[..|pieces|] == pieces;
  }
}
