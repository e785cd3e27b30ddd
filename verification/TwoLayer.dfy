/** The two-level codec (faiss/Index2Layer.cpp): each vector is stored as its list number, on
    as few bytes as the number of lists allows, followed by a product-quantizer code. */
module TwoLayer {
  import opened Basics

  /** The quantizers, as functions of one vector. */
  datatype Codec = Codec(nlist: nat, codeSize1: nat, codeSize2: nat, codeSize: nat,
                         listOf: Vec -> nat, codeOf: Vec -> seq<byte>)
  {
    /** The sizes that the constructor sets. */
    ghost predicate HasSizes() {
      nlist > 0 && IsCodeSize(codeSize1, nlist) && codeSize == codeSize1 + codeSize2
    }

    ghost predicate Valid() {
      && HasSizes()
      && (forall x :: listOf(x) < nlist)
      && (forall x :: |codeOf(x)| == codeSize2)
    }

    /** The stored form of one vector. */
    function Row(x: Vec): (r: seq<byte>) {
      LittleEndian(listOf(x), codeSize1) + codeOf(x)
    }
  }

  // List numbers

  function Pow256(n: nat): nat {
    if n == 0 then 1 else 256 * Pow256(n - 1)
  }

  /** The least number of bytes that can hold every list number. */
  ghost predicate IsCodeSize(n: nat, nlist: nat) {
    Pow256(n) >= nlist && (n > 0 ==> Pow256(n - 1) < nlist)
  }

  function LittleEndian(v: nat, n: nat): (r: seq<byte>)
    ensures |r| == n
  {
    if n == 0 then [] else [v % 256] + LittleEndian(v / 256, n - 1)
  }

  /** Byte `i` is the one worth 256 to the power of `i`: the least significant byte comes first. */
  lemma {:induction false} LittleEndianAt(v: nat, n: nat, i: nat)
    requires i < n
    ensures Pow256(i) > 0 && LittleEndian(v, n)[i] == v / Pow256(i) % 256
  {
    if i > 0 {
      LittleEndianAt(v / 256, n - 1, i - 1);
      DivDiv(v, 256, Pow256(i - 1));
    }
  }

  function Value(code: seq<byte>): nat {
    if code == [] then 0 else code[0] + 256 * Value(code[1..])
  }

  /** Any number that fits is read back. */
  lemma {:induction false} ReadBack(v: nat, n: nat)
    requires v < Pow256(n)
    ensures Value(LittleEndian(v, n)) == v
  {
    if n > 0 {
      ReadBack(v / 256, n - 1);
      assert LittleEndian(v, n)[1..] == LittleEndian(v / 256, n - 1);
    }
  }

  lemma {:induction false} WriteBack(code: seq<byte>)
    ensures LittleEndian(Value(code), |code|) == code && Value(code) < Pow256(|code|)
  {
    if code != [] { WriteBack(code[1..]); }
  }

  lemma {:induction false} Pow256Grows(m: nat, n: nat)
    requires m <= n
    ensures Pow256(m) <= Pow256(n)
  {
    if m < n { Pow256Grows(m, n - 1); }
  }

  /** The constructor's search for the size of a list number; it tries up to 6 bytes. */
  method CodeSize1(nlist: nat) returns (r: Option<nat>)
    ensures r.Some? ==> IsCodeSize(r.value, nlist)
    ensures r.None? <==> nlist > 0x1_0000_0000_0000
  {
    assert Pow256(6) == 0x1_0000_0000_0000;
    var nbyte, size := 0, 1;
    while nbyte < 7
      invariant 0 <= nbyte <= 7 && size == Pow256(nbyte)
      invariant nbyte > 0 ==> Pow256(nbyte - 1) < nlist
    {
      if size >= nlist {
        Pow256Grows(nbyte, 6);
        return Some(nbyte);
      }
      nbyte, size := nbyte + 1, size * 256;
    }
    return None;
  }

  /** Bytes needed for the numbers up to `nl`. */
  function ByteCount(nl: nat): nat {
    if nl == 0 then 0 else 1 + ByteCount(nl / 256)
  }

  lemma {:induction false} ByteCountMeaning(nl: nat)
    ensures nl < Pow256(ByteCount(nl)) && (nl > 0 ==> Pow256(ByteCount(nl) - 1) <= nl)
  {
    if nl > 0 { ByteCountMeaning(nl / 256); }
  }

  /** The loop over the bytes of nlist - 1 writes as many bytes as the constructor reserved. */
  lemma ByteCountIsCodeSize(n: nat, nlist: nat)
    requires nlist > 0 && IsCodeSize(n, nlist)
    ensures ByteCount(nlist - 1) == n
  {
    var m := ByteCount(nlist - 1);
    ByteCountMeaning(nlist - 1);
    if m < n { Pow256Grows(m, n - 1); }
    if n < m { Pow256Grows(n, m - 1); }
  }

  /** The bytes from `off` on are those of `code`. */
  ghost predicate Stored(bytes: array<byte>, off: nat, code: seq<byte>)
    reads bytes
  {
    off + |code| <= bytes.Length && forall p :: off <= p < off + |code| ==> bytes[p] == code[p - off]
  }

  method EncodeListNo(nlist: nat, listNo: nat, bytes: array<byte>, off: nat)
    requires nlist > 0 && off + ByteCount(nlist - 1) <= bytes.Length
    modifies bytes
    ensures Stored(bytes, off, LittleEndian(listNo, ByteCount(nlist - 1)))
    ensures forall p :: 0 <= p < off ==> bytes[p] == old(bytes[p])
    ensures forall p :: off + ByteCount(nlist - 1) <= p < bytes.Length ==> bytes[p] == old(bytes[p])
  {
    ghost var code := LittleEndian(listNo, ByteCount(nlist - 1));
    var nl: nat, v: nat, p := nlist - 1, listNo, off;
    while nl > 0
      invariant off <= p && p + ByteCount(nl) == off + |code|
      invariant LittleEndian(v, ByteCount(nl)) == code[p - off..]
      invariant forall q :: off <= q < p ==> bytes[q] == code[q - off]
      invariant forall q :: 0 <= q < off || off + |code| <= q < bytes.Length ==> bytes[q] == old(bytes[q])
    {
      assert code[p - off..][0] == v % 256 && code[p - off..][1..] == code[p + 1 - off..];
      bytes[p] := v % 256;
      v, nl, p := v / 256, nl / 256, p + 1;
    }
  }

  method DecodeListNo(nlist: nat, bytes: array<byte>, off: nat) returns (r: Result<nat>)
    requires nlist > 0 && off + ByteCount(nlist - 1) <= bytes.Length
    ensures var v := Value(bytes[off..off + ByteCount(nlist - 1)]);
            r == if v < nlist then Ok(v) else Error("list number")
  {
    ghost var n := ByteCount(nlist - 1);
    var nl: nat, listNo: nat, unit: nat, p := nlist - 1, 0, 1, off;
    while nl > 0
      invariant off <= p && p + ByteCount(nl) == off + n
      invariant Value(bytes[off..off + n]) == listNo + unit * Value(bytes[p..off + n])
    {
      DecodeStep(listNo, unit, bytes[p..off + n]);
      assert bytes[p..off + n][0] == bytes[p] && bytes[p..off + n][1..] == bytes[p + 1..off + n];
      listNo, unit := listNo + bytes[p] * unit, unit * 256;
      nl, p := nl / 256, p + 1;
    }
    assert bytes[p..off + n] == [];
    r := if listNo < nlist then Ok(listNo) else Error("list number");
  }

  lemma DecodeStep(listNo: nat, unit: nat, code: seq<byte>)
    requires code != []
    ensures code[0] * unit >= 0
    ensures listNo + unit * Value(code) == listNo + code[0] * unit + unit * 256 * Value(code[1..])
  {
    Expand(unit, code[0], Value(code[1..]));
  }

  lemma Expand(u: nat, b: nat, v: nat)
    ensures b * u >= 0 && u * (b + 256 * v) == b * u + u * 256 * v
  {
    assert u * (b + 256 * v) == u * b + u * (256 * v);
    assert u * (256 * v) == u * 256 * v;
  }

  // Rows

  /** The stored form of a batch. */
  function Encoded(codec: Codec, x: seq<Vec>): seq<byte> {
    if x == [] then [] else codec.Row(x[0]) + Encoded(codec, x[1..])
  }

  /** The product-quantizer codes of a batch alone. */
  function Packed(codec: Codec, x: seq<Vec>): seq<byte> {
    if x == [] then [] else codec.codeOf(x[0]) + Packed(codec, x[1..])
  }

  lemma {:induction false} EncodedLength(codec: Codec, x: seq<Vec>)
    requires codec.Valid()
    ensures |Encoded(codec, x)| == |x| * codec.codeSize
  {
    if x != [] {
      EncodedLength(codec, x[1..]);
      assert |codec.codeOf(x[0])| == codec.codeSize2;
      var n, c := |x|, codec.codeSize;
      assert n * c == c + (n - 1) * c;
    }
  }

  lemma {:induction false} PackedLength(codec: Codec, x: seq<Vec>)
    requires codec.Valid()
    ensures |Packed(codec, x)| == |x| * codec.codeSize2
  {
    if x != [] {
      PackedLength(codec, x[1..]);
      assert |codec.codeOf(x[0])| == codec.codeSize2;
      var n, c := |x|, codec.codeSize2;
      assert n * c == c + (n - 1) * c;
    }
  }

  lemma {:induction false} EncodedConcat(codec: Codec, x: seq<Vec>, y: seq<Vec>)
    ensures Encoded(codec, x + y) == Encoded(codec, x) + Encoded(codec, y)
  {
    if x == [] {
      assert x + y == y;
    } else {
      var r := codec.Row(x[0]);
      assert (x + y)[0] == x[0] && (x + y)[1..] == x[1..] + y;
      EncodedConcat(codec, x[1..], y);
      Associate(r, Encoded(codec, x[1..]), Encoded(codec, y));
    }
  }

  // Moving bytes

  /** Copy `n` bytes; source and destination may overlap. */
  method Memmove(bytes: array<byte>, dst: nat, src: nat, n: nat)
    requires dst + n <= bytes.Length && src + n <= bytes.Length
    modifies bytes
    ensures forall p :: dst <= p < dst + n ==> bytes[p] == old(bytes[p - dst + src])
    ensures forall p :: 0 <= p < dst || dst + n <= p < bytes.Length ==> bytes[p] == old(bytes[p])
  {
    if dst > src {
      var j := n;
      while j > 0
        invariant 0 <= j <= n
        invariant forall p :: 0 <= p < dst + j || dst + n <= p < bytes.Length ==> bytes[p] == old(bytes[p])
        invariant forall p :: dst + j <= p < dst + n ==> bytes[p] == old(bytes[p - dst + src])
      {
        j := j - 1;
        bytes[dst + j] := bytes[src + j];
      }
    } else {
      var j := 0;
      while j < n
        invariant 0 <= j <= n
        invariant forall p :: 0 <= p < dst || dst + j <= p < bytes.Length ==> bytes[p] == old(bytes[p])
        invariant forall p :: dst <= p < dst + j ==> bytes[p] == old(bytes[p - dst + src])
      {
        bytes[dst + j] := bytes[src + j];
        j := j + 1;
      }
    }
  }

  method CopyIn(code: seq<byte>, bytes: array<byte>, off: nat)
    requires off + |code| <= bytes.Length
    modifies bytes
    ensures Stored(bytes, off, code)
    ensures forall p :: 0 <= p < off || off + |code| <= p < bytes.Length ==> bytes[p] == old(bytes[p])
  {
    var j := 0;
    while j < |code|
      invariant 0 <= j <= |code|
      invariant forall p :: off <= p < off + j ==> bytes[p] == code[p - off]
      invariant forall p :: 0 <= p < off || off + j <= p < bytes.Length ==> bytes[p] == old(bytes[p])
    {
      bytes[off + j] := code[j];
      j := j + 1;
    }
  }

  // Encoding a batch

  /** Row `i` starts at i times the width, and the next row `width` further. */
  lemma RowOffsets(i: nat, n: nat, width: nat)
    requires i < n
    ensures 0 <= i * width && (i + 1) * width == i * width + width <= n * width
  {
    MulMonotone(width, i + 1, n);
  }

  lemma BothOffsets(i: nat, n: nat, c2: nat, cs: nat)
    requires i < n && c2 <= cs
    ensures 0 <= i * c2 <= i * cs && (i + 1) * c2 == i * c2 + c2 <= n * c2
    ensures (i + 1) * cs == i * cs + cs <= n * cs
  {
    RowOffsets(i, n, c2);
    RowOffsets(i, n, cs);
    MulMonotone(i, c2, cs);
  }

  lemma {:induction false} EncodedRow(codec: Codec, x: seq<Vec>, i: nat, j: nat)
    requires codec.Valid() && i < |x| && j < codec.codeSize
    ensures |Encoded(codec, x)| == |x| * codec.codeSize && 0 <= i * codec.codeSize + j < |Encoded(codec, x)|
    ensures |codec.Row(x[i])| == codec.codeSize
    ensures Encoded(codec, x)[i * codec.codeSize + j] == codec.Row(x[i])[j]
  {
    var cs := codec.codeSize;
    EncodedLength(codec, x);
    RowOffsets(i, |x|, cs);
    assert |codec.codeOf(x[0])| == codec.codeSize2 && |codec.codeOf(x[i])| == codec.codeSize2;
    if i > 0 {
      EncodedRow(codec, x[1..], i - 1, j);
      RowOffsets(i - 1, |x|, cs);
    }
  }

  /** The bytes of row `i`: first those of the list number, the least significant one first, then the code. */
  lemma EncodedBytes(codec: Codec, x: seq<Vec>, i: nat, j: nat)
    requires codec.Valid() && i < |x| && j < codec.codeSize1 + codec.codeSize2
    ensures |Encoded(codec, x)| == |x| * codec.codeSize && 0 <= i * codec.codeSize + j < |Encoded(codec, x)|
    ensures Pow256(j) > 0 && |codec.codeOf(x[i])| == codec.codeSize2
    ensures Encoded(codec, x)[i * codec.codeSize + j]
            == if j < codec.codeSize1 then codec.listOf(x[i]) / Pow256(j) % 256
               else codec.codeOf(x[i])[j - codec.codeSize1]
  {
    EncodedRow(codec, x, i, j);
    assert |codec.codeOf(x[i])| == codec.codeSize2;
    LittleEndianAt(0, j + 1, j);
    if j < codec.codeSize1 { LittleEndianAt(codec.listOf(x[i]), codec.codeSize1, j); }
  }

  lemma {:induction false} PackedRow(codec: Codec, x: seq<Vec>, i: nat, j: nat)
    requires codec.Valid() && i < |x| && j < codec.codeSize2
    ensures |Packed(codec, x)| == |x| * codec.codeSize2 && 0 <= i * codec.codeSize2 + j < |Packed(codec, x)|
    ensures |codec.codeOf(x[i])| == codec.codeSize2
    ensures Packed(codec, x)[i * codec.codeSize2 + j] == codec.codeOf(x[i])[j]
  {
    PackedLength(codec, x);
    RowOffsets(i, |x|, codec.codeSize2);
    assert |codec.codeOf(x[0])| == codec.codeSize2 && |codec.codeOf(x[i])| == codec.codeSize2;
    if i > 0 {
      PackedRow(codec, x[1..], i - 1, j);
      RowOffsets(i - 1, |x|, codec.codeSize2);
    }
  }

  /** The product quantizer writes the codes of a batch one after the other. */
  method ComputeCodes(codec: Codec, x: seq<Vec>, bytes: array<byte>, off: nat)
    requires codec.Valid() && off + |x| * codec.codeSize2 <= bytes.Length
    modifies bytes
    ensures Stored(bytes, off, Packed(codec, x))
    ensures forall p :: 0 <= p < off || off + |x| * codec.codeSize2 <= p < bytes.Length ==> bytes[p] == old(bytes[p])
  {
    ghost var packed := Packed(codec, x);
    PackedLength(codec, x);
    var p, i := off, 0;
    while i < |x|
      invariant 0 <= i <= |x| && off <= p && p + |Packed(codec, x[i..])| == off + |packed|
      invariant Packed(codec, x[i..]) == packed[p - off..]
      invariant forall q :: off <= q < p ==> bytes[q] == packed[q - off]
      invariant forall q :: 0 <= q < off || p <= q < bytes.Length ==> bytes[q] == old(bytes[q])
    {
      var code := codec.codeOf(x[i]);
      assert x[i..][1..] == x[i + 1..] && x[i..][0] == x[i];
      assert packed[p - off..][..|code|] == code && packed[p - off..][|code|..] == packed[p + |code| - off..];
      CopyIn(code, bytes, p);
      p, i := p + |code|, i + 1;
    }
  }

  /** Move the code at `src` to its place in the row at `row` and write the list number in
      front of it. */
  method WidenRow(codec: Codec, v: Vec, bytes: array<byte>, row: nat, src: nat)
    requires codec.Valid() && src <= row && row + codec.codeSize <= bytes.Length
    requires Stored(bytes, src, codec.codeOf(v))
    modifies bytes
    ensures Stored(bytes, row, codec.Row(v))
    ensures forall p :: 0 <= p < row || row + codec.codeSize <= p < bytes.Length ==> bytes[p] == old(bytes[p])
  {
    assert |codec.codeOf(v)| == codec.codeSize2;
    ByteCountIsCodeSize(codec.codeSize1, codec.nlist);
    Memmove(bytes, row + codec.codeSize1, src, codec.codeSize2);
    EncodeListNo(codec.nlist, codec.listOf(v), bytes, row);
  }

  /** The rows from `i` on are in place, the codes before them still side by side at the front. */
  ghost predicate Widened(codec: Codec, x: seq<Vec>, i: nat, bytes: array<byte>, off: nat)
    reads bytes
  {
    var src, row, end := off + i * codec.codeSize2, off + i * codec.codeSize, off + |x| * codec.codeSize;
    && codec.Valid() && i <= |x| && off <= src <= row <= end <= bytes.Length
    && |Packed(codec, x)| == |x| * codec.codeSize2 && |Encoded(codec, x)| == end - off
    && src - off <= |Packed(codec, x)|
    && (forall p :: off <= p < src ==> bytes[p] == Packed(codec, x)[p - off])
    && (forall p :: row <= p < end ==> bytes[p] == Encoded(codec, x)[p - off])
  }

  /** Widen row `i`: nothing that has not moved yet is overwritten. */
  method WidenNext(codec: Codec, x: seq<Vec>, i: nat, bytes: array<byte>, off: nat)
    requires i < |x| && Widened(codec, x, i + 1, bytes, off)
    modifies bytes
    ensures Widened(codec, x, i, bytes, off)
    ensures forall p :: 0 <= p < off || off + |x| * codec.codeSize <= p < bytes.Length ==> bytes[p] == old(bytes[p])
  {
    BothOffsets(i, |x|, codec.codeSize2, codec.codeSize);
    var row, src := off + i * codec.codeSize, off + i * codec.codeSize2;
    CodeIsThere(codec, x, i, bytes, off, src);
    WidenRow(codec, x[i], bytes, row, src);
    RowIsRight(codec, x, i, bytes, off, row);
  }

  /** Encode one block: the codes first, then, from the last row down, every code moves to its row. */
  method EncodeBlock(codec: Codec, x: seq<Vec>, bytes: array<byte>, off: nat)
    requires codec.Valid() && off + |x| * codec.codeSize <= bytes.Length
    modifies bytes
    ensures Stored(bytes, off, Encoded(codec, x)) && |Encoded(codec, x)| == |x| * codec.codeSize
    ensures forall p :: 0 <= p < off || off + |x| * codec.codeSize <= p < bytes.Length ==> bytes[p] == old(bytes[p])
  {
    EncodedLength(codec, x);
    PackedLength(codec, x);
    MulMonotone(|x|, codec.codeSize2, codec.codeSize);
    ComputeCodes(codec, x, bytes, off);
    var i := |x|;
    while i > 0
      invariant 0 <= i <= |x| && Widened(codec, x, i, bytes, off)
      invariant forall p :: 0 <= p < off || off + |x| * codec.codeSize <= p < bytes.Length ==> bytes[p] == old(bytes[p])
    {
      i := i - 1;
      WidenNext(codec, x, i, bytes, off);
    }
  }

  lemma CodeIsThere(codec: Codec, x: seq<Vec>, i: nat, bytes: array<byte>, off: nat, src: nat)
    requires codec.Valid() && i < |x| && src == off + i * codec.codeSize2 && src + codec.codeSize2 <= bytes.Length
    requires src + codec.codeSize2 - off <= |Packed(codec, x)|
    requires forall p :: off <= p < src + codec.codeSize2 ==> bytes[p] == Packed(codec, x)[p - off]
    ensures Stored(bytes, src, codec.codeOf(x[i]))
  {
    assert |codec.codeOf(x[i])| == codec.codeSize2;
    forall p | src <= p < src + codec.codeSize2 ensures bytes[p] == codec.codeOf(x[i])[p - src] {
      PackedRow(codec, x, i, p - src);
    }
  }

  lemma RowIsRight(codec: Codec, x: seq<Vec>, i: nat, bytes: array<byte>, off: nat, row: nat)
    requires codec.Valid() && i < |x| && row == off + i * codec.codeSize
    requires Stored(bytes, row, codec.Row(x[i]))
    ensures |Encoded(codec, x)| == |x| * codec.codeSize && row + codec.codeSize <= off + |Encoded(codec, x)|
    ensures row + codec.codeSize <= bytes.Length
    ensures forall p :: row <= p < row + codec.codeSize ==> bytes[p] == Encoded(codec, x)[p - off]
  {
    EncodedLength(codec, x);
    RowOffsets(i, |x|, codec.codeSize);
    assert |codec.codeOf(x[i])| == codec.codeSize2;
    forall p | row <= p < row + codec.codeSize ensures bytes[p] == Encoded(codec, x)[p - off] {
      EncodedRow(codec, x, i, p - row);
    }
  }

  /** Encode a batch, block by block when it is longer than the block size `bs`. */
  method SaEncode(codec: Codec, isTrained: bool, bs: nat, x: seq<Vec>, bytes: array<byte>, off: nat)
    returns (r: Result<()>)
    requires codec.Valid() && bs > 0 && off + |x| * codec.codeSize <= bytes.Length
    modifies bytes
    ensures r.Ok? <==> isTrained
    ensures r.Ok? ==> Stored(bytes, off, Encoded(codec, x)) && |Encoded(codec, x)| == |x| * codec.codeSize
    ensures forall p :: 0 <= p < off || off + |x| * codec.codeSize <= p < bytes.Length ==> bytes[p] == old(bytes[p])
    decreases |x|
  {
    if !isTrained {
      return Error("not trained");
    }
    if |x| > bs {
      ghost var encoded, end := Encoded(codec, x), off + |x| * codec.codeSize;
      EncodedLength(codec, x);
      var i0 := 0;
      ghost var at := off;
      while i0 < |x|
        invariant 0 <= i0 <= |x| && off <= at == off + i0 * codec.codeSize <= end
        invariant forall p :: 0 <= p < off || end <= p < bytes.Length ==> bytes[p] == old(bytes[p])
        invariant forall p :: off <= p < at ==> bytes[p] == encoded[p - off]
      {
        var i1 := if i0 + bs < |x| then i0 + bs else |x|;
        BlockOffsets(codec, x, i0, i1);
        ghost var block := Encoded(codec, x[i0..i1]);
        r := SaEncode(codec, isTrained, bs, x[i0..i1], bytes, off + i0 * codec.codeSize);
        assert block == encoded[at - off..at - off + |block|];
        at := at + |block|;
        i0 := i1;
      }
      r := Ok(());
    } else {
      EncodeBlock(codec, x, bytes, off);
      r := Ok(());
    }
  }

  /** A block's encoding sits at its place in the encoding of the batch. */
  lemma BlockOffsets(codec: Codec, x: seq<Vec>, i0: nat, i1: nat)
    requires codec.Valid() && i0 <= i1 <= |x|
    ensures var cs := codec.codeSize;
            && |Encoded(codec, x)| == |x| * cs && |Encoded(codec, x[i0..i1])| == (i1 - i0) * cs
            && 0 <= i0 * cs && i0 * cs + (i1 - i0) * cs == i1 * cs <= |x| * cs
            && Encoded(codec, x[i0..i1]) == Encoded(codec, x)[i0 * cs..i1 * cs]
  {
    var cs := codec.codeSize;
    var a, b, c := x[..i0], x[i0..i1], x[i1..];
    assert x == a + (b + c);
    EncodedConcat(codec, a, b + c);
    EncodedConcat(codec, b, c);
    EncodedLength(codec, a);
    EncodedLength(codec, b);
    EncodedLength(codec, x);
    MulMonotone(cs, i1, |x|);
    assert i0 * cs + (i1 - i0) * cs == i1 * cs;
    CutMiddle(Encoded(codec, a), Encoded(codec, b), Encoded(codec, c));
  }

  // Reading back

  /** What a stored row stands for. */
  lemma RowReadsBack(codec: Codec, v: Vec)
    requires codec.Valid()
    ensures Value(codec.Row(v)[..codec.codeSize1]) == codec.listOf(v)
    ensures codec.Row(v)[codec.codeSize1..] == codec.codeOf(v) && |codec.Row(v)| == codec.codeSize
  {
    assert |codec.codeOf(v)| == codec.codeSize2;
    assert codec.Row(v)[..codec.codeSize1] == LittleEndian(codec.listOf(v), codec.codeSize1);
    ReadBack(codec.listOf(v), codec.codeSize1);
  }

  /** Different (list, code) pairs have different stored forms. */
  lemma RowsAreDistinct(codec: Codec, v: Vec, w: Vec)
    requires codec.Valid() && codec.Row(v) == codec.Row(w)
    ensures codec.listOf(v) == codec.listOf(w) && codec.codeOf(v) == codec.codeOf(w)
  {
    RowReadsBack(codec, v);
    RowReadsBack(codec, w);
  }

  /** The list number and the code of the row stored at `p`. */
  function ListFrom(codec: Codec, bytes: seq<byte>, p: nat): nat
    requires codec.codeSize1 <= codec.codeSize && p + codec.codeSize <= |bytes|
  {
    Value(bytes[p..p + codec.codeSize1])
  }

  function CodeFrom(codec: Codec, bytes: seq<byte>, p: nat): seq<byte>
    requires codec.codeSize1 <= codec.codeSize && p + codec.codeSize <= |bytes|
  {
    bytes[p + codec.codeSize1..p + codec.codeSize]
  }

  /** The list number and the code of row `i` of some stored vectors. */
  function ListAt(codec: Codec, bytes: seq<byte>, i: nat): nat
    requires codec.codeSize1 <= codec.codeSize
    requires 0 <= i * codec.codeSize && i * codec.codeSize + codec.codeSize <= |bytes|
  {
    ListFrom(codec, bytes, i * codec.codeSize)
  }

  function CodeAt(codec: Codec, bytes: seq<byte>, i: nat): seq<byte>
    requires codec.codeSize1 <= codec.codeSize
    requires 0 <= i * codec.codeSize && i * codec.codeSize + codec.codeSize <= |bytes|
  {
    CodeFrom(codec, bytes, i * codec.codeSize)
  }

  lemma RowIsStored(codec: Codec, x: seq<Vec>, i: nat, bytes: array<byte>)
    requires codec.Valid() && i < |x| && Stored(bytes, 0, Encoded(codec, x))
    ensures 0 <= i * codec.codeSize && Stored(bytes, i * codec.codeSize, codec.Row(x[i]))
    ensures |codec.Row(x[i])| == codec.codeSize
  {
    var cs := codec.codeSize;
    EncodedLength(codec, x);
    RowOffsets(i, |x|, cs);
    assert |codec.codeOf(x[i])| == codec.codeSize2;
    forall p | i * cs <= p < i * cs + cs ensures bytes[p] == codec.Row(x[i])[p - i * cs] {
      EncodedRow(codec, x, i, p - i * cs);
    }
  }

  /** Encoded vectors are read back as they were encoded. */
  lemma EncodedReadsBack(codec: Codec, x: seq<Vec>, i: nat, bytes: array<byte>)
    requires codec.Valid() && i < |x| && Stored(bytes, 0, Encoded(codec, x))
    ensures 0 <= i * codec.codeSize && i * codec.codeSize + codec.codeSize <= bytes.Length
    ensures ListAt(codec, bytes[..], i) == codec.listOf(x[i])
    ensures CodeAt(codec, bytes[..], i) == codec.codeOf(x[i])
  {
    RowIsStored(codec, x, i, bytes);
    var p := i * codec.codeSize;
    StoredRowReadsBack(codec, x[i], bytes, p);
  }

  lemma StoredRowReadsBack(codec: Codec, v: Vec, bytes: array<byte>, p: nat)
    requires codec.Valid() && Stored(bytes, p, codec.Row(v))
    ensures p + codec.codeSize <= bytes.Length
    ensures ListFrom(codec, bytes[..], p) == codec.listOf(v)
    ensures CodeFrom(codec, bytes[..], p) == codec.codeOf(v)
  {
    RowReadsBack(codec, v);
    StoredParts(bytes, p, codec.Row(v), codec.codeSize1);
  }

  lemma StoredParts(bytes: array<byte>, p: nat, row: seq<byte>, m: nat)
    requires Stored(bytes, p, row) && m <= |row|
    ensures bytes[..][p..p + m] == row[..m] && bytes[..][p + m..p + |row|] == row[m..]
  {
  }

  function Moved(v: Vec, shift: Vec): (r: Vec)
    requires |v| == |shift|
    ensures |r| == |v| && forall j :: 0 <= j < |v| ==> r[j] == v[j] + shift[j]
  {
    seq(|v|, j requires 0 <= j < |v| => v[j] + shift[j])
  }

  /** Decode the row stored at `p`: the vector of the code moved by the centroid of the list. */
  method DecodeRow(codec: Codec, bytes: array<byte>, p: nat, decode: seq<byte> -> Vec, centroid: nat -> Vec, d: nat)
    returns (r: Result<Vec>)
    requires codec.HasSizes() && p + codec.codeSize <= bytes.Length
    requires (forall code :: |decode(code)| == d) && forall l :: |centroid(l)| == d
    ensures r.Ok? <==> ListFrom(codec, bytes[..], p) < codec.nlist
    ensures r.Ok? ==> r.value == Moved(decode(CodeFrom(codec, bytes[..], p)), centroid(ListFrom(codec, bytes[..], p)))
  {
    ByteCountIsCodeSize(codec.codeSize1, codec.nlist);
    var listNo := DecodeListNo(codec.nlist, bytes, p);
    assert bytes[p..p + codec.codeSize1] == bytes[..][p..p + codec.codeSize1];
    if listNo.Error? {
      return Error(listNo.message);
    }
    var code := bytes[..][p + codec.codeSize1..p + codec.codeSize];
    r := Ok(Moved(decode(code), centroid(listNo.value)));
  }

  /** Decode `n` stored vectors. */
  method SaDecode(codec: Codec, n: nat, bytes: array<byte>, decode: seq<byte> -> Vec, centroid: nat -> Vec, d: nat)
    returns (r: Result<seq<Vec>>)
    requires codec.HasSizes()
    requires n * codec.codeSize <= bytes.Length
    requires (forall code :: |decode(code)| == d) && forall l :: |centroid(l)| == d
    ensures forall i :: 0 <= i < n ==> 0 <= i * codec.codeSize && i * codec.codeSize + codec.codeSize <= bytes.Length
    ensures r.Ok? <==> forall i :: 0 <= i < n ==> ListAt(codec, bytes[..], i) < codec.nlist
    ensures r.Ok? ==> |r.value| == n
    ensures r.Ok? ==> forall i :: 0 <= i < n ==>
              r.value[i] == Moved(decode(CodeAt(codec, bytes[..], i)), centroid(ListAt(codec, bytes[..], i)))
  {
    var cs := codec.codeSize;
    ghost var stored := bytes[..];
    forall i | 0 <= i < n ensures 0 <= i * cs && i * cs + cs <= bytes.Length { RowOffsets(i, n, cs); }
    var out: seq<Vec>, i := [], 0;
    while i < n
      invariant 0 <= i <= n && |out| == i
      invariant forall h :: 0 <= h < i ==>
                  && ListAt(codec, stored, h) < codec.nlist
                  && out[h] == Moved(decode(CodeAt(codec, stored, h)), centroid(ListAt(codec, stored, h)))
    {
      var row := DecodeRow(codec, bytes, i * cs, decode, centroid, d);
      if row.Error? {
        assert ListAt(codec, stored, i) >= codec.nlist;
        return Error(row.message);
      }
      out := out + [row.value];
      i := i + 1;
    }
    r := Ok(out);
  }

  /** An inverted file: the entries (identifier, code) of each list. */
  class IVFPQ {
    const nlist: nat
    const codeSize: nat
    var ntotal: nat
    var lists: seq<seq<(nat, seq<byte>)>>

    constructor (nlist: nat, codeSize: nat)
      ensures this.nlist == nlist && this.codeSize == codeSize && ntotal == 0
      ensures |lists| == nlist && forall l :: 0 <= l < nlist ==> lists[l] == []
    {
      this.nlist, this.codeSize, this.ntotal := nlist, codeSize, 0;
      this.lists := seq(nlist, _ => []);
    }

    method AddEntry(key: nat, id: nat, code: seq<byte>)
      requires key < |lists|
      modifies this`lists
      ensures lists == old(lists)[key := old(lists)[key] + [(id, code)]]
    {
      lists := lists[key := lists[key] + [(id, code)]];
    }
  }

  /** The vectors of list `l` among the first `n`, in order, each with its number and code. */
  ghost function Entries(codec: Codec, x: seq<Vec>, n: nat, l: nat): seq<(nat, seq<byte>)>
    requires n <= |x|
  {
    if n == 0 then []
    else Entries(codec, x, n - 1, l)
         + if codec.listOf(x[n - 1]) == l then [(n - 1, codec.codeOf(x[n - 1]))] else []
  }

  /** Exactly the vectors of the list are in it, each once, in the order of their numbers. */
  lemma {:induction false} EntriesAre(codec: Codec, x: seq<Vec>, n: nat, l: nat)
    requires n <= |x|
    ensures forall id: nat, code: seq<byte> :: (id, code) in Entries(codec, x, n, l) <==>
              id < n && codec.listOf(x[id]) == l && code == codec.codeOf(x[id])
    ensures forall a, b :: 0 <= a < b < |Entries(codec, x, n, l)| ==>
              Entries(codec, x, n, l)[a].0 < Entries(codec, x, n, l)[b].0
  {
    if n > 0 {
      var before, now := Entries(codec, x, n - 1, l), Entries(codec, x, n, l);
      EntriesAre(codec, x, n - 1, l);
      forall a | 0 <= a < |before| ensures before[a].0 < n - 1 {
        assert (before[a].0, before[a].1) in before;
      }
      assert forall id: nat, code: seq<byte> :: (id, code) in now <==>
               (id, code) in before || (codec.listOf(x[n - 1]) == l && (id, code) == (n - 1, codec.codeOf(x[n - 1])));
    }
  }

  function Sizes<T>(lists: seq<seq<T>>): (r: seq<nat>)
    ensures |r| == |lists| && forall l :: 0 <= l < |r| ==> r[l] == |lists[l]|
  {
    seq(|lists|, l requires 0 <= l < |lists| => |lists[l]|)
  }

  lemma {:induction false} SumStep(s: seq<nat>, i: nat)
    requires i < |s|
    ensures Sum(s[i := s[i] + 1]) == Sum(s) + 1
  {
    if i == 0 {
      assert s[0 := s[0] + 1][1..] == s[1..];
    } else {
      SumStep(s[1..], i - 1);
      assert s[i := s[i] + 1][1..] == s[1..][i - 1 := s[i] + 1];
    }
  }

  lemma {:induction false} SumOfZeros(s: seq<nat>)
    requires forall i :: 0 <= i < |s| ==> s[i] == 0
    ensures Sum(s) == 0
  {
    if s != [] { SumOfZeros(s[1..]); }
  }

  /** Every vector is in one list. */
  lemma {:induction false} EntriesAddUp(codec: Codec, x: seq<Vec>, n: nat, lists: seq<seq<(nat, seq<byte>)>>)
    requires codec.Valid() && n <= |x| && |lists| == codec.nlist
    requires forall l :: 0 <= l < |lists| ==> lists[l] == Entries(codec, x, n, l)
    ensures Sum(Sizes(lists)) == n
  {
    if n == 0 {
      SumOfZeros(Sizes(lists));
    } else {
      var before := seq(|lists|, l requires 0 <= l < |lists| => Entries(codec, x, n - 1, l));
      EntriesAddUp(codec, x, n - 1, before);
      OneEntryMore(before, lists, codec.listOf(x[n - 1]), (n - 1, codec.codeOf(x[n - 1])));
    }
  }

  lemma OneEntryMore<T>(before: seq<seq<T>>, now: seq<seq<T>>, key: nat, entry: T)
    requires key < |before| == |now|
    requires forall l :: 0 <= l < |now| ==> now[l] == before[l] + if l == key then [entry] else []
    ensures Sum(Sizes(now)) == Sum(Sizes(before)) + 1
  {
    SumStep(Sizes(before), key);
    assert Sizes(now) == Sizes(before)[key := Sizes(before)[key] + 1];
  }

  /** Read the list number and the code of row `i`, which starts at `rp`. */
  method ReadEntry(codec: Codec, x: seq<Vec>, i: nat, bytes: array<byte>, rp: nat)
    returns (key: nat, code: seq<byte>, next: nat)
    requires codec.Valid() && i < |x| && Stored(bytes, 0, Encoded(codec, x)) && rp == i * codec.codeSize
    ensures key == codec.listOf(x[i]) && code == codec.codeOf(x[i]) && next == (i + 1) * codec.codeSize
  {
    RowIsStored(codec, x, i, bytes);
    StoredRowReadsBack(codec, x[i], bytes, rp);
    key := Value(bytes[..][rp..rp + codec.codeSize1]);
    next := rp + codec.codeSize1;
    code := bytes[..][next..next + codec.codeSize2];
    next := next + codec.codeSize2;
  }

  /** Hand the stored vectors over to an inverted file. */
  method TransferToIVFPQ(codec: Codec, x: seq<Vec>, bytes: array<byte>, other: IVFPQ) returns (r: Result<()>)
    requires codec.Valid() && Stored(bytes, 0, Encoded(codec, x))
    requires |other.lists| == other.nlist
    requires other.ntotal == 0 ==> forall l :: 0 <= l < other.nlist ==> other.lists[l] == []
    modifies other
    ensures r.Ok? <==> other.nlist == codec.nlist && other.codeSize == codec.codeSize2 && old(other.ntotal) == 0
    ensures r.Ok? ==> other.ntotal == |x| && |other.lists| == other.nlist
    // List l holds exactly its vectors, each with its number and its code, in order.
    ensures r.Ok? ==> forall l, id: nat, code: seq<byte> :: 0 <= l < other.nlist ==>
              ((id, code) in other.lists[l] <==> id < |x| && codec.listOf(x[id]) == l && code == codec.codeOf(x[id]))
    ensures r.Ok? ==> forall l, a, b :: 0 <= l < other.nlist && 0 <= a < b < |other.lists[l]| ==>
              other.lists[l][a].0 < other.lists[l][b].0
    ensures r.Ok? ==> Sum(Sizes(other.lists)) == |x|
    ensures r.Error? ==> other.lists == old(other.lists) && other.ntotal == old(other.ntotal)
  {
    if !(other.nlist == codec.nlist && other.codeSize == codec.codeSize2 && other.ntotal == 0) {
      return Error("incompatible index");
    }
    var rp, i: nat := 0, 0;
    while i < |x|
      invariant 0 <= i <= |x| && rp == i * codec.codeSize
      invariant |other.lists| == other.nlist && other.ntotal == 0
      invariant forall l :: 0 <= l < other.nlist ==> other.lists[l] == Entries(codec, x, i, l)
    {
      var key, code;
      key, code, rp := ReadEntry(codec, x, i, bytes, rp);
      other.AddEntry(key, i, code);
      i := i + 1;
    }
    forall l: nat | l < other.nlist { EntriesAre(codec, x, |x|, l); }
    EntriesAddUp(codec, x, |x|, other.lists);
    other.ntotal := |x|;
    r := Ok(());
  }
}
