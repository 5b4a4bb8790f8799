// md5.cpp: the streaming object, over any block function.
module Md5 {
  import opened BlockHash

  /** MD5::PADDING. */
  function PaddingBlock(): seq<Byte> { [0x80] + Zeros(63) }

  class MD5<S(!new)> {
    const algorithm: Algorithm<S>
    var state: S
    var countLow: nat       // number of bits modulo 2^64, low-order word first
    var countHigh: nat
    const buffer: array<Byte>
    const digest: array<Byte>
    var finished: bool
    ghost var fed: seq<Byte>      // everything fed since the last reset
    ghost var blocks: seq<Byte>   // the part of it that the state has absorbed

    ghost predicate Valid()
      reads this, buffer, digest
    {
      !finished && Ready()
    }

    ghost predicate Ready()
      reads this, buffer, digest
    {
      && Chained()
      && digest.Length == 16 && buffer != digest
      && countLow == LowWord(|fed|) && countHigh == HighWord(|fed|)
      && |blocks| <= |fed| < |blocks| + 64
      && fed == blocks + buffer[..|fed| - |blocks|]
    }

    ghost predicate Chained()
      reads this
    {
      && algorithm.Valid()
      && buffer.Length == 64
      && WholeBlocks(|blocks|)
      && state == algorithm.Absorb(algorithm.init, blocks)
    }

    constructor (algorithm: Algorithm<S>)
      requires algorithm.Valid()
      ensures this.algorithm == algorithm && Valid() && fed == [] && fresh(buffer) && fresh(digest)
    {
      this.algorithm := algorithm;
      buffer := new Byte[64];
      digest := new Byte[16];
      state, fed, blocks := algorithm.init, [], [];
      countLow, countHigh := 0, 0;
      finished := false;
    }

    /** MD5::reset. */
    method Reset()
      requires Valid()
      modifies this
      ensures Valid() && fed == []
    {
      finished := false;
      countLow, countHigh := 0, 0;
      state, fed, blocks := algorithm.init, [], [];
    }

    /** MD5::transform: one more block through the compression function. */
    method Transform(block: seq<Byte>)
      requires Chained() && |block| == 64
      modifies this`state, this`blocks
      ensures Chained() && blocks == old(blocks) + block
    {
      algorithm.AbsorbBlock(algorithm.init, blocks, block);
      state := algorithm.compress(state, block);
      blocks := blocks + block;
    }

    /** memcpy(&_buffer[at], bytes, |bytes|). */
    method CopyToBuffer(at: nat, bytes: seq<Byte>)
      requires at + |bytes| <= buffer.Length
      modifies buffer
      ensures buffer[..] == old(buffer[..])[..at] + bytes + old(buffer[..])[at + |bytes|..]
    {
      forall k | 0 <= k < |bytes| {
        buffer[at + k] := bytes[k];
      }
    }

    /** The number of buffered bytes, taken from bits 3 to 8 of the low count word. */
    method BufferedBytes() returns (index: nat)
      requires Ready()
      ensures index == |fed| - |blocks| == |fed| % 64
    {
      index := countLow / 8 % 64;
      CountIndexes(|fed|);
      WholeBlocksRemainder(|blocks|, |fed| - |blocks|);
    }

    /** The bit counter, low word with carry, advances by `length` bytes. */
    method AddToCount(length: nat, ghost bytes: nat)
      requires length < 0x1_0000_0000
      requires countLow == LowWord(bytes) && countHigh == HighWord(bytes)
      modifies this`countLow, this`countHigh
      ensures countLow == LowWord(bytes + length) && countHigh == HighWord(bytes + length)
    {
      var shifted := 8 * length % 0x1_0000_0000;
      CountIsExact(bytes, length);
      countLow := (countLow + shifted) % 0x1_0000_0000;
      if countLow < shifted {
        countHigh := (countHigh + 1) % 0x1_0000_0000;
      }
      countHigh := (countHigh + length / 0x2000_0000) % 0x1_0000_0000;
    }

    /** The loop of `update`: absorbs the full blocks of input[start..]. */
    method TransformBlocks(input: seq<Byte>, start: nat) returns (i: nat)
      requires Chained() && start <= |input| <= MAX_INPUT
      modifies this`state, this`blocks
      ensures Chained() && start <= i <= |input| < i + 64
      ensures |input| < start + 64 ==> i == start
      ensures blocks == old(blocks) + input[start..i]
    {
      i := start;
      while (i + 63) % 0x1_0000_0000 < |input|
        invariant start <= i <= |input| && (|input| < start + 64 ==> i == start)
        invariant Chained() && blocks == old(blocks) + input[start..i]
      {
        Transform(input[i..i + 64]);
        assert input[start..i + 64] == input[start..i] + input[i..i + 64];
        i := i + 64;
      }
    }

    /** `update` on an input that completes the buffered block. */
    method AbsorbBlocks(index: nat, input: seq<Byte>) returns (i: nat)
      requires Chained() && index < 64 <= index + |input| && |input| <= MAX_INPUT
      modifies this`state, this`blocks, buffer
      ensures Chained() && 64 - index <= i <= |input| < i + 64
      ensures index + |input| < 128 ==> i == 64 - index
      ensures blocks == old(blocks) + old(buffer[..])[..index] + input[..i]
      ensures buffer[..] == input[i..] + (old(buffer[..])[..index] + input[..64 - index])[|input| - i..]
    {
      ghost var first := buffer[..][..index] + input[..64 - index];
      CopyToBuffer(index, input[..64 - index]);
      assert buffer[..] == first;
      Transform(buffer[..]);
      i := TransformBlocks(input, 64 - index);
      assert input[..64 - index] + input[64 - index..i] == input[..i];
      CopyToBuffer(0, input[i..]);
    }

    /** `update` after the counting: completes and absorbs blocks, then buffers what is left. */
    method AbsorbInput(index: nat, input: seq<Byte>)
      requires Chained() && index < 64 && |input| <= MAX_INPUT
      requires |fed| == |blocks| + index + |input| && fed == blocks + buffer[..][..index] + input
      modifies this`state, this`blocks, buffer
      ensures Chained() && |blocks| <= |fed| < |blocks| + 64 && fed == blocks + buffer[..|fed| - |blocks|]
      ensures BufferAdvanced(old(buffer[..]), index, input, |blocks| - |old(blocks)|)
    {
      if index + |input| >= 64 {
        ghost var before := blocks + buffer[..][..index];
        var i := AbsorbBlocks(index, input);
        assert buffer[..|input| - i] == input[i..];
        assert before + input == before + input[..i] + input[i..];
      } else {
        ghost var was := buffer[..];
        CopyToBuffer(index, input);
        assert buffer[..index + |input|] == was[..index] + input;
      }
    }

    /** The buffer now that `update(input)` found `was` with `index` bytes in use, and `absorbed`
        bytes went through the compression function. */
    ghost predicate BufferAdvanced(was: seq<Byte>, index: nat, input: seq<Byte>, absorbed: int)
      requires |was| == 64 && index < 64
      reads buffer
    {
      if index + |input| < 64 then
        absorbed == 0 && buffer[..] == was[..index] + input + was[index + |input|..]
      else
        && 64 <= absorbed <= index + |input| < absorbed + 64
        && (index + |input| < 128 ==> absorbed == 64)
        && buffer[..] == input[absorbed - index..] + (was[..index] + input[..64 - index])[index + |input| - absorbed..]
    }

    /** MD5::update. */
    method Update(input: seq<Byte>)
      requires Ready()
      requires |input| <= MAX_INPUT
      modifies this, buffer
      ensures Valid() && fed == old(fed) + input
      ensures BufferAdvanced(old(buffer[..]), |old(fed)| - |old(blocks)|, input, |blocks| - |old(blocks)|)
    {
      finished := false;
      var index := BufferedBytes();
      AddToCount(|input|, |fed|);
      fed := fed + input;
      AbsorbInput(index, input);
    }

    /** MD5::update on a file: it arrives in buffers of 1024 bytes, the last one shorter. */
    method UpdateFile(content: seq<Byte>)
      requires Valid()
      modifies this, buffer
      ensures Valid() && fed == old(fed) + content
    {
      var pos := 0;
      ghost var before := fed;
      while pos < |content|
        invariant pos <= |content|
        invariant Valid() && fed == before + content[..pos]
      {
        var length := if |content| - pos < 1024 then |content| - pos else 1024;
        assert before + content[..pos + length] == before + content[..pos] + content[pos..pos + length];
        Update(content[pos..pos + length]);
        pos := pos + length;
      }
      assert content[..pos] == content;
    }

    /** The first update of `final`. */
    method PadTo56(padLen: nat)
      requires Ready() && padLen == PaddingLength(|fed|)
      requires var held := |fed| - |blocks|; padLen == if held < 56 then 56 - held else 120 - held
      modifies this, buffer
      ensures Ready() && fed == old(fed) + Padding(|old(fed)|) && |fed| == |blocks| + 56
      ensures var held := |old(fed)| - |old(blocks)|;
              buffer[..56] == if held < 56 then old(buffer[..])[..held] + Padding(|old(fed)|) else Zeros(56)
    {
      assert PaddingBlock()[..padLen] == Padding(|fed|);
      Update(PaddingBlock()[..padLen]);
    }

    /** Both updates of `final`: the padding, then the length. */
    method Pad(padLen: nat, bits: seq<Byte>)
      requires Ready() && padLen == PaddingLength(|fed|) && |bits| == 8
      requires var held := |fed| - |blocks|; padLen == if held < 56 then 56 - held else 120 - held
      modifies this, buffer
      ensures Valid() && blocks == fed == old(fed) + Padding(|old(fed)|) + bits
      ensures var held := |old(fed)| - |old(blocks)|;
              buffer[..held] == if held < 56 then old(buffer[..])[..held] else (Zeros(56) + bits)[..held]
    {
      PadTo56(padLen);
      ghost var mid := buffer[..56];
      Update(bits);
      assert buffer[..] == mid + bits;
    }

    /** `final` up to the point where it restores what it saved. */
    method PadAndEncode()
      requires Ready()
      modifies this, buffer, digest
      ensures Chained() && !finished && digest[..] == algorithm.Digest(old(fed))
      ensures var held := |old(fed)| - |old(blocks)|;
              buffer[..held] == if held < 56 then old(buffer[..])[..held]
                                else (Zeros(56) + algorithm.LengthBytes(|old(fed)|))[..held]
    {
      var bits := algorithm.countBytes(countLow, countHigh);
      CountWords(|fed|);
      var index := BufferedBytes();
      var padLen := if index < 56 then 56 - index else 120 - index;
      Pad(padLen, bits);
      WriteDigest(algorithm.output(state));
    }

    method WriteDigest(bytes: seq<Byte>)
      requires |bytes| == digest.Length
      modifies digest
      ensures digest[..] == bytes
    {
      forall k | 0 <= k < |bytes| {
        digest[k] := bytes[k];
      }
    }

    /** MD5::final: pads, appends the length, writes the digest, and restores state and count. */
    method Final()
      requires Ready()
      modifies this, buffer, digest
      ensures Valid() && fed == algorithm.AfterDigest(old(fed))
      ensures digest[..] == algorithm.Digest(old(fed))
    {
      var oldState, oldLow, oldHigh := state, countLow, countHigh;
      ghost var oldFed, oldBlocks, held := fed, blocks, |fed| - |blocks|;
      WholeBlocksRemainder(|blocks|, held);
      PadAndEncode();
      state, countLow, countHigh := oldState, oldLow, oldHigh;
      blocks := oldBlocks;
      fed := blocks + buffer[..held];
      if held < 56 {
        assert fed == oldFed;
      } else {
        assert oldFed[..|oldFed| - held] == blocks;
      }
    }

    /** MD5::digest. `final` ends with `finished` unset, so every call computes the digest anew. */
    method GetDigest()
      requires Valid()
      modifies this, buffer, digest
      ensures Valid() && fed == algorithm.AfterDigest(old(fed))
      ensures digest[..] == algorithm.Digest(old(fed))
    {
      if !finished {
        finished := true;
        Final();
      }
    }
  }

  /** Any run of calls on one object. */
  method Perform<S(!new)>(md5: MD5<S>, calls: seq<Call>) returns (digests: seq<seq<Byte>>)
    requires md5.Valid() && forall c :: c in calls && c.Feed? ==> |c.bytes| <= MAX_INPUT
    modifies md5, md5.buffer, md5.digest
    ensures md5.Valid()
    ensures digests == RunDigests(md5.algorithm, old(md5.fed), calls).0
    ensures md5.fed == RunDigests(md5.algorithm, old(md5.fed), calls).1
  {
    digests := [];
    for i := 0 to |calls|
      invariant md5.Valid()
      invariant RunDigests(md5.algorithm, old(md5.fed), calls).1 == RunDigests(md5.algorithm, md5.fed, calls[i..]).1
      invariant RunDigests(md5.algorithm, old(md5.fed), calls).0
                == digests + RunDigests(md5.algorithm, md5.fed, calls[i..]).0
    {
      assert calls[i..][1..] == calls[i + 1..];
      match calls[i]
      case Feed(bytes) =>
        md5.Update(bytes);
      case TakeDigest =>
        md5.GetDigest();
        digests := digests + [md5.digest[..]];
    }
    assert calls[|calls|..] == [];
  }

  // ----- The bit counter -----

  // The bit count modulo 2^64 of a message, as the two words of the counter. They are defined by
  // recursion on the carries, so that a proof meets their arithmetic only where it asks for it.

  ghost function LowWord(bytes: nat): nat {
    if bytes < 0x2000_0000 then 8 * bytes else LowWord(bytes - 0x2000_0000)
  }

  ghost function HighWord(bytes: nat): nat {
    if bytes < 0x2000_0000 then 0
    else
      var high := HighWord(bytes - 0x2000_0000);
      if high == 0xFFFF_FFFF then 0 else high + 1
  }

  lemma {:induction false} CountWords(bytes: nat)
    ensures LowWord(bytes) == 8 * bytes % 0x1_0000_0000
    ensures HighWord(bytes) == 8 * bytes / 0x1_0000_0000 % 0x1_0000_0000
  {
    if bytes >= 0x2000_0000 {
      CountWords(bytes - 0x2000_0000);
      ModStep(8 * bytes / 0x1_0000_0000 - 1);
    }
  }

  lemma ModStep(h: nat)
    ensures (h + 1) % 0x1_0000_0000
            == if h % 0x1_0000_0000 == 0xFFFF_FFFF then 0 else h % 0x1_0000_0000 + 1
  {
  }

  lemma {:induction false} CountIndexes(bytes: nat)
    ensures LowWord(bytes) / 8 % 64 == bytes % 64
  {
    if bytes >= 0x2000_0000 {
      CountIndexes(bytes - 0x2000_0000);
    }
  }

  /** The two-word addition with carry adds 8 * length to the bit count modulo 2^64. */
  lemma CountIsExact(bytes: nat, length: nat)
    ensures var shifted := 8 * length % 0x1_0000_0000;
            var low := (LowWord(bytes) + shifted) % 0x1_0000_0000;
            var high := if low < shifted then (HighWord(bytes) + 1) % 0x1_0000_0000 else HighWord(bytes);
            && low == LowWord(bytes + length)
            && (high + length / 0x2000_0000) % 0x1_0000_0000 == HighWord(bytes + length)
  {
    CountWords(bytes);
    CountWords(bytes + length);
    ShiftedLength(length);
    AddCounts(8 * bytes, 8 * length, 8 * (bytes + length), LowWord(bytes), HighWord(bytes));
  }

  lemma AddCounts(x: nat, y: nat, sum: nat, l: nat, h: nat)
    requires sum == x + y && l == x % 0x1_0000_0000 && h == x / 0x1_0000_0000 % 0x1_0000_0000
    ensures var low := (l + y % 0x1_0000_0000) % 0x1_0000_0000;
            var high := if low < y % 0x1_0000_0000 then (h + 1) % 0x1_0000_0000 else h;
            && low == sum % 0x1_0000_0000
            && (high + y / 0x1_0000_0000) % 0x1_0000_0000 == sum / 0x1_0000_0000 % 0x1_0000_0000
  {
    AddWords(x, y);
    var low := (l + y % 0x1_0000_0000) % 0x1_0000_0000;
    AddHighWords(x / 0x1_0000_0000, if low < y % 0x1_0000_0000 then 1 else 0, y / 0x1_0000_0000);
  }

  lemma ShiftedLength(length: nat)
    ensures 8 * length / 0x1_0000_0000 == length / 0x2000_0000
  {
  }

  lemma AddHighWords(h: nat, carry: nat, q: nat)
    ensures ((h % 0x1_0000_0000 + carry) % 0x1_0000_0000 + q) % 0x1_0000_0000 == (h + carry + q) % 0x1_0000_0000
  {
    AddMod(h, carry);
    AddMod(h + carry, q);
  }

  lemma AddMod(x: nat, y: nat)
    ensures (x % 0x1_0000_0000 + y) % 0x1_0000_0000 == (x + y) % 0x1_0000_0000
  {
    var q := x / 0x1_0000_0000;
    assert x + y == 0x1_0000_0000 * q + (x % 0x1_0000_0000 + y);
  }

  lemma AddWords(x: nat, y: nat)
    ensures var low := (x % 0x1_0000_0000 + y % 0x1_0000_0000) % 0x1_0000_0000;
            && low == (x + y) % 0x1_0000_0000
            && (x / 0x1_0000_0000 + if low < y % 0x1_0000_0000 then 1 else 0) + y / 0x1_0000_0000
               == (x + y) / 0x1_0000_0000
  {
    assert x + y == 0x1_0000_0000 * (x / 0x1_0000_0000 + y / 0x1_0000_0000) + (x % 0x1_0000_0000 + y % 0x1_0000_0000);
  }
}
