// RFC 1321, sections 3.1, 3.2, 3.4 (block order) and 3.5, for any block function.
//
// Padding, buffering and counting do not depend on what the compression function does to a
// block, so the streaming proofs are about an arbitrary one. Md5Instance supplies the real one.
module BlockHash {
  type Byte = bv8

  /** What the streaming code calls: the block function and the two encodings of final(). */
  datatype Algorithm<!S(!new)> = Algorithm(
    init: S,
    compress: (S, seq<Byte>) -> S,
    countBytes: (nat, nat) -> seq<Byte>,
    output: S -> seq<Byte>)
  {
    /** The count words encode to 8 bytes, the state to 16. */
    ghost predicate Valid() {
      && (forall low: nat, high: nat :: |countBytes(low, high)| == 8)
      && forall s: S :: |output(s)| == 16
    }

    /** The full 64-byte blocks of m, in order; a shorter tail is ignored. */
    function Absorb(s: S, m: seq<Byte>): S
      decreases |m|
    {
      if |m| < 64 then s else Absorb(compress(s, m[..64]), m[64..])
    }

    /** Section 3.2: the length in bits modulo 2^64, as two words, low-order word first. */
    function LengthBytes(length: nat): seq<Byte> {
      countBytes(8 * length % 0x1_0000_0000, 8 * length / 0x1_0000_0000 % 0x1_0000_0000)
    }

    /** The message digest. */
    function Digest(m: seq<Byte>): seq<Byte> {
      output(Absorb(init, m + Padding(|m|) + LengthBytes(|m|)))
    }

    /** What a streaming object behaves as having been fed once `digest` has been called after m: with
        56 or more bytes buffered, `final` overwrites them and does not put them back. */
    function AfterDigest(m: seq<Byte>): (r: seq<Byte>)
      requires Valid()
      ensures |r| == |m|
    {
      var n := |m| % 64;
      if n < 56 then m else m[..|m| - n] + (Zeros(56) + LengthBytes(|m|))[..n]
    }

    lemma {:induction false} AbsorbBlock(s: S, m: seq<Byte>, block: seq<Byte>)
      requires WholeBlocks(|m|) && |block| == 64
      ensures Absorb(s, m + block) == compress(Absorb(s, m), block)
      decreases |m|
    {
      if m == [] {
        assert m + block == block && block[..64] == block && block[64..] == [];
      } else {
        assert (m + block)[..64] == m[..64] && (m + block)[64..] == m[64..] + block;
        AbsorbBlock(compress(s, m[..64]), m[64..], block);
      }
    }
  }

  // ----- Whole runs of calls -----

  datatype Call = Feed(bytes: seq<Byte>) | TakeDigest

  /** All bytes fed by a run. */
  function Fed(calls: seq<Call>): seq<Byte> {
    if calls == [] then []
    else match calls[0]
      case Feed(bytes) => bytes + Fed(calls[1..])
      case TakeDigest => Fed(calls[1..])
  }

  /** The digests a run ought to return when m was fed before it. */
  function TrueDigests<S(!new)>(a: Algorithm<S>, m: seq<Byte>, calls: seq<Call>): seq<seq<Byte>>
    decreases |calls|
  {
    if calls == [] then []
    else match calls[0]
      case Feed(bytes) => TrueDigests(a, m + bytes, calls[1..])
      case TakeDigest => [a.Digest(m)] + TrueDigests(a, m, calls[1..])
  }

  /** The digests a run does return, and what the object then behaves as having been fed. */
  function RunDigests<S(!new)>(a: Algorithm<S>, m: seq<Byte>, calls: seq<Call>): (seq<seq<Byte>>, seq<Byte>)
    requires a.Valid()
    decreases |calls|
  {
    if calls == [] then ([], m)
    else match calls[0]
      case Feed(bytes) => RunDigests(a, m + bytes, calls[1..])
      case TakeDigest =>
        var (digests, last) := RunDigests(a, a.AfterDigest(m), calls[1..]);
        ([a.Digest(m)] + digests, last)
  }

  /** No digest is taken, with n bytes fed before the run, while 56 or more bytes are buffered,
      unless it is the last one. */
  predicate Harmless(n: nat, calls: seq<Call>)
    decreases |calls|
  {
    calls == [] ||
    match calls[0]
      case Feed(bytes) => Harmless(n + |bytes|, calls[1..])
      case TakeDigest => (n % 64 < 56 || TakeDigest !in calls[1..]) && Harmless(n, calls[1..])
  }

  /** Digests and updates may be interleaved in any harmless way. */
  lemma {:induction false} HarmlessRunsAreTrue<S(!new)>(a: Algorithm<S>, m: seq<Byte>, calls: seq<Call>)
    requires a.Valid() && Harmless(|m|, calls)
    ensures RunDigests(a, m, calls).0 == TrueDigests(a, m, calls)
    decreases |calls|
  {
    if calls == [] {
    } else if calls[0].Feed? {
      HarmlessRunsAreTrue(a, m + calls[0].bytes, calls[1..]);
    } else if TakeDigest in calls[1..] {
      HarmlessRunsAreTrue(a, m, calls[1..]);
    } else {
      WithoutDigests(a, m, calls[1..]);
      WithoutDigests(a, a.AfterDigest(m), calls[1..]);
    }
  }

  lemma {:induction false} WithoutDigests<S(!new)>(a: Algorithm<S>, m: seq<Byte>, calls: seq<Call>)
    requires a.Valid() && TakeDigest !in calls
    ensures RunDigests(a, m, calls) == ([], m + Fed(calls)) && TrueDigests(a, m, calls) == []
    decreases |calls|
  {
    if calls == [] {
      assert m + Fed(calls) == m;
    } else {
      assert calls[0] in calls;
      WithoutDigests(a, m + calls[0].bytes, calls[1..]);
      assert m + calls[0].bytes + Fed(calls[1..]) == m + Fed(calls);
    }
  }

  lemma FeedFirst<S(!new)>(a: Algorithm<S>, m: seq<Byte>, bytes: seq<Byte>, calls: seq<Call>)
    requires a.Valid()
    ensures RunDigests(a, m, [Feed(bytes)] + calls) == RunDigests(a, m + bytes, calls)
  {
    assert ([Feed(bytes)] + calls)[1..] == calls;
  }

  /** However a message is cut into updates, the first digest is the digest of the whole message. */
  lemma {:induction false} FirstDigest<S(!new)>(a: Algorithm<S>, m: seq<Byte>, calls: seq<Call>)
    requires a.Valid() && TakeDigest !in calls
    ensures RunDigests(a, m, calls + [TakeDigest]).0 == [a.Digest(m + Fed(calls))]
    decreases |calls|
  {
    if calls == [] {
      assert m + Fed(calls) == m && calls + [TakeDigest] == [TakeDigest];
    } else {
      assert calls[0] in calls;
      var bytes := calls[0].bytes;
      FirstDigest(a, m + bytes, calls[1..]);
      FeedFirst(a, m, bytes, calls[1..] + [TakeDigest]);
      assert calls + [TakeDigest] == [Feed(bytes)] + (calls[1..] + [TakeDigest]);
      assert m + bytes + Fed(calls[1..]) == m + Fed(calls);
    }
  }

  /** Exactly when `digest` leaves the object as it was: fewer than 56 bytes were buffered, or the
      buffered bytes happen to be what `final` writes over them. */
  lemma DigestIsTransparentExactlyWhen<S(!new)>(a: Algorithm<S>, m: seq<Byte>)
    requires a.Valid()
    ensures var n := |m| % 64;
            a.AfterDigest(m) == m
            <==> n < 56 || m[|m| - n..] == (Zeros(56) + a.LengthBytes(|m|))[..n]
  {
    var n := |m| % 64;
    if n >= 56 {
      var r := a.AfterDigest(m);
      assert r[|m| - n..] == (Zeros(56) + a.LengthBytes(|m|))[..n];
      assert m == m[..|m| - n] + m[|m| - n..];
    }
  }

  /** A 56-byte message for which a second digest hashes something else. */
  lemma SecondDigestCanDiffer<S(!new)>(a: Algorithm<S>)
    requires a.Valid()
    ensures var m := seq(56, _ => 0x61 as Byte);
            && a.AfterDigest(m) == Zeros(56) != m
            && RunDigests(a, m, [TakeDigest, TakeDigest]).0 == [a.Digest(m), a.Digest(Zeros(56))]
  {
    var m := seq(56, _ => 0x61 as Byte);
    assert a.AfterDigest(m) == Zeros(56);
    assert m[0] != Zeros(56)[0];
    assert [TakeDigest, TakeDigest][1..] == [TakeDigest];
    assert RunDigests(a, Zeros(56), [TakeDigest]).0 == [a.Digest(Zeros(56))] + [];
  }

  // ----- The limit on one update -----

  /** With `index` bytes buffered, the loop of `update` reaches a block index i with i + 63 past 2^32. */
  ghost predicate BlockIndexWraps(index: nat, length: nat) {
    exists k: nat :: 64 - index + 64 * k <= length && 64 - index + 64 * k + 63 >= 0x1_0000_0000
  }

  /** The longest input `update` takes in one call whatever is buffered. */
  const MAX_INPUT := 0xFFFF_FFC0

  lemma MaxInputIsExact(length: nat)
    ensures (exists index: nat :: index < 64 && BlockIndexWraps(index, length)) <==> length > MAX_INPUT
  {
    if length > MAX_INPUT {
      assert 64 - 63 + 64 * 0x3FF_FFFF <= length;
      assert BlockIndexWraps(63, length);
    }
  }

  /** n is a multiple of 64, by recursion, so that proofs can step from block to block. */
  ghost predicate WholeBlocks(n: nat) {
    n == 0 || (n >= 64 && WholeBlocks(n - 64))
  }

  lemma {:induction false} WholeBlocksRemainder(n: nat, r: nat)
    requires WholeBlocks(n) && r < 64
    ensures (n + r) % 64 == r
  {
    if n > 0 {
      WholeBlocksRemainder(n - 64, r);
    }
  }

  function Zeros(n: nat): (z: seq<Byte>)
    ensures |z| == n && forall i :: 0 <= i < n ==> z[i] == 0
  {
    seq(n, _ => 0)
  }

  /** Section 3.1: between 1 and 64 bytes, up to 56 modulo 64. */
  function PaddingLength(length: nat): (k: nat)
    ensures 1 <= k <= 64 && (length + k) % 64 == 56
  {
    if length % 64 < 56 then 56 - length % 64 else 120 - length % 64
  }

  function Padding(length: nat): (p: seq<Byte>)
    ensures |p| == PaddingLength(length)
  {
    [0x80] + Zeros(PaddingLength(length) - 1)
  }
}
