// The block function and encodings of md5.cpp, as the algorithm its streaming code runs.
module Md5Instance {
  import opened Words
  import opened Md5Compression
  import opened BlockHash
  import opened Md5

  const INITIAL_STATE := State(0x67452301, 0xefcdab89, 0x98badcfe, 0x10325476)

  function CompressBlock(s: State, block: seq<Words.Byte>): State {
    if |block| == 64 then Compress(s, block) else s
  }

  /** Section 3.2: the two count words, low-order word first. */
  function CountBytes(low: nat, high: nat): (b: seq<Words.Byte>)
    ensures |b| == 8
  {
    Encode([(low % 0x1_0000_0000) as Word, (high % 0x1_0000_0000) as Word])
  }

  /** Section 3.5: A, B, C, D, low-order byte of A first. */
  function StateBytes(s: State): (b: seq<Words.Byte>)
    ensures |b| == 16
  {
    Encode([s.a, s.b, s.c, s.d])
  }

  function Rfc1321(): Algorithm<State> {
    Algorithm(INITIAL_STATE, CompressBlock, CountBytes, StateBytes)
  }

  lemma Rfc1321IsValid()
    ensures Rfc1321().Valid()
  {
  }

  /** MD5::transform is the block function of the RFC. */
  method Transform(s: State, block: seq<Words.Byte>) returns (r: State)
    requires |block| == 64
    ensures r == Rfc1321().compress(s, block)
  {
    var x := new Word[16];
    DecodeInto(block, x);
    var t := Rounds(s, x[..]);
    r := AddStates(s, t);
  }

  /** `encode` of the state words, as final() writes the digest. */
  method WriteState(s: State, digest: array<Words.Byte>)
    requires digest.Length == 16
    modifies digest
    ensures digest[..] == Rfc1321().output(s)
  {
    EncodeInto([s.a, s.b, s.c, s.d], digest);
  }

  /** The MD5(input, length) constructor followed by digest(). */
  method Hash(message: seq<Words.Byte>) returns (digest: seq<Words.Byte>)
    requires |message| <= MAX_INPUT
    ensures digest == Rfc1321().Digest(message)
  {
    Rfc1321IsValid();
    var md5 := new MD5(Rfc1321());
    md5.Update(message);
    assert md5.fed == message;
    md5.GetDigest();
    digest := md5.digest[..];
  }
}
