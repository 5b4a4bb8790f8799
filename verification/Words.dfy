// Bytes, 32-bit words and their little-endian encoding (md5.cpp, encode and decode).
module Words {
  type Byte = bv8
  type Word = bv32

  function EncodeWord(w: Word): (b: seq<Byte>)
    ensures |b| == 4
  {
    [(w & 0xff) as Byte, ((w >> 8) & 0xff) as Byte, ((w >> 16) & 0xff) as Byte, ((w >> 24) & 0xff) as Byte]
  }

  function Join(b0: Byte, b1: Byte, b2: Byte, b3: Byte): Word {
    (b0 as Word) | ((b1 as Word) << 8) | ((b2 as Word) << 16) | ((b3 as Word) << 24)
  }

  function DecodeWord(b: seq<Byte>): Word
    requires |b| == 4
  {
    Join(b[0], b[1], b[2], b[3])
  }

  /** Words to bytes, low-order byte of each word first. */
  function Encode(ws: seq<Word>): (b: seq<Byte>)
    ensures |b| == 4 * |ws|
  {
    seq(4 * |ws|, j requires 0 <= j < 4 * |ws| => EncodeWord(ws[j / 4])[j % 4])
  }

  /** Bytes to words; a trailing group of fewer than four bytes is dropped. */
  function Decode(b: seq<Byte>): (ws: seq<Word>)
    ensures |ws| == |b| / 4
  {
    seq(|b| / 4, i requires 0 <= i < |b| / 4 => DecodeWord(b[4 * i..4 * i + 4]))
  }

  lemma DecodeEncodeWord(w: Word)
    ensures DecodeWord(EncodeWord(w)) == w
  {
  }

  lemma EncodeDecodeWord(b: seq<Byte>)
    requires |b| == 4
    ensures EncodeWord(DecodeWord(b)) == b
  {
  }

  lemma DecodeEncode(ws: seq<Word>)
    ensures Decode(Encode(ws)) == ws
  {
    var b := Encode(ws);
    forall i | 0 <= i < |ws|
      ensures Decode(b)[i] == ws[i]
    {
      EncodeAt(ws, i);
      DecodeEncodeWord(ws[i]);
    }
  }

  /** Group i of four bytes comes back. */
  lemma EncodeDecodeAt(b: seq<Byte>, i: nat)
    requires 4 * i + 4 <= |b| && |b| % 4 == 0
    ensures Encode(Decode(b))[4 * i..4 * i + 4] == b[4 * i..4 * i + 4]
  {
    EncodeAt(Decode(b), i);
    EncodeDecodeWord(b[4 * i..4 * i + 4]);
  }

  /** Two sequences of bytes that agree in a group agree in every byte of it. */
  lemma ByteOfGroup(b: seq<Byte>, c: seq<Byte>, i: nat, k: nat)
    requires 4 * i + 4 <= |b| == |c| && k < 4 && c[4 * i..4 * i + 4] == b[4 * i..4 * i + 4]
    ensures c[4 * i + k] == b[4 * i + k]
  {
    assert c[4 * i..4 * i + 4][k] == c[4 * i + k] && b[4 * i..4 * i + 4][k] == b[4 * i + k];
  }

  lemma EncodeDecodeByte(b: seq<Byte>, j: nat)
    requires |b| % 4 == 0 && j < |b|
    ensures Encode(Decode(b))[j] == b[j]
  {
    EncodeDecodeAt(b, j / 4);
    ByteOfGroup(b, Encode(Decode(b)), j / 4, j % 4);
  }

  lemma EncodeDecode(b: seq<Byte>)
    requires |b| % 4 == 0
    ensures Encode(Decode(b)) == b
  {
    forall j | 0 <= j < |b|
      ensures Encode(Decode(b))[j] == b[j]
    {
      EncodeDecodeByte(b, j);
    }
  }

  /** One round of MD5::encode. */
  method EncodeWordInto(w: Word, output: array<Byte>, j: nat)
    requires j + 4 <= output.Length
    modifies output
    ensures output[..j] == old(output[..j]) && output[j..j + 4] == EncodeWord(w)
  {
    output[j] := (w & 0xff) as Byte;
    output[j + 1] := ((w >> 8) & 0xff) as Byte;
    output[j + 2] := ((w >> 16) & 0xff) as Byte;
    output[j + 3] := ((w >> 24) & 0xff) as Byte;
  }

  /** MD5::encode: fills `output` from the words. */
  method EncodeInto(ws: seq<Word>, output: array<Byte>)
    requires output.Length == 4 * |ws|
    modifies output
    ensures output[..] == Encode(ws)
  {
    var i, j := 0, 0;
    while j < output.Length
      invariant j == 4 * i && i <= |ws|
      invariant output[..j] == Encode(ws)[..j]
    {
      EncodeAt(ws, i);
      EncodeWordInto(ws[i], output, j);
      i, j := i + 1, j + 4;
    }
  }

  lemma DecodeWordAt(b: seq<Byte>, j: nat)
    requires j + 4 <= |b|
    ensures DecodeWord(b[j..j + 4]) == Join(b[j], b[j + 1], b[j + 2], b[j + 3])
  {
  }

  /** MD5::decode: fills `output` from the bytes. */
  method DecodeInto(b: seq<Byte>, output: array<Word>)
    requires |b| == 4 * output.Length
    modifies output
    ensures output[..] == Decode(b)
  {
    var i, j := 0, 0;
    while j < |b|
      invariant j == 4 * i && i <= output.Length
      invariant output[..i] == Decode(b)[..i]
    {
      DecodeWordAt(b, j);
      output[i] := Join(b[j], b[j + 1], b[j + 2], b[j + 3]);
      i, j := i + 1, j + 4;
    }
  }

  lemma EncodeAt(ws: seq<Word>, i: nat)
    requires i < |ws|
    ensures Encode(ws)[4 * i..4 * i + 4] == EncodeWord(ws[i])
  {
    forall k | 0 <= k < 4
      ensures Encode(ws)[4 * i..4 * i + 4][k] == EncodeWord(ws[i])[k]
    {
      assert (4 * i + k) / 4 == i && (4 * i + k) % 4 == k;
    }
  }
}
