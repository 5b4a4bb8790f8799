// The compression function of RFC 1321, once as the section 3.4 step loop and once as
// the 64 macro calls of md5.cpp.
module Md5Compression {
  import opened Words

  /** The four chaining variables A, B, C, D of RFC 1321, section 3.3. */
  datatype State = State(a: Word, b: Word, c: Word, d: Word)

  // ----- RFC 1321, section 3.4 -----

  function F(x: Word, y: Word, z: Word): Word { (x & y) | (!x & z) }

  function G(x: Word, y: Word, z: Word): Word { (x & z) | (y & !z) }

  function H(x: Word, y: Word, z: Word): Word { x ^ y ^ z }

  function I(x: Word, y: Word, z: Word): Word { y ^ (x | !z) }

  function RotateLeft(x: Word, n: Word): Word
    requires n <= 32
  {
    (x << n) | (x >> (32 - n))
  }

  /** Which word of the block a step uses, how far it rotates and which sine constant it adds. */
  datatype Operand = Operand(k: Index, s: Rotation, t: Word)

  type Index = k: nat | k < 16

  type Rotation = s: Word | s <= 32

  /** The table of section 3.4, one row for each of the 64 operations. */
  function Schedule(i: nat): Operand {
    if i < 32 then
      if i < 16 then
        if i < 8 then
          if i < 4 then
            Pick(i - 0, Operand(0, 7, 0xd76aa478), Operand(1, 12, 0xe8c7b756),
                 Operand(2, 17, 0x242070db), Operand(3, 22, 0xc1bdceee))
          else
            Pick(i - 4, Operand(4, 7, 0xf57c0faf), Operand(5, 12, 0x4787c62a),
                 Operand(6, 17, 0xa8304613), Operand(7, 22, 0xfd469501))
        else
          if i < 12 then
            Pick(i - 8, Operand(8, 7, 0x698098d8), Operand(9, 12, 0x8b44f7af),
                 Operand(10, 17, 0xffff5bb1), Operand(11, 22, 0x895cd7be))
          else
            Pick(i - 12, Operand(12, 7, 0x6b901122), Operand(13, 12, 0xfd987193),
                 Operand(14, 17, 0xa679438e), Operand(15, 22, 0x49b40821))
      else
        if i < 24 then
          if i < 20 then
            Pick(i - 16, Operand(1, 5, 0xf61e2562), Operand(6, 9, 0xc040b340),
                 Operand(11, 14, 0x265e5a51), Operand(0, 20, 0xe9b6c7aa))
          else
            Pick(i - 20, Operand(5, 5, 0xd62f105d), Operand(10, 9, 0x02441453),
                 Operand(15, 14, 0xd8a1e681), Operand(4, 20, 0xe7d3fbc8))
        else
          if i < 28 then
            Pick(i - 24, Operand(9, 5, 0x21e1cde6), Operand(14, 9, 0xc33707d6),
                 Operand(3, 14, 0xf4d50d87), Operand(8, 20, 0x455a14ed))
          else
            Pick(i - 28, Operand(13, 5, 0xa9e3e905), Operand(2, 9, 0xfcefa3f8),
                 Operand(7, 14, 0x676f02d9), Operand(12, 20, 0x8d2a4c8a))
    else
      if i < 48 then
        if i < 40 then
          if i < 36 then
            Pick(i - 32, Operand(5, 4, 0xfffa3942), Operand(8, 11, 0x8771f681),
                 Operand(11, 16, 0x6d9d6122), Operand(14, 23, 0xfde5380c))
          else
            Pick(i - 36, Operand(1, 4, 0xa4beea44), Operand(4, 11, 0x4bdecfa9),
                 Operand(7, 16, 0xf6bb4b60), Operand(10, 23, 0xbebfbc70))
        else
          if i < 44 then
            Pick(i - 40, Operand(13, 4, 0x289b7ec6), Operand(0, 11, 0xeaa127fa),
                 Operand(3, 16, 0xd4ef3085), Operand(6, 23, 0x04881d05))
          else
            Pick(i - 44, Operand(9, 4, 0xd9d4d039), Operand(12, 11, 0xe6db99e5),
                 Operand(15, 16, 0x1fa27cf8), Operand(2, 23, 0xc4ac5665))
      else
        if i < 56 then
          if i < 52 then
            Pick(i - 48, Operand(0, 6, 0xf4292244), Operand(7, 10, 0x432aff97),
                 Operand(14, 15, 0xab9423a7), Operand(5, 21, 0xfc93a039))
          else
            Pick(i - 52, Operand(12, 6, 0x655b59c3), Operand(3, 10, 0x8f0ccc92),
                 Operand(10, 15, 0xffeff47d), Operand(1, 21, 0x85845dd1))
        else
          if i < 60 then
            Pick(i - 56, Operand(8, 6, 0x6fa87e4f), Operand(15, 10, 0xfe2ce6e0),
                 Operand(6, 15, 0xa3014314), Operand(13, 21, 0x4e0811a1))
          else
            Pick(i - 60, Operand(4, 6, 0xf7537e82), Operand(11, 10, 0xbd3af235),
                 Operand(2, 15, 0x2ad7d2bb), Operand(9, 21, 0xeb86d391))
  }

  function Pick(j: int, o0: Operand, o1: Operand, o2: Operand, o3: Operand): Operand {
    if j < 2 then (if j < 1 then o0 else o1) else (if j < 3 then o2 else o3)
  }

  function Mix(i: nat, x: Word, y: Word, z: Word): Word {
    if i < 16 then F(x, y, z) else if i < 32 then G(x, y, z) else if i < 48 then H(x, y, z) else I(x, y, z)
  }

  /** One RFC operation: a = b + ((a + f(b, c, d) + X[k] + T[i]) <<< s). */
  function Operation(a: Word, b: Word, mix: Word, x: Word, s: Word, t: Word): Word
    requires s <= 32
  {
    b + RotateLeft(a + mix + x + t, s)
  }

  /** Step i of the loop; the variables then change roles, so the updated one sits in the second place. */
  function Step(s: State, x: seq<Word>, i: nat): State
    requires |x| == 16 && i < 64
  {
    var Operand(k, shift, t) := Schedule(i);
    State(s.d, Operation(s.a, s.b, Mix(i, s.b, s.c, s.d), x[k], shift, t), s.b, s.c)
  }

  function Steps(s: State, x: seq<Word>, n: nat): State
    requires |x| == 16 && n <= 64
  {
    if n == 0 then s else Step(Steps(s, x, n - 1), x, n - 1)
  }

  function AddStates(s: State, t: State): State {
    State(s.a + t.a, s.b + t.b, s.c + t.c, s.d + t.d)
  }

  /** The effect of one 64-byte block on the chaining variables. */
  function Compress(s: State, block: seq<Byte>): State
    requires |block| == 64
  {
    AddStates(s, Steps(s, Decode(block), |block|))
  }

  // ----- md5.cpp: the macro calls -----

  /** All 65 states the RFC loop passes through. */
  ghost function Trace(s: State, x: seq<Word>): (trace: seq<State>)
    requires |x| == 16
    ensures |trace| == 65 && trace[0] == s && trace[64] == Steps(s, x, 64)
    ensures IsTrace(trace, x)
  {
    seq(65, i requires 0 <= i < 65 => Steps(s, x, i))
  }

  ghost predicate IsTrace(trace: seq<State>, x: seq<Word>) {
    && |x| == 16
    && |trace| == 65
    && forall i {:trigger Step(trace[i], x, i)} :: 0 <= i < 64 ==> trace[i + 1] == Step(trace[i], x, i)
  }

  /** The three assignments common to the FF, GG, HH and II macros. */
  function Macro(f: Word, a: Word, b: Word, x: Word, s: Word, ac: Word): Word
    requires s <= 32
  {
    RotateLeft(a + (f + x + ac), s) + b
  }

  lemma MacroIsOperation(f: Word, a: Word, b: Word, x: Word, s: Word, ac: Word)
    requires s <= 32
    ensures Macro(f, a, b, x, s, ac) == Operation(a, b, f, x, s, ac)
  {
  }

  method FF(a: Word, b: Word, c: Word, d: Word, x: Word, s: Rotation, ac: Word,
            ghost trace: seq<State>, ghost xs: seq<Word>, ghost i: nat)
    returns (r: Word)
    requires IsTrace(trace, xs) && 0 <= i < 16 && State(a, b, c, d) == trace[i]
    requires exists k: Index :: Operand(k, s, ac) == Schedule(i) && x == xs[k]
    ensures State(d, r, b, c) == trace[i + 1]
  {
    assert trace[i + 1] == Step(trace[i], xs, i);
    r := Macro(F(b, c, d), a, b, x, s, ac);
    MacroIsOperation(F(b, c, d), a, b, x, s, ac);
  }

  method GG(a: Word, b: Word, c: Word, d: Word, x: Word, s: Rotation, ac: Word,
            ghost trace: seq<State>, ghost xs: seq<Word>, ghost i: nat)
    returns (r: Word)
    requires IsTrace(trace, xs) && 16 <= i < 32 && State(a, b, c, d) == trace[i]
    requires exists k: Index :: Operand(k, s, ac) == Schedule(i) && x == xs[k]
    ensures State(d, r, b, c) == trace[i + 1]
  {
    assert trace[i + 1] == Step(trace[i], xs, i);
    r := Macro(G(b, c, d), a, b, x, s, ac);
    MacroIsOperation(G(b, c, d), a, b, x, s, ac);
  }

  method HH(a: Word, b: Word, c: Word, d: Word, x: Word, s: Rotation, ac: Word,
            ghost trace: seq<State>, ghost xs: seq<Word>, ghost i: nat)
    returns (r: Word)
    requires IsTrace(trace, xs) && 32 <= i < 48 && State(a, b, c, d) == trace[i]
    requires exists k: Index :: Operand(k, s, ac) == Schedule(i) && x == xs[k]
    ensures State(d, r, b, c) == trace[i + 1]
  {
    assert trace[i + 1] == Step(trace[i], xs, i);
    r := Macro(H(b, c, d), a, b, x, s, ac);
    MacroIsOperation(H(b, c, d), a, b, x, s, ac);
  }

  method II(a: Word, b: Word, c: Word, d: Word, x: Word, s: Rotation, ac: Word,
            ghost trace: seq<State>, ghost xs: seq<Word>, ghost i: nat)
    returns (r: Word)
    requires IsTrace(trace, xs) && 48 <= i < 64 && State(a, b, c, d) == trace[i]
    requires exists k: Index :: Operand(k, s, ac) == Schedule(i) && x == xs[k]
    ensures State(d, r, b, c) == trace[i + 1]
  {
    assert trace[i + 1] == Step(trace[i], xs, i);
    r := Macro(I(b, c, d), a, b, x, s, ac);
    MacroIsOperation(I(b, c, d), a, b, x, s, ac);
  }

  method Round1(a0: Word, b0: Word, c0: Word, d0: Word, x: seq<Word>, ghost trace: seq<State>)
    returns (a: Word, b: Word, c: Word, d: Word)
    requires IsTrace(trace, x) && State(a0, b0, c0, d0) == trace[0]
    ensures State(a, b, c, d) == trace[16]
  {
    a, b, c, d := a0, b0, c0, d0;
    a := FF(a, b, c, d, x[0], 7, 0xd76aa478, trace, x, 0);
    d := FF(d, a, b, c, x[1], 12, 0xe8c7b756, trace, x, 1);
    c := FF(c, d, a, b, x[2], 17, 0x242070db, trace, x, 2);
    b := FF(b, c, d, a, x[3], 22, 0xc1bdceee, trace, x, 3);
    a := FF(a, b, c, d, x[4], 7, 0xf57c0faf, trace, x, 4);
    d := FF(d, a, b, c, x[5], 12, 0x4787c62a, trace, x, 5);
    c := FF(c, d, a, b, x[6], 17, 0xa8304613, trace, x, 6);
    b := FF(b, c, d, a, x[7], 22, 0xfd469501, trace, x, 7);
    a := FF(a, b, c, d, x[8], 7, 0x698098d8, trace, x, 8);
    d := FF(d, a, b, c, x[9], 12, 0x8b44f7af, trace, x, 9);
    c := FF(c, d, a, b, x[10], 17, 0xffff5bb1, trace, x, 10);
    b := FF(b, c, d, a, x[11], 22, 0x895cd7be, trace, x, 11);
    a := FF(a, b, c, d, x[12], 7, 0x6b901122, trace, x, 12);
    d := FF(d, a, b, c, x[13], 12, 0xfd987193, trace, x, 13);
    c := FF(c, d, a, b, x[14], 17, 0xa679438e, trace, x, 14);
    b := FF(b, c, d, a, x[15], 22, 0x49b40821, trace, x, 15);
  }

  method Round2(a0: Word, b0: Word, c0: Word, d0: Word, x: seq<Word>, ghost trace: seq<State>)
    returns (a: Word, b: Word, c: Word, d: Word)
    requires IsTrace(trace, x) && State(a0, b0, c0, d0) == trace[16]
    ensures State(a, b, c, d) == trace[32]
  {
    a, b, c, d := a0, b0, c0, d0;
    a := GG(a, b, c, d, x[1], 5, 0xf61e2562, trace, x, 16);
    d := GG(d, a, b, c, x[6], 9, 0xc040b340, trace, x, 17);
    c := GG(c, d, a, b, x[11], 14, 0x265e5a51, trace, x, 18);
    b := GG(b, c, d, a, x[0], 20, 0xe9b6c7aa, trace, x, 19);
    a := GG(a, b, c, d, x[5], 5, 0xd62f105d, trace, x, 20);
    d := GG(d, a, b, c, x[10], 9, 0x02441453, trace, x, 21);
    c := GG(c, d, a, b, x[15], 14, 0xd8a1e681, trace, x, 22);
    b := GG(b, c, d, a, x[4], 20, 0xe7d3fbc8, trace, x, 23);
    a := GG(a, b, c, d, x[9], 5, 0x21e1cde6, trace, x, 24);
    d := GG(d, a, b, c, x[14], 9, 0xc33707d6, trace, x, 25);
    c := GG(c, d, a, b, x[3], 14, 0xf4d50d87, trace, x, 26);
    b := GG(b, c, d, a, x[8], 20, 0x455a14ed, trace, x, 27);
    a := GG(a, b, c, d, x[13], 5, 0xa9e3e905, trace, x, 28);
    d := GG(d, a, b, c, x[2], 9, 0xfcefa3f8, trace, x, 29);
    c := GG(c, d, a, b, x[7], 14, 0x676f02d9, trace, x, 30);
    b := GG(b, c, d, a, x[12], 20, 0x8d2a4c8a, trace, x, 31);
  }

  method Round3(a0: Word, b0: Word, c0: Word, d0: Word, x: seq<Word>, ghost trace: seq<State>)
    returns (a: Word, b: Word, c: Word, d: Word)
    requires IsTrace(trace, x) && State(a0, b0, c0, d0) == trace[32]
    ensures State(a, b, c, d) == trace[48]
  {
    a, b, c, d := a0, b0, c0, d0;
    a := HH(a, b, c, d, x[5], 4, 0xfffa3942, trace, x, 32);
    d := HH(d, a, b, c, x[8], 11, 0x8771f681, trace, x, 33);
    c := HH(c, d, a, b, x[11], 16, 0x6d9d6122, trace, x, 34);
    b := HH(b, c, d, a, x[14], 23, 0xfde5380c, trace, x, 35);
    a := HH(a, b, c, d, x[1], 4, 0xa4beea44, trace, x, 36);
    d := HH(d, a, b, c, x[4], 11, 0x4bdecfa9, trace, x, 37);
    c := HH(c, d, a, b, x[7], 16, 0xf6bb4b60, trace, x, 38);
    b := HH(b, c, d, a, x[10], 23, 0xbebfbc70, trace, x, 39);
    a := HH(a, b, c, d, x[13], 4, 0x289b7ec6, trace, x, 40);
    d := HH(d, a, b, c, x[0], 11, 0xeaa127fa, trace, x, 41);
    c := HH(c, d, a, b, x[3], 16, 0xd4ef3085, trace, x, 42);
    b := HH(b, c, d, a, x[6], 23, 0x04881d05, trace, x, 43);
    a := HH(a, b, c, d, x[9], 4, 0xd9d4d039, trace, x, 44);
    d := HH(d, a, b, c, x[12], 11, 0xe6db99e5, trace, x, 45);
    c := HH(c, d, a, b, x[15], 16, 0x1fa27cf8, trace, x, 46);
    b := HH(b, c, d, a, x[2], 23, 0xc4ac5665, trace, x, 47);
  }

  method Round4(a0: Word, b0: Word, c0: Word, d0: Word, x: seq<Word>, ghost trace: seq<State>)
    returns (a: Word, b: Word, c: Word, d: Word)
    requires IsTrace(trace, x) && State(a0, b0, c0, d0) == trace[48]
    ensures State(a, b, c, d) == trace[64]
  {
    a, b, c, d := a0, b0, c0, d0;
    a := II(a, b, c, d, x[0], 6, 0xf4292244, trace, x, 48);
    d := II(d, a, b, c, x[7], 10, 0x432aff97, trace, x, 49);
    c := II(c, d, a, b, x[14], 15, 0xab9423a7, trace, x, 50);
    b := II(b, c, d, a, x[5], 21, 0xfc93a039, trace, x, 51);
    a := II(a, b, c, d, x[12], 6, 0x655b59c3, trace, x, 52);
    d := II(d, a, b, c, x[3], 10, 0x8f0ccc92, trace, x, 53);
    c := II(c, d, a, b, x[10], 15, 0xffeff47d, trace, x, 54);
    b := II(b, c, d, a, x[1], 21, 0x85845dd1, trace, x, 55);
    a := II(a, b, c, d, x[8], 6, 0x6fa87e4f, trace, x, 56);
    d := II(d, a, b, c, x[15], 10, 0xfe2ce6e0, trace, x, 57);
    c := II(c, d, a, b, x[6], 15, 0xa3014314, trace, x, 58);
    b := II(b, c, d, a, x[13], 21, 0x4e0811a1, trace, x, 59);
    a := II(a, b, c, d, x[4], 6, 0xf7537e82, trace, x, 60);
    d := II(d, a, b, c, x[11], 10, 0xbd3af235, trace, x, 61);
    c := II(c, d, a, b, x[2], 15, 0x2ad7d2bb, trace, x, 62);
    b := II(b, c, d, a, x[9], 21, 0xeb86d391, trace, x, 63);
  }

  /** The register part of MD5::transform: 64 unrolled steps compute what the RFC loop computes. */
  method Rounds(s: State, x: seq<Word>) returns (r: State)
    requires |x| == 16
    ensures r == Steps(s, x, 64)
  {
    ghost var trace := Trace(s, x);
    var a, b, c, d := s.a, s.b, s.c, s.d;
    a, b, c, d := Round1(a, b, c, d, x, trace);
    a, b, c, d := Round2(a, b, c, d, x, trace);
    a, b, c, d := Round3(a, b, c, d, x, trace);
    a, b, c, d := Round4(a, b, c, d, x, trace);
    r := State(a, b, c, d);
  }
}
