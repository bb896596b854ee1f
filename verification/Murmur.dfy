/** MurmurHash2 on the bytes of a path (daemon/src/hashtable/hashtable.c:75-124), in 32-bit
    unsigned arithmetic that wraps around. */
module Murmur {
  const TWO32 := 0x1_0000_0000

  // The operations on 32-bit words.

  function Times(h: bv32): bv32 {
    h * 0x5bd1e995
  }

  function Xor(a: bv32, b: bv32): bv32 {
    a ^ b
  }

  function ShiftRight(h: bv32, n: nat): bv32
    requires n < 32
  {
    h >> n
  }

  /** One char of a C string as an unsigned byte, moved up by n bits. */
  function Byte(c: char, n: nat): bv32
    requires n < 32
  {
    (c as int % 256) as bv32 << n
  }

  function Or(a: bv32, b: bv32): bv32 {
    a | b
  }

  // The hash.

  function Mix(k: bv32): bv32 {
    Times(Xor(Times(k), ShiftRight(Times(k), 24)))
  }

  function Word(s: string): bv32
    requires |s| >= 4
  {
    Or(Or(Or(Byte(s[0], 0), Byte(s[1], 8)), Byte(s[2], 16)), Byte(s[3], 24))
  }

  function Body(h: bv32, s: string): bv32
    decreases s
  {
    if |s| < 4 then h else Body(Xor(Times(h), Mix(Word(s))), s[4..])
  }

  function Tail(h: bv32, s: string): bv32
    requires |s| < 4
  {
    var h3 := if |s| >= 3 then Xor(h, Byte(s[2], 16)) else h;
    var h2 := if |s| >= 2 then Xor(h3, Byte(s[1], 8)) else h3;
    if |s| >= 1 then Times(Xor(h2, Byte(s[0], 0))) else h2
  }

  function Finish(h: bv32): bv32 {
    var h1 := Times(Xor(h, ShiftRight(h, 13)));
    Xor(h1, ShiftRight(h1, 15))
  }

  function Start(n: nat): bv32 {
    (n % TWO32) as bv32
  }

  /** Whole words from the front, then the last 0 to 3 bytes, then the final mixing. */
  function Hash(s: string): bv32 {
    Finish(Tail(Body(Start(|s|), s), s[|s| - |s| % 4..]))
  }

  method MurmurHash2(key: string) returns (h: bv32)
    ensures h == Hash(key)
  {
    hide Times;
    hide Xor;
    hide Or;
    hide ShiftRight;
    hide Byte;
    hide Start;
    var len := |key|;
    h := Start(len);
    var data := 0;
    while len >= 4
      invariant 0 <= data <= |key| && data + len == |key| && data % 4 == 0
      invariant Body(h, key[data..]) == Body(Start(|key|), key)
    {
      var k := Byte(key[data], 0);
      k := Or(k, Byte(key[data + 1], 8));
      k := Or(k, Byte(key[data + 2], 16));
      k := Or(k, Byte(key[data + 3], 24));
      assert k == Word(key[data..]);
      k := Times(k);
      k := Xor(k, ShiftRight(k, 24));
      k := Times(k);
      h := Times(h);
      h := Xor(h, k);
      assert key[data..][4..] == key[data + 4..];
      data := data + 4;
      len := len - 4;
    }
    assert key[data..] == key[|key| - |key| % 4..];
    // the cases of the switch fall through
    if len >= 3 {
      h := Xor(h, Byte(key[data + 2], 16));
    }
    if len >= 2 {
      h := Xor(h, Byte(key[data + 1], 8));
    }
    if len >= 1 {
      h := Xor(h, Byte(key[data], 0));
      h := Times(h);
    }
    h := Xor(h, ShiftRight(h, 13));
    h := Times(h);
    h := Xor(h, ShiftRight(h, 15));
  }

  // --- Keys that differ in one byte ---

  // Each step can be undone.

  function UndoTimes(x: bv32): bv32 {
    x * 0xe59b19bd
  }

  lemma InverseFactor(h: bv32)
    ensures h * 0x5bd1e995 * 0xe59b19bd == h
  {
  }

  lemma TimesBack(h: bv32)
    ensures UndoTimes(Times(h)) == h
  {
    assert Times(h) == h * 0x5bd1e995;
    assert UndoTimes(h * 0x5bd1e995) == h * 0x5bd1e995 * 0xe59b19bd;
    InverseFactor(h);
  }

  lemma TimesApart(a: bv32, b: bv32)
    requires a != b
    ensures Times(a) != Times(b)
  {
    TimesBack(a);
    TimesBack(b);
    hide Times, UndoTimes;
  }

  lemma XorTwice(a: bv32, c: bv32)
    ensures (a ^ c) ^ c == a && c ^ (c ^ a) == a
  {
  }

  lemma XorBack(a: bv32, c: bv32)
    ensures Xor(Xor(a, c), c) == a && Xor(c, Xor(c, a)) == a
  {
    assert Xor(a, c) == a ^ c && Xor(c, a) == c ^ a;
    assert Xor(a ^ c, c) == (a ^ c) ^ c && Xor(c, c ^ a) == c ^ (c ^ a);
    XorTwice(a, c);
  }

  lemma XorApart(a: bv32, b: bv32, c: bv32)
    requires a != b
    ensures Xor(a, c) != Xor(b, c) && Xor(c, a) != Xor(c, b)
  {
    XorBack(a, c);
    XorBack(b, c);
    hide Xor;
  }

  function Fold(a: bv32, n: nat): bv32
    requires n < 32
  {
    Xor(a, ShiftRight(a, n))
  }

  function Undo24(y: bv32): bv32 {
    y ^ (y >> 24)
  }

  function Undo15(y: bv32): bv32 {
    y ^ (y >> 15) ^ (y >> 30)
  }

  function Undo13(y: bv32): bv32 {
    y ^ (y >> 13) ^ (y >> 26)
  }

  lemma Shifted24(a: bv32)
    ensures (a ^ (a >> 24)) ^ ((a ^ (a >> 24)) >> 24) == a
  {
  }

  lemma Shifted15(a: bv32)
    ensures (a ^ (a >> 15)) ^ ((a ^ (a >> 15)) >> 15) ^ ((a ^ (a >> 15)) >> 30) == a
  {
  }

  lemma Shifted13(a: bv32)
    ensures (a ^ (a >> 13)) ^ ((a ^ (a >> 13)) >> 13) ^ ((a ^ (a >> 13)) >> 26) == a
  {
  }

  lemma FoldBack(a: bv32)
    ensures Undo24(Fold(a, 24)) == a && Undo15(Fold(a, 15)) == a && Undo13(Fold(a, 13)) == a
  {
    FoldIs(a);
    assert Undo24(a ^ (a >> 24)) == (a ^ (a >> 24)) ^ ((a ^ (a >> 24)) >> 24);
    assert Undo15(a ^ (a >> 15)) == (a ^ (a >> 15)) ^ ((a ^ (a >> 15)) >> 15) ^ ((a ^ (a >> 15)) >> 30);
    assert Undo13(a ^ (a >> 13)) == (a ^ (a >> 13)) ^ ((a ^ (a >> 13)) >> 13) ^ ((a ^ (a >> 13)) >> 26);
    Shifted24(a);
    Shifted15(a);
    Shifted13(a);
  }

  lemma FoldIs(a: bv32)
    ensures Fold(a, 24) == a ^ (a >> 24) && Fold(a, 15) == a ^ (a >> 15) && Fold(a, 13) == a ^ (a >> 13)
  {
    XorIs(a, a >> 24);
    XorIs(a, a >> 15);
    XorIs(a, a >> 13);
    ShiftRightIs(a);
    hide Xor, ShiftRight;
  }

  lemma XorIs(a: bv32, b: bv32)
    ensures Xor(a, b) == a ^ b
  {
  }

  lemma ShiftRightIs(a: bv32)
    ensures ShiftRight(a, 24) == a >> 24 && ShiftRight(a, 15) == a >> 15 && ShiftRight(a, 13) == a >> 13
  {
  }

  lemma FoldApart(a: bv32, b: bv32)
    requires a != b
    ensures Fold(a, 24) != Fold(b, 24) && Fold(a, 15) != Fold(b, 15) && Fold(a, 13) != Fold(b, 13)
  {
    FoldBack(a);
    FoldBack(b);
    hide Fold, Undo24, Undo15, Undo13;
  }

  lemma MixApart(a: bv32, b: bv32)
    requires a != b
    ensures Mix(a) != Mix(b)
  {
    hide Times, Xor, ShiftRight;
    TimesApart(a, b);
    FoldApart(Times(a), Times(b));
    TimesApart(Fold(Times(a), 24), Fold(Times(b), 24));
  }

  lemma FinishApart(a: bv32, b: bv32)
    requires a != b
    ensures Finish(a) != Finish(b)
  {
    hide Times, Xor, ShiftRight;
    FoldApart(a, b);
    TimesApart(Fold(a, 13), Fold(b, 13));
    FoldApart(Times(Fold(a, 13)), Times(Fold(b, 13)));
  }

  // Each byte counts.

  function Low(c: char): bv32 {
    (c as int % 256) as bv32
  }

  /** Four bytes can be read off their word. */
  lemma BytesOfWord(a: bv32, b: bv32, c: bv32, d: bv32)
    requires a < 256 && b < 256 && c < 256 && d < 256
    ensures var w := ((a | (b << 8)) | (c << 16)) | (d << 24);
            w & 255 == a && (w >> 8) & 255 == b && (w >> 16) & 255 == c && w >> 24 == d
  {
  }

  lemma LowIsByte(c: char)
    ensures Low(c) < 256
  {
  }

  function ByteAt(w: bv32, n: nat): bv32
    requires n < 4
  {
    if n == 0 then w & 255 else if n == 1 then (w >> 8) & 255 else if n == 2 then (w >> 16) & 255 else w >> 24
  }

  lemma WordOfBytes(a: bv32, b: bv32, c: bv32, d: bv32)
    requires a < 256 && b < 256 && c < 256 && d < 256
    ensures var w := ((a | (b << 8)) | (c << 16)) | (d << 24);
            ByteAt(w, 0) == a && ByteAt(w, 1) == b && ByteAt(w, 2) == c && ByteAt(w, 3) == d
  {
    BytesOfWord(a, b, c, d);
  }

  lemma WordIs(s: string)
    requires |s| >= 4
    ensures Word(s) == ((Low(s[0]) | (Low(s[1]) << 8)) | (Low(s[2]) << 16)) | (Low(s[3]) << 24)
  {
    hide Low;
    ByteIs(s[0]);
    ByteIs(s[1]);
    ByteIs(s[2]);
    ByteIs(s[3]);
  }

  lemma ByteIs(c: char)
    ensures Byte(c, 0) == Low(c) && Byte(c, 8) == Low(c) << 8
    ensures Byte(c, 16) == Low(c) << 16 && Byte(c, 24) == Low(c) << 24
  {
  }

  lemma WordBytes(s: string)
    requires |s| >= 4
    ensures ByteAt(Word(s), 0) == Low(s[0]) && ByteAt(Word(s), 1) == Low(s[1])
    ensures ByteAt(Word(s), 2) == Low(s[2]) && ByteAt(Word(s), 3) == Low(s[3])
  {
    WordIs(s);
    LowIsByte(s[0]);
    LowIsByte(s[1]);
    LowIsByte(s[2]);
    LowIsByte(s[3]);
    WordOfBytes(Low(s[0]), Low(s[1]), Low(s[2]), Low(s[3]));
    hide Word, Low, ByteAt;
  }

  lemma ShiftedBytesApart(a: bv32, b: bv32)
    requires a != b && a < 256 && b < 256
    ensures a << 8 != b << 8 && a << 16 != b << 16
  {
  }

  lemma ByteApart(a: char, b: char, n: nat)
    requires Low(a) != Low(b) && (n == 0 || n == 8 || n == 16)
    ensures Byte(a, n) != Byte(b, n)
  {
    LowIsByte(a);
    LowIsByte(b);
    ByteIs(a);
    ByteIs(b);
    ShiftedBytesApart(Low(a), Low(b));
    hide Low, Byte;
  }

  lemma {:induction false} BodyApart(h: bv32, g: bv32, s: string)
    requires h != g
    ensures Body(h, s) != Body(g, s)
    decreases s
  {
    hide Times, Xor, Mix, Word;
    if |s| >= 4 {
      TimesApart(h, g);
      XorApart(Times(h), Times(g), Mix(Word(s)));
      BodyApart(Xor(Times(h), Mix(Word(s))), Xor(Times(g), Mix(Word(s))), s[4..]);
    }
  }

  lemma TailApart(h: bv32, g: bv32, s: string)
    requires h != g && |s| < 4
    ensures Tail(h, s) != Tail(g, s)
  {
    hide Times, Xor, Byte;
    var h3, g3 := if |s| >= 3 then Xor(h, Byte(s[2], 16)) else h, if |s| >= 3 then Xor(g, Byte(s[2], 16)) else g;
    if |s| >= 3 {
      XorApart(h, g, Byte(s[2], 16));
    }
    var h2, g2 := if |s| >= 2 then Xor(h3, Byte(s[1], 8)) else h3, if |s| >= 2 then Xor(g3, Byte(s[1], 8)) else g3;
    if |s| >= 2 {
      XorApart(h3, g3, Byte(s[1], 8));
    }
    if |s| >= 1 {
      XorApart(h2, g2, Byte(s[0], 0));
      TimesApart(Xor(h2, Byte(s[0], 0)), Xor(g2, Byte(s[0], 0)));
    }
  }

  /** Another byte in a whole word. */
  lemma {:induction false} BodyByteApart(h: bv32, s: string, i: nat, c: char)
    requires i < |s| - |s| % 4 && Low(c) != Low(s[i])
    ensures Body(h, s[i := c]) != Body(h, s)
    decreases s
  {
    hide Times, Xor, Mix, Word;
    var t := s[i := c];
    if i < 4 {
      assert t[4..] == s[4..];
      WordBytes(s);
      WordBytes(t);
      MixApart(Word(t), Word(s));
      XorApart(Mix(Word(t)), Mix(Word(s)), Times(h));
      BodyApart(Xor(Times(h), Mix(Word(t))), Xor(Times(h), Mix(Word(s))), s[4..]);
    } else {
      assert t[4..] == s[4..][i - 4 := c];
      SameWord(s, t);
      BodyByteApart(Xor(Times(h), Mix(Word(s))), s[4..], i - 4, c);
    }
  }

  lemma SameWord(s: string, t: string)
    requires |s| >= 4 && |t| >= 4 && s[..4] == t[..4]
    ensures Word(s) == Word(t)
  {
    assert forall i :: 0 <= i < 4 ==> s[i] == s[..4][i] == t[i];
  }

  /** Another byte among the last 0 to 3. */
  lemma TailByteApart(h: bv32, s: string, i: nat, c: char)
    requires i < |s| < 4 && Low(c) != Low(s[i])
    ensures Tail(h, s[i := c]) != Tail(h, s)
  {
    if i == 2 {
      ByteApart(c, s[2], 16);
    } else if i == 1 {
      ByteApart(c, s[1], 8);
    } else {
      ByteApart(c, s[0], 0);
    }
    hide Times, Xor, Byte, Low;
    var h3, x := if |s| == 3 then Xor(h, Byte(s[2], 16)) else h, if i == 2 then Xor(h, Byte(c, 16)) else h;
    if i == 2 {
      XorApart(Byte(c, 16), Byte(s[2], 16), h);
      TailOfTwo(x, h3, s[1], s[0]);
    } else if i == 1 {
      XorApart(Byte(c, 8), Byte(s[1], 8), h3);
      TailOfOne(Xor(h3, Byte(c, 8)), Xor(h3, Byte(s[1], 8)), s[0]);
    } else {
      var h2 := if |s| >= 2 then Xor(h3, Byte(s[1], 8)) else h3;
      XorApart(Byte(c, 0), Byte(s[0], 0), h2);
      TimesApart(Xor(h2, Byte(c, 0)), Xor(h2, Byte(s[0], 0)));
    }
  }

  lemma TailOfOne(h: bv32, g: bv32, a: char)
    requires h != g
    ensures Times(Xor(h, Byte(a, 0))) != Times(Xor(g, Byte(a, 0)))
  {
    hide Times, Xor, Byte;
    XorApart(h, g, Byte(a, 0));
    TimesApart(Xor(h, Byte(a, 0)), Xor(g, Byte(a, 0)));
  }

  lemma TailOfTwo(h: bv32, g: bv32, b: char, a: char)
    requires h != g
    ensures Times(Xor(Xor(h, Byte(b, 8)), Byte(a, 0))) != Times(Xor(Xor(g, Byte(b, 8)), Byte(a, 0)))
  {
    hide Times, Xor, Byte;
    XorApart(h, g, Byte(b, 8));
    TailOfOne(Xor(h, Byte(b, 8)), Xor(g, Byte(b, 8)), a);
  }

  /** Every byte of a key counts: keys of one length that differ in one byte have different hashes. */
  lemma OneByteApart(s: string, i: nat, c: char)
    requires i < |s| && Low(c) != Low(s[i])
    ensures Hash(s[i := c]) != Hash(s)
  {
    hide Body, Tail, Finish, Low, Start;
    var t, n := s[i := c], |s| - |s| % 4;
    var h := Start(|s|);
    if i < n {
      assert t[n..] == s[n..];
      BodyByteApart(h, s, i, c);
      TailApart(Body(h, t), Body(h, s), s[n..]);
      FinishApart(Tail(Body(h, t), s[n..]), Tail(Body(h, s), s[n..]));
    } else {
      assert t[n..] == s[n..][i - n := c];
      SameWholeWords(h, s, i, c);
      TailByteApart(Body(h, s), s[n..], i - n, c);
      FinishApart(Tail(Body(h, s), t[n..]), Tail(Body(h, s), s[n..]));
    }
  }

  lemma {:induction false} SameWholeWords(h: bv32, s: string, i: nat, c: char)
    requires |s| - |s| % 4 <= i < |s|
    ensures Body(h, s[i := c]) == Body(h, s)
    decreases s
  {
    hide Times, Xor, Mix, Word;
    var t := s[i := c];
    if |s| >= 4 {
      assert t[4..] == s[4..][i - 4 := c];
      SameWord(s, t);
      SameWholeWords(Xor(Times(h), Mix(Word(s))), s[4..], i - 4, c);
    }
  }

  // Two keys, with the values that the arithmetic of the program gives.

  lemma LowIs(c: char, n: bv32)
    requires 0 <= c as int < 256 && (c as int) as bv32 == n
    ensures Low(c) == n
  {
    assert c as int % 256 == c as int;
  }

  lemma LettersAre()
    ensures Low('a') == 0x61 && Low('b') == 0x62 && Low('c') == 0x63 && Low('d') == 0x64
  {
    LowIs('a', 0x61);
    LowIs('b', 0x62);
    LowIs('c', 0x63);
    LowIs('d', 0x64);
  }

  lemma BytesAre()
    ensures Byte('a', 0) == 0x61 && Byte('b', 8) == 0x6200 && Byte('c', 16) == 0x630000
  {
    LettersAre();
    ByteIs('a');
    ByteIs('b');
    ByteIs('c');
    hide Low, Byte;
  }

  lemma StepsOfAbc()
    ensures Xor(3, 0x630000) == 0x630003 && Xor(0x630003, 0x6200) == 0x636203
    ensures Xor(0x636203, 0x61) == 0x636262 && Times(0x636262) == 0xd665750a
    ensures ShiftRight(0xd665750a, 13) == 0x6b32b && Xor(0xd665750a, 0x6b32b) == 0xd663c621
    ensures Times(0xd663c621) == 0x13575a35 && ShiftRight(0x13575a35, 15) == 0x26ae
    ensures Xor(0x13575a35, 0x26ae) == 0x13577c9b
  {
  }

  lemma HashOfAbc()
    ensures Hash("abc") == 0x13577c9b
  {
    BytesAre();
    StepsOfAbc();
    assert Start(3) == 3;
    hide Byte, Xor, Times, ShiftRight, Start, Or, Mix, Word;
    assert "abc"[0..] == "abc" && Body(3, "abc") == 3;
  }

  lemma StepsOfAbcd()
    ensures Times(0x64636261) == 0xae938b75 && ShiftRight(0xae938b75, 24) == 0xae
    ensures Xor(0xae938b75, 0xae) == 0xae938bdb && Times(0xae938bdb) == 0xecf5b977
    ensures Times(4) == 0x6f47a654 && Xor(0x6f47a654, 0xecf5b977) == 0x83b21f23
    ensures ShiftRight(0x83b21f23, 13) == 0x41d90 && Xor(0x83b21f23, 0x41d90) == 0x83b602b3
    ensures Times(0x83b602b3) == 0x26877d2f && ShiftRight(0x26877d2f, 15) == 0x4d0e
    ensures Xor(0x26877d2f, 0x4d0e) == 0x26873021
  {
  }

  lemma LettersJoined()
    ensures ((0x61 as bv32 | (0x62 as bv32 << 8)) | (0x63 as bv32 << 16)) | (0x64 as bv32 << 24) == 0x64636261
  {
  }

  lemma HashOfAbcd()
    ensures Hash("abcd") == 0x26873021
  {
    WordIs("abcd");
    LettersAre();
    LettersJoined();
    hide Low;
    assert Word("abcd") == 0x64636261;
    StepsOfAbcd();
    assert Start(4) == 4;
    hide Word, Xor, Times, ShiftRight, Start, Byte, Or;
    assert "abcd"[4..] == "" && Mix(0x64636261) == 0xecf5b977;
    assert Body(0x83b21f23, "") == 0x83b21f23;
  }
}
