/** The word rewriter of BIZZBUZZ (BIZZBUZZ/main.c:93-395): it reads a file in blocks and writes
    it again with the words that are numbers replaced by what divides them. */
module BizzBuzz {
  import opened CType

  const MAX_LEN := 4096

  function DigitOf(c: char): int
    requires IsDigit(c)
  {
    c as int - '0' as int
  }

  // --- What the output ought to be ---

  predicate AllDigits(s: string) {
    forall i :: 0 <= i < |s| ==> IsDigit(s[i])
  }

  /** The number a string of digits stands for, of any size. */
  function Magnitude(d: string): (n: nat)
    requires AllDigits(d)
  {
    if d == "" then 0 else 10 * Magnitude(d[..|d| - 1]) + DigitOf(d[|d| - 1])
  }

  function Unsigned(w: string): string {
    if w != "" && w[0] == '-' then w[1..] else w
  }

  predicate IsNumber(w: string) {
    Unsigned(w) != "" && AllDigits(Unsigned(w))
  }

  function Value(w: string): int
    requires IsNumber(w)
  {
    if w[0] == '-' then 0 - Magnitude(Unsigned(w)) else Magnitude(Unsigned(w))
  }

  function RewriteWord(w: string): string {
    if !IsNumber(w) then w
    else if Value(w) % 15 == 0 then "bizzbuzz"
    else if Value(w) % 3 == 0 then "bizz"
    else if Value(w) % 5 == 0 then "buzz"
    else w
  }

  function WordLen(s: string): (k: nat)
    ensures k <= |s| && (k < |s| ==> IsSpace(s[k]))
    ensures s != "" && !IsSpace(s[0]) ==> k > 0
  {
    if s == "" || IsSpace(s[0]) then 0 else 1 + WordLen(s[1..])
  }

  /** Every maximal word is rewritten; all else stays. */
  function Rewrite(s: string): string
    decreases |s|
  {
    if s == "" then ""
    else if IsSpace(s[0]) then [s[0]] + Rewrite(s[1..])
    else RewriteWord(s[..WordLen(s)]) + Rewrite(s[WordLen(s)..])
  }

  // --- Numbers as they are written ---

  function DigitChar(n: nat): (c: char)
    requires n < 10
    ensures IsDigit(c) && DigitOf(c) == n
  {
    ('0' as int + n) as char
  }

  function Digits(n: nat): string {
    if n < 10 then [DigitChar(n)] else Digits(n / 10) + [DigitChar(n % 10)]
  }

  /** The usual decimal form, with a leading sign for a number below zero. */
  function Decimal(n: int): string {
    if n < 0 then "-" + Digits(-n) else Digits(n)
  }

  lemma {:induction false} DigitsReadBack(n: nat)
    ensures Digits(n) != "" && AllDigits(Digits(n)) && Magnitude(Digits(n)) == n
  {
    var d := Digits(n);
    if n < 10 {
      assert d[..0] == "" && Magnitude("") == 0;
    } else {
      DigitsReadBack(n / 10);
      assert d[..|d| - 1] == Digits(n / 10);
    }
  }

  /** Every integer, of any size and either sign, is read back from its decimal form. */
  lemma DecimalReadBack(n: int)
    ensures IsNumber(Decimal(n)) && Value(Decimal(n)) == n
  {
    if n < 0 {
      DigitsReadBack(-n);
      assert Decimal(n)[1..] == Digits(-n);
    } else {
      DigitsReadBack(n);
      assert Digits(n)[0] != '-';
    }
  }

  /** What is written for an integer depends on what divides it. */
  lemma IntegersRewritten(n: int)
    ensures RewriteWord(Decimal(n)) ==
            if n % 15 == 0 then "bizzbuzz" else if n % 3 == 0 then "bizz" else if n % 5 == 0 then "buzz" else Decimal(n)
  {
    DecimalReadBack(n);
  }

  // --- Divisibility by digits ---

  function DigitSum(d: string): (n: nat)
    requires AllDigits(d)
  {
    if d == "" then 0 else DigitSum(d[..|d| - 1]) + DigitOf(d[|d| - 1])
  }

  lemma DigitModThree(m: int, sum: int, d: int)
    requires m % 3 == sum % 3
    ensures (10 * m + d) % 3 == (sum + d) % 3
  {
    assert 10 * m + d == 3 * (3 * m) + (m + d);
  }

  lemma {:induction false} SumModThree(d: string)
    requires AllDigits(d)
    ensures Magnitude(d) % 3 == DigitSum(d) % 3
    decreases d
  {
    if d != "" {
      var rest := d[..|d| - 1];
      SumModThree(rest);
      DigitModThree(Magnitude(rest), DigitSum(rest), DigitOf(d[|d| - 1]));
    }
  }

  lemma LastModFive(d: string)
    requires AllDigits(d) && d != ""
    ensures Magnitude(d) % 5 == DigitOf(d[|d| - 1]) % 5
  {
  }

  datatype Type = Default | Str | Bizz | Buzz | BizzBuzz

  function TypeBy(sum: int, last: int): Type {
    if sum % 3 == 0 && last % 5 == 0 then BizzBuzz
    else if sum % 3 == 0 then Bizz
    else if last % 5 == 0 then Buzz
    else Str
  }

  /** What anylise_word makes of a word when it starts with the digit state carry. */
  function TypeOf(w: string, carry: int): Type {
    if !IsNumber(w) then Str
    else TypeBy(carry + DigitSum(Unsigned(w)), DigitOf(w[|w| - 1]))
  }

  function Shown(t: Type, w: string): string {
    match t
    case Bizz => "bizz"
    case Buzz => "buzz"
    case BizzBuzz => "bizzbuzz"
    case _ => w
  }

  lemma NegatedByThree(m: int)
    ensures (0 - m) % 3 == 0 <==> m % 3 == 0
  {
  }

  lemma NegatedByFive(m: int)
    ensures (0 - m) % 5 == 0 <==> m % 5 == 0
  {
  }

  lemma Fifteen(m: int)
    ensures m % 15 == 0 <==> m % 3 == 0 && m % 5 == 0
  {
    var r := m % 15;
    assert m == 3 * (5 * (m / 15)) + r && m == 5 * (3 * (m / 15)) + r;
    assert m % 3 == r % 3;
    assert m % 5 == r % 5;
  }

  /** Unbounded divisibility comes down to the digit sum and the last digit. */
  lemma DigitsDecide(w: string)
    ensures Shown(TypeOf(w, 0), w) == RewriteWord(w)
  {
    if IsNumber(w) {
      var d := Unsigned(w);
      SumModThree(d);
      LastModFive(d);
      assert w[|w| - 1] == d[|d| - 1];
      var m: int := Magnitude(d);
      Fifteen(m);
      Fifteen(0 - m);
      NegatedByThree(m);
      NegatedByFive(m);
      hide Magnitude, DigitSum, AllDigits, Unsigned;
    }
  }

  // --- What the program makes of a word ---

  function LeadingDigits(s: string): (d: string)
    ensures AllDigits(d) && d <= s && (|d| < |s| ==> !IsDigit(s[|d|]))
  {
    if s == "" || !IsDigit(s[0]) then "" else [s[0]] + LeadingDigits(s[1..])
  }

  /** The digit state after a part of a word has been analysed. */
  function StateAfter(part: string, state: int): (r: int)
    ensures 0 <= r < 3
  {
    (state + DigitSum(LeadingDigits(Unsigned(part)))) % 3
  }

  /** How much of its block is left from byte pos on. */
  function Room(pos: nat): (r: nat)
    ensures 0 < r <= MAX_LEN
  {
    MAX_LEN - pos % MAX_LEN
  }

  predicate AtBlockEnd(pos: nat) {
    pos % MAX_LEN == 0
  }

  lemma RoomEndsBlock(pos: nat)
    ensures AtBlockEnd(pos + Room(pos))
  {
  }

  /** From the end of a block on the room is a whole block; no other block ends before the room does. */
  lemma NextBlock(pos: nat, length: nat)
    requires AtBlockEnd(pos + length)
    ensures length > 0 ==> length >= Room(pos)
    ensures AtBlockEnd(pos) ==> Room(pos) == MAX_LEN
  {
  }

  /** The type found so far and the digit state. */
  datatype Verdict = Verdict(kind: Type, state: int)

  /** A part that reaches the end of its block: it is analysed with the old state, unless an earlier part
      came to Str: no number, or one that nothing is to be put in place of. */
  function Unfinished(part: string, v: Verdict): Verdict {
    if v.kind == Str then v else Verdict(TypeOf(part, v.state), StateAfter(part, v.state))
  }

  /** The verdict on a word, or the rest of one, at byte pos of the file. Blocks cut it into parts. When
      white space follows the last part within its block, that part alone is analysed, from a
      clear state, and decides. */
  function Judge(w: string, pos: nat, followed: bool, v: Verdict): Verdict
    decreases |w|
  {
    var room := Room(pos);
    if w == "" then v
    else if |w| < room && followed then Verdict(TypeOf(w, 0), StateAfter(w, 0))
    else if |w| <= room then Unfinished(w, v)
    else Judge(w[room..], pos + room, followed, Unfinished(w[..room], v))
  }

  /** The output for the rest s of the file, from byte pos on. */
  function Output(s: string, pos: nat, state: int): string
    decreases |s|
  {
    if s == "" then ""
    else if IsSpace(s[0]) then [s[0]] + Output(s[1..], pos + 1, state)
    else
      var k := WordLen(s);
      var v := Judge(s[..k], pos, k < |s|, Verdict(Default, state));
      Shown(v.kind, s[..k]) + Output(s[k..], pos + k, v.state)
  }

  // --- When the output is right ---

  /** Every word gets the type that its digits have from a clear state. */
  predicate AllJudgedRight(s: string, pos: nat, state: int)
    decreases |s|
  {
    if s == "" then true
    else if IsSpace(s[0]) then AllJudgedRight(s[1..], pos + 1, state)
    else
      var k := WordLen(s);
      var v := Judge(s[..k], pos, k < |s|, Verdict(Default, state));
      v.kind == TypeOf(s[..k], 0) && AllJudgedRight(s[k..], pos + k, v.state)
  }

  predicate NoSpace(s: string) {
    forall i :: 0 <= i < |s| ==> !IsSpace(s[i])
  }

  lemma {:induction false} WordHasNoSpace(s: string)
    ensures NoSpace(s[..WordLen(s)])
    decreases s
  {
    if s != "" && !IsSpace(s[0]) {
      WordHasNoSpace(s[1..]);
      assert s[..WordLen(s)] == [s[0]] + s[1..][..WordLen(s[1..])];
    }
  }

  lemma {:induction false} WordLenOfJoined(a: string, x: string)
    requires NoSpace(a) && (x == "" || IsSpace(x[0]))
    ensures WordLen(a + x) == |a|
    decreases a
  {
    if a != "" {
      assert (a + x)[1..] == a[1..] + x;
      WordLenOfJoined(a[1..], x);
    } else {
      assert a + x == x;
    }
  }

  /** Words and what follows them can be told apart. */
  lemma SplitsOneWay(a: string, x: string, b: string, y: string)
    requires NoSpace(a) && NoSpace(b) && (x == "" || IsSpace(x[0])) && (y == "" || IsSpace(y[0]))
    ensures a + x == b + y <==> a == b && x == y
  {
    WordLenOfJoined(a, x);
    WordLenOfJoined(b, y);
    if a + x == b + y {
      assert a == (a + x)[..|a|] && b == (b + y)[..|b|];
      assert x == (a + x)[|a|..] && y == (b + y)[|b|..];
    }
  }

  lemma StartsLikeInput(s: string, pos: nat, state: int)
    requires s == "" || IsSpace(s[0])
    ensures Output(s, pos, state) == "" || IsSpace(Output(s, pos, state)[0])
    ensures Rewrite(s) == "" || IsSpace(Rewrite(s)[0])
  {
  }

  lemma ShownHasNoSpace(t: Type, w: string)
    requires NoSpace(w)
    ensures NoSpace(Shown(t, w))
  {
    assert NoSpace("bizz") && NoSpace("buzz") && NoSpace("bizzbuzz");
  }

  /** Whatever is not shown as it stands ends in a digit. */
  lemma {:induction false} JudgedLast(w: string, pos: nat, followed: bool, v: Verdict)
    requires w != ""
    ensures var j := Judge(w, pos, followed, v);
            j.kind != Default && (j.kind != Str ==> IsDigit(w[|w| - 1]))
    decreases |w|
  {
    var room := Room(pos);
    if |w| > room {
      JudgedLast(w[room..], pos + room, followed, Unfinished(w[..room], v));
    } else {
      TypedLast(w, v.state);
      TypedLast(w, 0);
    }
  }

  lemma TypedLast(w: string, state: int)
    ensures TypeOf(w, state) != Default
    ensures TypeOf(w, state) != Str ==> w != "" && IsDigit(w[|w| - 1])
  {
    if IsNumber(w) {
      assert w[|w| - 1] == Unsigned(w)[|Unsigned(w)| - 1];
    }
  }

  /** Different types of a word are shown differently. */
  lemma TypesAreShown(t: Type, w: string)
    requires w != "" && t != Default && (t != Str ==> IsDigit(w[|w| - 1]))
    ensures Shown(t, w) == RewriteWord(w) <==> t == TypeOf(w, 0)
  {
    DigitsDecide(w);
    TypedLast(w, 0);
    assert "bizz"[3] == 'z' && "buzz"[3] == 'z' && "bizzbuzz"[7] == 'z' && "bizz"[1] != "buzz"[1];
    assert !IsDigit('z');
  }

  /** A word and what follows it, for the theorem below. */
  lemma WordIsRewrite(w: string, v: Verdict, out: string, rest: string)
    requires w != "" && NoSpace(w) && v.kind != Default && (v.kind != Str ==> IsDigit(w[|w| - 1]))
    requires (out == "" || IsSpace(out[0])) && (rest == "" || IsSpace(rest[0]))
    ensures Shown(v.kind, w) + out == RewriteWord(w) + rest <==> v.kind == TypeOf(w, 0) && out == rest
  {
    TypesAreShown(v.kind, w);
    DigitsDecide(w);
    ShownHasNoSpace(v.kind, w);
    ShownHasNoSpace(TypeOf(w, 0), w);
    hide Shown, RewriteWord, TypeOf, NoSpace, IsSpace;
    SplitsOneWay(Shown(v.kind, w), out, RewriteWord(w), rest);
  }

  lemma SpaceIsRewrite(c: char, out: string, rest: string)
    ensures [c] + out == [c] + rest <==> out == rest
  {
    assert ([c] + out)[1..] == out && ([c] + rest)[1..] == rest;
  }

  /** For every file: the output is the specified rewriting exactly when every word is judged right. */
  lemma {:induction false} OutputIsRewrite(s: string, pos: nat, state: int)
    ensures Output(s, pos, state) == Rewrite(s) <==> AllJudgedRight(s, pos, state)
    decreases |s|
  {
    hide Shown, RewriteWord, TypeOf, Judge, NoSpace, WordLen, Output, Rewrite, AllJudgedRight;
    if s == "" {
      EmptyUnfolds(pos, state);
    } else if IsSpace(s[0]) {
      SpaceUnfolds(s, pos, state);
      OutputIsRewrite(s[1..], pos + 1, state);
      SpaceIsRewrite(s[0], Output(s[1..], pos + 1, state), Rewrite(s[1..]));
    } else {
      var k := WordLen(s);
      var v := Judge(s[..k], pos, k < |s|, Verdict(Default, state));
      WordUnfolds(s, pos, state, k, v);
      OutputIsRewrite(s[k..], pos + k, v.state);
      FirstWordIsRewrite(s, pos, state, k, v, Output(s[k..], pos + k, v.state), Rewrite(s[k..]));
    }
  }

  lemma EmptyUnfolds(pos: nat, state: int)
    ensures Output("", pos, state) == "" && Rewrite("") == "" && AllJudgedRight("", pos, state)
  {
  }

  lemma SpaceUnfolds(s: string, pos: nat, state: int)
    requires s != "" && IsSpace(s[0])
    ensures Output(s, pos, state) == [s[0]] + Output(s[1..], pos + 1, state) && Rewrite(s) == [s[0]] + Rewrite(s[1..])
    ensures AllJudgedRight(s, pos, state) == AllJudgedRight(s[1..], pos + 1, state)
  {
  }

  lemma WordUnfolds(s: string, pos: nat, state: int, k: nat, v: Verdict)
    requires s != "" && !IsSpace(s[0]) && k == WordLen(s)
    requires v == Judge(s[..k], pos, k < |s|, Verdict(Default, state))
    ensures Output(s, pos, state) == Shown(v.kind, s[..k]) + Output(s[k..], pos + k, v.state)
    ensures Rewrite(s) == RewriteWord(s[..k]) + Rewrite(s[k..])
    ensures AllJudgedRight(s, pos, state) <==> v.kind == TypeOf(s[..k], 0) && AllJudgedRight(s[k..], pos + k, v.state)
  {
    hide Shown, RewriteWord, TypeOf, Judge, NoSpace, WordLen;
  }

  lemma FirstWordIsRewrite(s: string, pos: nat, state: int, k: nat, v: Verdict, out: string, rest: string)
    requires s != "" && !IsSpace(s[0]) && k == WordLen(s)
    requires v == Judge(s[..k], pos, k < |s|, Verdict(Default, state))
    requires out == Output(s[k..], pos + k, v.state) && rest == Rewrite(s[k..])
    ensures Shown(v.kind, s[..k]) + out == RewriteWord(s[..k]) + rest <==> v.kind == TypeOf(s[..k], 0) && out == rest
  {
    hide Shown, RewriteWord, TypeOf, Judge, NoSpace, WordLen, Output, Rewrite, AllJudgedRight;
    WordHasNoSpace(s);
    JudgedLast(s[..k], pos, k < |s|, Verdict(Default, state));
    StartsLikeInput(s[k..], pos + k, v.state);
    WordIsRewrite(s[..k], v, out, rest);
  }

  // --- Which words are judged right ---

  /** The old digit state does no harm to the word w. */
  predicate Harmless(state: int, w: string) {
    IsNumber(w) && state % 3 != 0 ==>
      Magnitude(Unsigned(w)) % 3 != 0 && (state + Magnitude(Unsigned(w))) % 3 != 0
  }

  lemma HarmlessExactly(w: string, state: int)
    ensures TypeOf(w, state) == TypeOf(w, 0) <==> Harmless(state, w)
  {
    if IsNumber(w) {
      var d := Unsigned(w);
      SumModThree(d);
      hide Magnitude, DigitSum, TypeBy, AllDigits;
      SameThree(state, Magnitude(d), DigitSum(d), DigitOf(w[|w| - 1]));
    }
  }

  lemma SameThree(state: int, m: nat, sum: nat, last: int)
    requires m % 3 == sum % 3
    ensures TypeBy(state + sum, last) == TypeBy(0 + sum, last) <==>
              (state % 3 != 0 ==> m % 3 != 0 && (state + m) % 3 != 0)
  {
  }

  /** A word within one block: always right when white space follows within the block; at the end
      of the block or of the file, right exactly when the state of the word before is harmless. */
  lemma WordInOneBlock(w: string, pos: nat, followed: bool, state: int)
    requires w != "" && |w| <= Room(pos)
    ensures Judge(w, pos, followed, Verdict(Default, state)).kind == TypeOf(w, 0) <==>
              (followed && |w| < Room(pos)) || Harmless(state, w)
  {
    HarmlessExactly(w, state);
  }

  lemma JudgeOn(w: string, pos: nat, followed: bool, v: Verdict)
    requires |w| > Room(pos)
    ensures var room := Room(pos);
            Judge(w, pos, followed, v) == Judge(w[room..], pos + room, followed, Unfinished(w[..room], v))
  {
    hide TypeOf, StateAfter, Unfinished;
  }

  lemma JudgeLast(w: string, pos: nat, v: Verdict)
    requires 0 < |w| < Room(pos)
    ensures Judge(w, pos, true, v) == Verdict(TypeOf(w, 0), StateAfter(w, 0))
  {
  }

  lemma CutInJoined(a: string, b: string, k: nat)
    requires k <= |a|
    ensures (a + b)[k..] == a[k..] + b
  {
  }

  /** Of a word that crosses the end of a block and is followed by white space within the block it
      ends in, only the part in that block counts. */
  lemma {:induction false} LastPartDecides(before: string, part: string, pos: nat, v: Verdict)
    requires before != "" && AtBlockEnd(pos + |before|) && 0 < |part| < MAX_LEN
    ensures Judge(before + part, pos, true, v) == Verdict(TypeOf(part, 0), StateAfter(part, 0))
    decreases |before|
  {
    hide Judge, TypeOf, StateAfter, Unfinished, Room, AtBlockEnd;
    var w, room := before + part, Room(pos);
    NextBlock(pos, |before|);
    RoomEndsBlock(pos);
    NextBlock(pos + room, 0);
    JudgeOn(w, pos, true, v);
    CutInJoined(before, part, room);
    var v' := Unfinished(w[..room], v);
    if |before| > room {
      assert pos + room + |before[room..]| == pos + |before|;
      LastPartDecides(before[room..], part, pos + room, v');
    } else {
      assert before[room..] + part == part;
      JudgeLast(part, pos + room, v');
    }
  }

  lemma {:induction false} SumOfJoined(a: string, b: string)
    requires AllDigits(a) && AllDigits(b)
    ensures AllDigits(a + b) && DigitSum(a + b) == DigitSum(a) + DigitSum(b)
    decreases b
  {
    if b == "" {
      assert a + b == a;
    } else {
      SumOfJoined(a, b[..|b| - 1]);
      assert (a + b)[..|a + b| - 1] == a + b[..|b| - 1];
    }
  }

  /** A number of which a part has gone before is judged right exactly when both, the whole and the
      last part, are multiples of 3 or neither is. */
  lemma PartOfNumber(w: string, part: string, k: nat)
    requires IsNumber(w) && k < |w| && part == w[k..] && (w[0] == '-' ==> k > 0)
    ensures IsNumber(part) && Unsigned(part) == part
    ensures TypeOf(part, 0) == TypeOf(w, 0) <==> (Magnitude(part) % 3 == 0 <==> Magnitude(Unsigned(w)) % 3 == 0)
  {
    var d := Unsigned(w);
    var j := k - (|w| - |d|);
    assert part == d[j..];
    assert forall i :: 0 <= i < |part| ==> part[i] == d[j..][i] == d[j + i];
    assert IsDigit(part[0]);
    SumModThree(part);
    SumModThree(d);
    assert part[|part| - 1] == w[|w| - 1];
  }

  /** Once a part has come to Str, only a last part with white space behind it in its block can
      change that. */
  lemma {:induction false} StrStays(w: string, pos: nat, followed: bool, state: int)
    requires !followed || AtBlockEnd(pos + |w|)
    ensures Judge(w, pos, followed, Verdict(Str, state)) == Verdict(Str, state)
    decreases |w|
  {
    hide TypeOf, StateAfter, Room, AtBlockEnd;
    var room := Room(pos);
    if followed {
      NextBlock(pos, |w|);
    }
    if |w| > room {
      assert pos + room + |w[room..]| == pos + |w|;
      StrStays(w[room..], pos + room, followed, state);
    }
  }

  /** White space at the end of every block, the last included, is enough. */
  predicate BlocksEndInSpace(s: string, pos: nat) {
    forall i :: 0 <= i < |s| && (AtBlockEnd(pos + i + 1) || i + 1 == |s|) ==> IsSpace(s[i])
  }

  lemma {:induction false} NoWordAtBlockEnd(s: string, pos: nat, state: int)
    requires BlocksEndInSpace(s, pos)
    ensures AllJudgedRight(s, pos, state)
    decreases |s|
  {
    if s == "" {
    } else if IsSpace(s[0]) {
      ShorterEndsInSpace(s, pos, 1);
      NoWordAtBlockEnd(s[1..], pos + 1, state);
    } else {
      var k := WordLen(s);
      WordEndsInside(s, pos);
      ShorterEndsInSpace(s, pos, k);
      NoWordAtBlockEnd(s[k..], pos + k, StateAfter(s[..k], 0));
    }
  }

  lemma {:induction false} SpaceEndsWord(s: string, i: nat)
    requires i < |s| && IsSpace(s[i])
    ensures WordLen(s) <= i
    decreases i
  {
    if i > 0 && !IsSpace(s[0]) {
      SpaceEndsWord(s[1..], i - 1);
    }
  }

  lemma WordEndsInside(s: string, pos: nat)
    requires BlocksEndInSpace(s, pos) && s != ""
    ensures WordLen(s) < |s| && WordLen(s) < Room(pos)
  {
    hide AtBlockEnd, Room;
    var room := Room(pos);
    if |s| >= room {
      RoomEndsBlock(pos);
      assert pos + (room - 1) + 1 == pos + room;
      SpaceEndsWord(s, room - 1);
    } else {
      SpaceEndsWord(s, |s| - 1);
    }
  }

  lemma ShorterEndsInSpace(s: string, pos: nat, k: nat)
    requires BlocksEndInSpace(s, pos) && k <= |s|
    ensures BlocksEndInSpace(s[k..], pos + k)
  {
    forall i | 0 <= i < |s[k..]| && (AtBlockEnd(pos + k + i + 1) || i + 1 == |s[k..]|) ensures IsSpace(s[k..][i]) {
      assert (pos + (k + i) + 1) == pos + k + i + 1 && IsSpace(s[k + i]);
    }
  }

  // --- Two files that come out wrong ---

  lemma OneDigit(c: char)
    requires IsDigit(c)
    ensures IsNumber([c]) && Value([c]) == Magnitude([c]) == DigitSum([c]) == DigitOf(c)
    ensures LeadingDigits([c]) == [c] && WordLen([c]) == 1 && Unsigned([c]) == [c]
  {
    assert [c][..0] == "" && [c][1..] == "";
    assert Magnitude("") == 0 && DigitSum("") == 0;
    assert LeadingDigits("") == "" && WordLen("") == 0;
  }

  /** A file of two numbers without a line end: the second is taken for 1 + 3. */
  lemma LastWordCanBeWrong()
    ensures Rewrite("1 3") == "1 bizz" && Output("1 3", 0, 0) == "1 3"
  {
    var s := "1 3";
    OneDigit('1');
    OneDigit('3');
    assert s[1..] == " 3" && s[..1] == "1" && " 3"[1..] == "3" && "3"[..1] == "3" && "3"[1..] == "";
    assert WordLen(s) == 1;
    assert RewriteWord("1") == "1" && RewriteWord("3") == "bizz";
    assert Room(0) == MAX_LEN == 4096 && Room(2) == 4094;
    assert Judge("1", 0, true, Verdict(Default, 0)) == Verdict(Str, 1);
    assert Judge("3", 2, false, Verdict(Default, 1)) == Verdict(Str, 1);
    hide RewriteWord, TypeOf, StateAfter, WordLen, Judge;
    assert Output("3", 2, 1) == "3" + Output("", 3, 1) == "3";
    assert Output(" 3", 1, 1) == " 3";
    assert Rewrite("") == "";
    assert Rewrite("3") == "bizz";
    assert Rewrite(" 3") == " bizz";
  }

  lemma Joined(a: string, b: string, c: string)
    ensures (a + b) + c == a + (b + c)
  {
  }

  lemma {:induction false} SpaceStays(g: string, s: string, pos: nat, state: int)
    requires AllSpace(g)
    ensures Output(g + s, pos, state) == g + Output(s, pos + |g|, state)
    ensures Rewrite(g + s) == g + Rewrite(s)
    decreases g
  {
    hide Judge, Shown, WordLen, RewriteWord;
    if g != "" {
      assert (g + s)[1..] == g[1..] + s;
      SpaceStays(g[1..], s, pos + 1, state);
      assert g == [g[0]] + g[1..];
      Joined([g[0]], g[1..], Output(s, pos + |g|, state));
      Joined([g[0]], g[1..], Rewrite(s));
    } else {
      assert g + s == s;
    }
  }

  lemma TwoDigits(a: char, b: char)
    requires IsDigit(a) && IsDigit(b) && a != '-'
    ensures IsNumber([a, b]) && Value([a, b]) == 10 * DigitOf(a) + DigitOf(b)
  {
    var w := [a, b];
    OneDigit(a);
    assert Unsigned(w) == w && w[..1] == [a];
    assert Magnitude(w) == 10 * Magnitude(w[..1]) + DigitOf(b);
  }

  lemma OneSpace(c: char, pos: nat, state: int)
    requires IsSpace(c)
    ensures Output([c], pos, state) == [c] && Rewrite([c]) == [c]
  {
    assert [c][1..] == "";
    assert [c] + "" == [c];
  }

  /** A word and one character of white space. */
  lemma OneWordLine(w: string, c: char, s: string, pos: nat, state: int)
    requires w != "" && NoSpace(w) && IsSpace(c) && s == w + [c]
    ensures Output(s, pos, state) == Shown(Judge(w, pos, true, Verdict(Default, state)).kind, w) + [c]
    ensures Rewrite(s) == RewriteWord(w) + [c]
  {
    var v := Judge(w, pos, true, Verdict(Default, state));
    WordLenOfJoined(w, [c]);
    OneSpace(c, pos + |w|, v.state);
    assert s[..|w|] == w && s[|w|..] == [c] && s[0] == w[0] && !IsSpace(s[0]);
    hide Judge, Shown, RewriteWord, WordLen, NoSpace, IsSpace;
  }

  lemma TwelveLine(s: string, r: string)
    requires s == "12" + ['\n'] && r == "bizz" + ['\n']
    ensures Output(s, MAX_LEN - 1, 0) == s && Rewrite(s) == r
  {
    TwelveIsJudgedByTwo();
    hide RewriteWord, Judge, TypeOf, Output, Rewrite;
    OneWordLine("12", '\n', s, MAX_LEN - 1, 0);
  }

  /** The number 12 with the end of a block between its digits: 2 is what counts. */
  lemma CrossingWordCanBeWrong(g: string, s: string, r: string)
    requires |g| == MAX_LEN - 1 && AllSpace(g) && s == "12" + ['\n'] && r == "bizz" + ['\n']
    ensures Output(g + s, 0, 0) == g + s && Rewrite(g + s) == g + r
  {
    hide Output, Rewrite, AllSpace;
    TwelveLine(s, r);
    BehindSpace(g, s, s, r);
  }

  lemma BehindSpace(g: string, s: string, out: string, r: string)
    requires AllSpace(g) && Output(s, |g|, 0) == out && Rewrite(s) == r
    ensures Output(g + s, 0, 0) == g + out && Rewrite(g + s) == g + r
  {
    hide Output, Rewrite, AllSpace;
    SpaceStays(g, s, 0, 0);
  }

  lemma TwelveIsJudgedByTwo()
    ensures RewriteWord("12") == "bizz"
    ensures Judge("12", MAX_LEN - 1, true, Verdict(Default, 0)).kind == Str
  {
    TwoDigits('1', '2');
    assert ['1', '2'] == "12" && Value("12") == 12;
    OneDigit('2');
    TypeOfTwo();
    hide Judge, TypeOf, Value, IsNumber, StateAfter;
    assert "1" + "2" == "12";
    LastPartDecides("1", "2", MAX_LEN - 1, Verdict(Default, 0));
  }

  lemma TypeOfTwo()
    ensures TypeOf("2", 0) == Str
  {
    OneDigit('2');
  }
}
