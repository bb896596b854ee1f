/** Which words BIZZBUZZ judges right (BIZZBUZZ/main.c:148-158, 259-297), for every word at every place of
    a file: by where the ends of blocks cut it, and by what its digits and the digit state before it are. */
module BizzBuzzWords {
  import opened CType
  import opened BizzBuzz

  // --- Words that end with a block or with the file ---

  /** A part of w that reaches the end of its block comes to Str, though more of w follows. The program does
      not look at the rest then. */
  predicate Stops(w: string, pos: nat, v: Verdict)
    decreases |w|
  {
    var room := Room(pos);
    |w| > room &&
    var next := Unfinished(w[..room], v);
    next.kind == Str || Stops(w[room..], pos + room, next)
  }

  function LastPart(w: string, pos: nat): string
    decreases |w|
  {
    if |w| <= Room(pos) then w else LastPart(w[Room(pos)..], pos + Room(pos))
  }

  /** The digit state in which the last part is analysed, when all are. */
  function StateBefore(w: string, pos: nat, state: int): int
    decreases |w|
  {
    if |w| <= Room(pos) then state
    else StateBefore(w[Room(pos)..], pos + Room(pos), StateAfter(w[..Room(pos)], state))
  }

  predicate EndsWithBlock(w: string, pos: nat, followed: bool) {
    !followed || AtBlockEnd(pos + |w|)
  }

  /** Of any word that ends with its block or with the file the last part decides, unless the
      program stops before it. */
  lemma {:induction false} CutAtEnd(w: string, pos: nat, followed: bool, v: Verdict)
    requires w != "" && v.kind != Str && EndsWithBlock(w, pos, followed)
    ensures Judge(w, pos, followed, v).kind ==
            if Stops(w, pos, v) then Str else TypeOf(LastPart(w, pos), StateBefore(w, pos, v.state))
    decreases |w|
  {
    hide TypeOf, StateAfter, Room, AtBlockEnd;
    var room := Room(pos);
    if followed {
      NextBlock(pos, |w|);
    }
    if |w| > room {
      var rest, next := w[room..], Unfinished(w[..room], v);
      JudgeOn(w, pos, followed, v);
      assert pos + room + |rest| == pos + |w|;
      if next.kind == Str {
        StrStays(rest, pos + room, followed, next.state);
      } else {
        CutAtEnd(rest, pos + room, followed, next);
      }
    }
  }

  // --- Numbers among them ---

  lemma {:induction false} AllLeading(d: string)
    requires AllDigits(d)
    ensures LeadingDigits(d) == d
    decreases d
  {
    if d != "" {
      AllLeading(d[1..]);
    }
  }

  lemma SumModulo(state: int, a: int, b: int, last: int)
    ensures TypeBy(state + (a + b), last) == TypeBy((state + a) % 3 + b, last)
  {
  }

  /** A number continued by digits has the type of the digits in the state that it leaves. */
  lemma NumberGoesOn(a: string, b: string, state: int)
    requires IsNumber(a) && AllDigits(b) && b != ""
    ensures IsNumber(a + b) && TypeOf(a + b, state) == TypeOf(b, StateAfter(a, state))
  {
    var d := Unsigned(a);
    assert (a + b)[0] == a[0] && b[0] != '-';
    assert Unsigned(a + b) == d + b && Unsigned(b) == b;
    SumOfJoined(d, b);
    AllLeading(d);
    assert (a + b)[|a + b| - 1] == b[|b| - 1];
    hide TypeBy, DigitSum, LeadingDigits, Unsigned;
    SumModulo(state, DigitSum(d), DigitSum(b), DigitOf(b[|b| - 1]));
  }

  /** The first part of a number is the sign alone or a number, and the rest is digits. */
  lemma CutNumber(w: string, k: nat)
    requires IsNumber(w) && 0 < k < |w|
    ensures w[..k] == "-" || IsNumber(w[..k])
    ensures AllDigits(w[k..]) && w[k..] != "" && IsNumber(w[k..]) && w[..k] + w[k..] == w
  {
    var a, b, d := w[..k], w[k..], Unsigned(w);
    assert forall i :: 0 <= i < |b| ==> b[i] == d[i + k - (|w| - |d|)];
    assert b[0] != '-' && Unsigned(b) == b;
    assert forall i :: 0 <= i < |Unsigned(a)| ==> Unsigned(a)[i] == d[i];
    assert Unsigned(a) == "" ==> a == "-";
  }

  lemma {:induction false} LastPartOfNumber(w: string, pos: nat, v: Verdict)
    requires IsNumber(w) && v.kind != Str && !Stops(w, pos, v)
    ensures TypeOf(LastPart(w, pos), StateBefore(w, pos, v.state)) == TypeOf(w, v.state)
    decreases |w|
  {
    hide TypeOf, StateAfter, Room, IsNumber, AllDigits;
    var room := Room(pos);
    if |w| > room {
      CutNumber(w, room);
      SignAlone(v.state);
      LastPartOfNumber(w[room..], pos + room, Unfinished(w[..room], v));
      NumberGoesOn(w[..room], w[room..], v.state);
    }
  }

  lemma SignAlone(state: int)
    ensures TypeOf("-", state) == Str
  {
    assert Unsigned("-") == "";
  }

  /** An end of a block behind the k-th byte of the number w, where the program stops: what is in front of
      it is the sign alone, or nothing would stand for it, given the digit state. */
  predicate StopsAt(w: string, k: nat, pos: nat, state: int) {
    && 0 < k < |w| && AtBlockEnd(pos + k)
    && (w[..k] == "-" || (w[k - 1] !in {'0', '5'} && AllDigits(Unsigned(w[..k])) &&
                          (state + Magnitude(Unsigned(w[..k]))) % 3 != 0))
  }

  lemma NothingStandsForIt(w: string, state: int)
    requires IsNumber(w)
    ensures TypeOf(w, state) == Str <==>
              w[|w| - 1] !in {'0', '5'} && (state + Magnitude(Unsigned(w))) % 3 != 0
  {
    var d := Unsigned(w);
    SumModThree(d);
    assert w[|w| - 1] == d[|d| - 1];
    assert (state + Magnitude(d)) % 3 == 0 <==> (state + DigitSum(d)) % 3 == 0 by {
      SameRest(state, Magnitude(d), DigitSum(d));
    }
  }

  lemma SameRest(state: int, a: int, b: int)
    requires a % 3 == b % 3
    ensures (state + a) % 3 == 0 <==> (state + b) % 3 == 0
  {
  }

  lemma StopsAtExactly(w: string, k: nat, pos: nat, state: int)
    requires IsNumber(w) && 0 < k < |w|
    ensures StopsAt(w, k, pos, state) <==> AtBlockEnd(pos + k) && TypeOf(w[..k], state) == Str
  {
    CutNumber(w, k);
    SignAlone(state);
    if IsNumber(w[..k]) {
      NothingStandsForIt(w[..k], state);
    }
  }

  /** Beyond the first part, the ends of blocks in w are those in its rest. */
  lemma StopsFurtherOn(w: string, k: nat, pos: nat, state: int, room: nat)
    requires IsNumber(w) && room == Room(pos) < k < |w| && IsNumber(w[..room])
    ensures StopsAt(w, k, pos, state) <==> StopsAt(w[room..], k - room, pos + room, StateAfter(w[..room], state))
  {
    hide TypeOf, StateAfter, Room, StopsAt;
    CutNumber(w, room);
    StopsAtExactly(w, k, pos, state);
    StopsAtExactly(w[room..], k - room, pos + room, StateAfter(w[..room], state));
    CutNumber(w, k);
    var b := w[room..][..k - room];
    assert w[..k] == w[..room] + b;
    assert AllDigits(b) && b != "";
    NumberGoesOn(w[..room], b, state);
  }

  lemma {:induction false} StopsExactly(w: string, pos: nat, v: Verdict)
    requires IsNumber(w) && v.kind != Str
    ensures Stops(w, pos, v) <==> exists k: nat :: StopsAt(w, k, pos, v.state)
    decreases |w|
  {
    hide TypeOf, StateAfter, Room, StopsAt, AtBlockEnd, IsNumber;
    var room := Room(pos);
    NoEarlierStop(w, pos, v.state);
    if |w| > room {
      var rest, from, next := w[room..], pos + room, Unfinished(w[..room], v);
      RoomEndsBlock(pos);
      CutNumber(w, room);
      SignAlone(v.state);
      StopsAtExactly(w, room, pos, v.state);
      if next.kind != Str {
        StopsExactly(rest, from, next);
        forall k: nat | room < k < |w|
          ensures StopsAt(w, k, pos, v.state) <==> StopsAt(rest, k - room, from, next.state)
        {
          StopsFurtherOn(w, k, pos, v.state, room);
        }
        forall j: nat | StopsAt(rest, j, from, next.state) ensures StopsAt(w, j + room, pos, v.state) {
          StopIsInside(rest, j, from, next.state);
          assert StopsAt(rest, j + room - room, from, next.state);
        }
      } else {
        assert StopsAt(w, room, pos, v.state);
      }
    }
  }

  lemma StopIsInside(w: string, k: nat, pos: nat, state: int)
    requires StopsAt(w, k, pos, state)
    ensures 0 < k < |w|
  {
  }

  lemma NoEarlierStop(w: string, pos: nat, state: int)
    ensures forall k: nat :: StopsAt(w, k, pos, state) ==> Room(pos) <= k < |w|
  {
    forall k: nat | StopsAt(w, k, pos, state) ensures Room(pos) <= k < |w| {
      NextBlock(pos, k);
    }
  }

  /** A number that ends with its block or with the file is judged right exactly when the program stops in
      it and nothing is to be put in its place, or does not stop and the state before is harmless. */
  lemma NumberCutAtEnd(w: string, pos: nat, followed: bool, state: int)
    requires IsNumber(w) && EndsWithBlock(w, pos, followed)
    ensures Judge(w, pos, followed, Verdict(Default, state)).kind == TypeOf(w, 0) <==>
              if exists k: nat :: StopsAt(w, k, pos, state) then RewriteWord(w) == w else Harmless(state, w)
  {
    var v := Verdict(Default, state);
    CutAtEnd(w, pos, followed, v);
    StopsExactly(w, pos, v);
    TypesAreShown(Str, w);
    HarmlessExactly(w, state);
    hide Judge, Stops, StopsAt, TypeOf, RewriteWord, Harmless;
    if !Stops(w, pos, v) {
      LastPartOfNumber(w, pos, v);
    }
  }

  // --- Other words among them ---

  predicate AllPartsNumbers(w: string, pos: nat)
    decreases |w|
  {
    if |w| <= Room(pos) then IsNumber(w)
    else IsNumber(w[..Room(pos)]) && AllPartsNumbers(w[Room(pos)..], pos + Room(pos))
  }

  lemma {:induction false} OtherPart(w: string, pos: nat, v: Verdict)
    requires !AllPartsNumbers(w, pos) && v.kind != Str
    ensures Stops(w, pos, v) || TypeOf(LastPart(w, pos), StateBefore(w, pos, v.state)) == Str
    decreases |w|
  {
    hide StateAfter, Room, IsNumber;
    var room := Room(pos);
    if |w| > room && Unfinished(w[..room], v).kind != Str {
      OtherPart(w[room..], pos + room, Unfinished(w[..room], v));
    }
  }

  /** A word that is no number and ends with its block or with the file is taken for one, if at all, only
      when the ends of blocks cut it into numbers; then it is judged right exactly when the program
      stops in it or has nothing to put in place of the last part. */
  lemma OtherCutAtEnd(w: string, pos: nat, followed: bool, state: int)
    requires w != "" && !IsNumber(w) && EndsWithBlock(w, pos, followed)
    ensures var v := Verdict(Default, state);
            Judge(w, pos, followed, v).kind == TypeOf(w, 0) <==>
              !AllPartsNumbers(w, pos) || Stops(w, pos, v) ||
              TypeOf(LastPart(w, pos), StateBefore(w, pos, state)) == Str
  {
    var v := Verdict(Default, state);
    CutAtEnd(w, pos, followed, v);
    if !AllPartsNumbers(w, pos) {
      OtherPart(w, pos, v);
    }
  }

  // --- Every word ---

  /** Where the word ends in its block: the part in that block. */
  function PartInLastBlock(w: string, pos: nat): string
    requires (pos + |w|) % MAX_LEN <= |w|
  {
    w[|w| - (pos + |w|) % MAX_LEN..]
  }

  /** Only the last part counts: a number and its last part are multiples of 3 both or neither; of another
      word the last part is nothing that is replaced. */
  predicate LastPartFits(w: string, part: string) {
    if IsNumber(w) && IsNumber(part) then Value(part) % 3 == 0 <==> Value(w) % 3 == 0
    else RewriteWord(part) == part
  }

  /** When a word at byte pos comes out right, given the digit state before it. */
  ghost predicate ComesOutRight(w: string, pos: nat, followed: bool, state: int)
    requires w != ""
  {
    if |w| <= Room(pos) then
      // in one block
      (followed && |w| < Room(pos)) || Harmless(state, w)
    else if !EndsWithBlock(w, pos, followed) then
      // cut, with white space behind it in its last block
      (pos + |w|) % MAX_LEN <= |w| &&
      LastPartFits(w, PartInLastBlock(w, pos))
    else if IsNumber(w) then
      // cut, at the end of a block or of the file
      if exists k: nat :: StopsAt(w, k, pos, state) then RewriteWord(w) == w else Harmless(state, w)
    else
      !AllPartsNumbers(w, pos) || Stops(w, pos, Verdict(Default, state)) ||
      TypeOf(LastPart(w, pos), StateBefore(w, pos, state)) == Str
  }

  lemma WholeBlocksBefore(w: string, pos: nat)
    requires |w| > Room(pos) && !AtBlockEnd(pos + |w|)
    ensures var n := (pos + |w|) % MAX_LEN;
            0 < n < MAX_LEN && n < |w| && AtBlockEnd(pos + (|w| - n))
  {
  }

  lemma LastPartFitsExactly(w: string, part: string, k: nat)
    requires w != "" && 0 < k < |w| && part == w[k..]
    ensures TypeOf(part, 0) == TypeOf(w, 0) <==> LastPartFits(w, part)
  {
    if IsNumber(w) {
      PartOfNumber(w, part, k);
      NegatedByThree(Magnitude(Unsigned(w)));
    } else {
      StrShown(part);
    }
  }

  lemma CutInsideBlock(w: string, pos: nat, state: int)
    requires |w| > Room(pos) && !AtBlockEnd(pos + |w|)
    ensures Judge(w, pos, true, Verdict(Default, state)).kind == TypeOf(w, 0) <==> ComesOutRight(w, pos, true, state)
  {
    hide Judge, TypeOf, Room, AtBlockEnd, LastPartFits;
    WholeBlocksBefore(w, pos);
    var n := (pos + |w|) % MAX_LEN;
    var before, part := w[..|w| - n], w[|w| - n..];
    assert w == before + part;
    LastPartDecides(before, part, pos, Verdict(Default, state));
    LastPartFitsExactly(w, part, |w| - n);
  }

  lemma StrShown(w: string)
    requires w != ""
    ensures RewriteWord(w) == w <==> TypeOf(w, 0) == Str
  {
    TypesAreShown(Str, w);
  }

  /** The verdict on every word, wherever it stands. */
  lemma JudgedExactly(w: string, pos: nat, followed: bool, state: int)
    requires w != ""
    ensures Judge(w, pos, followed, Verdict(Default, state)).kind == TypeOf(w, 0) <==>
              ComesOutRight(w, pos, followed, state)
  {
    if |w| <= Room(pos) {
      WordInOneBlock(w, pos, followed, state);
    } else if !EndsWithBlock(w, pos, followed) {
      CutInsideBlock(w, pos, state);
    } else if IsNumber(w) {
      NumberCutAtEnd(w, pos, followed, state);
    } else {
      OtherCutAtEnd(w, pos, followed, state);
    }
  }

  ghost predicate AllComeOutRight(s: string, pos: nat, state: int)
    decreases |s|
  {
    if s == "" then true
    else if IsSpace(s[0]) then AllComeOutRight(s[1..], pos + 1, state)
    else
      var k := WordLen(s);
      ComesOutRight(s[..k], pos, k < |s|, state) &&
      AllComeOutRight(s[k..], pos + k, Judge(s[..k], pos, k < |s|, Verdict(Default, state)).state)
  }

  /** For every file: the output is the specified rewriting exactly when every word comes out right. */
  lemma {:induction false} RewriteExactly(s: string, pos: nat, state: int)
    ensures Output(s, pos, state) == Rewrite(s) <==> AllComeOutRight(s, pos, state)
    decreases |s|
  {
    OutputIsRewrite(s, pos, state);
    hide Output, Rewrite, Judge, ComesOutRight, TypeOf;
    if s == "" {
    } else if IsSpace(s[0]) {
      OutputIsRewrite(s[1..], pos + 1, state);
      RewriteExactly(s[1..], pos + 1, state);
    } else {
      var k := WordLen(s);
      var next := Judge(s[..k], pos, k < |s|, Verdict(Default, state)).state;
      JudgedExactly(s[..k], pos, k < |s|, state);
      OutputIsRewrite(s[k..], pos + k, next);
      RewriteExactly(s[k..], pos + k, next);
    }
  }

  /** 15, cut behind the 1, at the end of a file: the program stops, and nothing replaces the number. */
  lemma StoppedNumberCanBeWrong()
    ensures Judge("15", MAX_LEN - 1, false, Verdict(Default, 0)).kind == Str && RewriteWord("15") == "bizzbuzz"
  {
    TwoDigits('1', '5');
    assert ['1', '5'] == "15" && Value("15") == 15;
    OneDigit('1');
    assert "15"[..1] == "1" && TypeOf("1", 0) == Str;
    var v := Verdict(Default, 0);
    hide Value, IsNumber, TypeOf, StateAfter;
    JudgeOn("15", MAX_LEN - 1, false, v);
    StrStays("15"[1..], MAX_LEN, false, Unfinished("1", v).state);
  }
}
