/** The rewriter at work: find_word, anylise_word, print_word and the loop of print_bizzbuzz over
    blocks of the file (BIZZBUZZ/main.c:93-395). */
module BizzBuzzRun {
  import opened CType
  import opened BizzBuzz
  import opened BizzBuzzWords

  datatype Mode = Continue | Next | Space

  lemma {:induction false} UpToWordLen(s: string, i: nat)
    requires i <= WordLen(s)
    ensures i < WordLen(s) <==> i < |s| && !IsSpace(s[i])
    decreases i
  {
    if i > 0 {
      UpToWordLen(s[1..], i - 1);
    }
  }

  /** find_word: the white space or the word at from, within size characters. */
  method FindWord(buf: array<char>, from: nat, size: nat, ghost t: string) returns (mode: Mode, length: nat)
    requires from + size <= buf.Length && t == buf[from..from + size]
    ensures length <= size && (size > 0 ==> length > 0)
    ensures mode == Space <==> t != "" && IsSpace(t[0])
    ensures mode == Space ==> AllSpace(t[..length])
    ensures mode != Space ==> length == WordLen(t)
    ensures mode == Next <==> t != "" && !IsSpace(t[0]) && length < |t|
  {
    length := 0;
    while length < size && IsSpace(buf[from + length])
      invariant length <= size && AllSpace(t[..length])
    {
      assert t[..length + 1] == t[..length] + [t[length]];
      length := length + 1;
    }
    if length != 0 {
      assert IsSpace(t[..length][0]);
      return Space, length;
    }
    UpToWordLen(t, 0);
    while length < size
      invariant length <= WordLen(t)
      invariant length < WordLen(t) <==> length < |t| && !IsSpace(t[length])
    {
      if IsSpace(buf[from + length]) {
        return Next, length;
      }
      length := length + 1;
      UpToWordLen(t, length);
    }
    mode := Continue;
  }

  lemma {:induction false} UpToDigits(s: string, i: nat)
    requires i <= |LeadingDigits(s)|
    ensures i < |LeadingDigits(s)| <==> i < |s| && IsDigit(s[i])
    decreases i
  {
    if i > 0 {
      UpToDigits(s[1..], i - 1);
    }
  }

  /** The digit state after k digits of d. */
  ghost predicate Scanned(d: string, k: nat, state: int, numMod3: int, lastDigit: int) {
    && k <= |LeadingDigits(d)| && k <= |d| && AllDigits(d[..k])
    && if k == 0 then numMod3 == state
       else numMod3 == (state + DigitSum(d[..k])) % 3 && IsDigit(d[k - 1]) && lastDigit == DigitOf(d[k - 1])
  }

  lemma ScanNone(d: string, state: int, lastDigit: int)
    ensures Scanned(d, 0, state, state, lastDigit)
  {
  }

  lemma ScanOne(d: string, k: nat, state: int, numMod3: int, lastDigit: int)
    requires Scanned(d, k, state, numMod3, lastDigit) && k < |d| && IsDigit(d[k])
    ensures Scanned(d, k + 1, state, (DigitOf(d[k]) + numMod3) % 3, DigitOf(d[k]))
  {
    UpToDigits(d, k);
    assert d[..k + 1] == d[..k] + [d[k]];
    assert d[..k + 1][..k] == d[..k];
    assert DigitSum(d[..k + 1]) == DigitSum(d[..k]) + DigitOf(d[k]);
    AddThree(if k == 0 then state else state + DigitSum(d[..k]), numMod3, DigitOf(d[k]));
  }

  lemma AddThree(a: int, b: int, d: int)
    requires b == a || b == a % 3
    ensures (d + b) % 3 == (a + d) % 3
  {
  }

  lemma ScanDone(w: string, k: nat, state: int, numMod3: int, lastDigit: int)
    requires Unsigned(w) != "" && Scanned(Unsigned(w), k, state, numMod3, lastDigit)
    requires k < |Unsigned(w)| ==> !IsDigit(Unsigned(w)[k])
    ensures TypeOf(w, state) == if k < |Unsigned(w)| then Str else TypeBy(numMod3, lastDigit)
    requires 0 <= state < 3
    ensures numMod3 == StateAfter(w, state)
  {
    var d := Unsigned(w);
    UpToDigits(d, k);
    assert LeadingDigits(d) == d[..k];
    assert d[..|d|] == d;
    assert d[|d| - 1] == w[|w| - 1];
    if k == |d| {
      ModThree(state + DigitSum(d), numMod3, lastDigit);
    }
  }

  lemma DashOnly()
    ensures forall state :: TypeOf("-", state) == Str
    ensures forall state :: 0 <= state < 3 ==> StateAfter("-", state) == state
  {
    assert Unsigned("-") == "";
  }

  lemma ModThree(a: int, b: int, last: int)
    requires b == a % 3
    ensures TypeBy(a, last) == TypeBy(b, last)
  {
  }

  // --- How far the output has come ---

  /** What is written, with the output for the rest of the file, is the output for the file. */
  ghost predicate UpTo(src: string, c: int, dst: string, state: int) {
    0 <= c <= |src| && dst + Output(src[c..], c, state) == Output(src, 0, 0)
  }

  /** The output owed for a word at byte a, where the text s starts, and for what follows it, when
      long of its bytes have come to the verdict v. */
  function Owed(s: string, a: nat, long: nat, v: Verdict): string
    requires long <= WordLen(s)
  {
    var k := WordLen(s);
    var j := Judge(s[long..k], a + long, k < |s|, v);
    Shown(j.kind, s[..k]) + Output(s[k..], a + k, j.state)
  }

  /** What is written, with what is owed from within a word on, is the output for the file. */
  ghost predicate InWord(src: string, a: int, long: nat, dst: string, v: Verdict) {
    0 <= a <= |src| && long <= WordLen(src[a..]) && dst + Owed(src[a..], a, long, v) == Output(src, 0, 0)
  }

  lemma {:induction false} WordLenOfPrefix(t: string, s: string)
    requires t <= s && (WordLen(t) < |t| || t == s)
    ensures WordLen(s) == WordLen(t)
    decreases s
  {
    if t != "" && !IsSpace(t[0]) {
      WordLenOfPrefix(t[1..], s[1..]);
    }
  }

  lemma {:induction false} WordLenBehind(s: string, long: nat)
    requires long <= WordLen(s)
    ensures WordLen(s[long..]) == WordLen(s) - long
    decreases long
  {
    if long > 0 {
      WordLenBehind(s[1..], long - 1);
      assert s[1..][long - 1..] == s[long..];
    } else {
      assert s[0..] == s;
    }
  }

  lemma SuffixSlice(src: string, c: nat, k: nat)
    requires c + k <= |src|
    ensures src[c..][..k] == src[c..c + k] && src[c..][k..] == src[c + k..]
  {
  }

  lemma SpaceWritten(src: string, c: nat, dst: string, state: int, g: string, rest: string)
    requires UpTo(src, c, dst, state) && AllSpace(g) && c + |g| <= |src|
    requires src[c..] == g + rest && src[c + |g|..] == rest
    ensures UpTo(src, c + |g|, dst + g, state)
  {
    SpaceStays(g, rest, c, state);
    hide Output, AllSpace;
    Joined(dst, g, Output(rest, c + |g|, state));
  }

  lemma {:induction false} WordLenAtLeast(t: string, s: string)
    requires t <= s && WordLen(t) == |t|
    ensures WordLen(s) >= |t|
    decreases t
  {
    if t != "" {
      WordLenAtLeast(t[1..], s[1..]);
    }
  }

  lemma PartSlice(s: string, long: nat, t: string, n: nat)
    requires long <= |s| && t <= s[long..] && n <= |t|
    ensures s[long..long + n] == t[..n]
  {
    assert s[long..][..|t|] == t;
  }

  lemma SliceInSuffix(src: string, a: nat, long: nat, e: nat)
    requires a + long <= e <= |src|
    ensures src[a + long..e] <= src[a..][long..]
    ensures e == |src| ==> src[a + long..e] == src[a..][long..]
  {
  }

  // --- What is owed when a part of a word has been seen ---

  lemma PartEndsWord(s: string, long: nat, t: string, w: string)
    requires long <= WordLen(s) && t <= s[long..] && WordLen(t) < |t| && w == t[..WordLen(t)]
    ensures WordLen(s) == long + |w| < |s| && s[long..WordLen(s)] == w
  {
    hide WordLen;
    WordLenBehind(s, long);
    WordLenOfPrefix(t, s[long..]);
    assert |w| < |t| <= |s[long..]| == |s| - long;
    PartSlice(s, long, t, |w|);
  }

  lemma OwedEndsInBlock(s: string, a: nat, long: nat, v: Verdict, t: string, w: string)
    requires long <= WordLen(s) && t <= s[long..] && |t| <= Room(a + long)
    requires 0 < WordLen(t) < |t| && w == t[..WordLen(t)]
    ensures WordLen(s) == long + |w|
    ensures Owed(s, a, long, v) ==
            Shown(TypeOf(w, 0), s[..long + |w|]) + Output(s[long + |w|..], a + long + |w|, StateAfter(w, 0))
  {
    hide Judge, TypeOf, Shown, StateAfter, Output, WordLen, Room;
    PartEndsWord(s, long, t, w);
    JudgeLast(w, a + long, v);
  }

  lemma JudgePart(x: string, pos: nat, followed: bool, v: Verdict)
    requires |x| >= Room(pos)
    ensures Judge(x, pos, followed, v) ==
            Judge(x[Room(pos)..], pos + Room(pos), followed, Unfinished(x[..Room(pos)], v))
  {
    hide TypeOf, StateAfter, Unfinished;
    if |x| == Room(pos) {
      assert x[..Room(pos)] == x;
    }
  }

  lemma PartOfWord(s: string, long: nat, t: string)
    requires long <= WordLen(s) && t <= s[long..] && WordLen(t) == |t|
    ensures long + |t| <= WordLen(s)
    ensures s[long..WordLen(s)][..|t|] == t && s[long..WordLen(s)][|t|..] == s[long + |t|..WordLen(s)]
  {
    WordLenBehind(s, long);
    WordLenAtLeast(t, s[long..]);
    PartSlice(s, long, t, |t|);
    hide WordLen;
    assert s[long..WordLen(s)][..|t|] == s[long..long + |t|];
  }

  lemma OwedGoesOn(s: string, a: nat, long: nat, v: Verdict, t: string)
    requires long <= WordLen(s) && t <= s[long..] && WordLen(t) == |t| == Room(a + long)
    ensures long + |t| <= WordLen(s) && Owed(s, a, long, v) == Owed(s, a, long + |t|, Unfinished(t, v))
  {
    hide Judge, TypeOf, Shown, StateAfter, Output, WordLen, Unfinished, Room;
    PartOfWord(s, long, t);
    JudgePart(s[long..WordLen(s)], a + long, WordLen(s) < |s|, v);
  }

  lemma OwedEndsFile(s: string, a: nat, long: nat, v: Verdict, t: string)
    requires long <= WordLen(s) && t == s[long..] && WordLen(t) == |t| && 0 < |t| <= Room(a + long)
    ensures Owed(s, a, long, v) == Shown(Unfinished(t, v).kind, s)
  {
    WordLenBehind(s, long);
    assert WordLen(s) == |s|;
    assert s[long..|s|] == t && s[..|s|] == s && s[|s|..] == "";
    assert Judge(t, a + long, false, v) == Unfinished(t, v);
    hide Judge, TypeOf, Shown, StateAfter, WordLen, Unfinished, Room;
    assert Shown(Unfinished(t, v).kind, s) + "" == Shown(Unfinished(t, v).kind, s);
  }

  lemma OwedEnded(s: string, a: nat, long: nat, v: Verdict)
    requires long <= WordLen(s) && long < |s| && IsSpace(s[long])
    ensures Owed(s, a, long, v) == Shown(v.kind, s[..long]) + Output(s[long..], a + long, v.state)
  {
    WordLenBehind(s, long);
    assert s[long..][0] == s[long];
    assert WordLen(s) == long && s[long..long] == "";
  }

  // --- One part of a word ---

  lemma WordBegins(src: string, c: nat, dst: string, state: int)
    requires UpTo(src, c, dst, state) && c < |src| && !IsSpace(src[c])
    ensures InWord(src, c, 0, dst, Verdict(Default, state))
  {
    var s := src[c..];
    hide Judge, Shown, WordLen, IsSpace;
    assert s[0] == src[c] && s[0..WordLen(s)] == s[..WordLen(s)];
  }

  /** White space follows within the block: the last part decides. */
  lemma WordEndsInBlock(src: string, a: nat, long: nat, dst: string, v: Verdict, t: string, e: nat, w: string)
    requires InWord(src, a, long, dst, v) && a + long < e <= |src| && t == src[a + long..e] && |t| <= Room(a + long)
    requires 0 < |w| == WordLen(t) < |t| && w == t[..|w|]
    ensures UpTo(src, a + long + |w|, dst + Shown(TypeOf(w, 0), src[a..a + long + |w|]), StateAfter(w, 0))
  {
    hide Owed, TypeOf, Shown, StateAfter, Output, WordLen, Room;
    var k := long + |w|;
    SliceInSuffix(src, a, long, e);
    OwedEndsInBlock(src[a..], a, long, v, t, w);
    SuffixSlice(src, a, k);
    var shown, rest := Shown(TypeOf(w, 0), src[a..a + k]), Output(src[a + k..], a + k, StateAfter(w, 0));
    assert Owed(src[a..], a, long, v) == shown + rest;
    Joined(dst, shown, rest);
  }

  /** The word goes on behind the end of its block, or ends there. */
  lemma WordGoesOn(src: string, a: nat, long: nat, dst: string, v: Verdict, t: string)
    requires InWord(src, a, long, dst, v) && a + long + |t| <= |src| && t == src[a + long..a + long + |t|]
    requires |t| == Room(a + long) && WordLen(t) == |t|
    ensures InWord(src, a, long + |t|, dst, Unfinished(t, v))
  {
    SliceInSuffix(src, a, long, a + long + |t|);
    OwedGoesOn(src[a..], a, long, v, t);
  }

  /** The word ends with the file. */
  lemma WordEndsFile(src: string, a: nat, long: nat, dst: string, v: Verdict, t: string)
    requires InWord(src, a, long, dst, v) && a + long < |src| && t == src[a + long..] && |t| <= Room(a + long)
    requires WordLen(t) == |t|
    ensures dst + Shown(Unfinished(t, v).kind, src[a..]) == Output(src, 0, 0)
  {
    SliceInSuffix(src, a, long, |src|);
    assert src[a + long..|src|] == t;
    OwedEndsFile(src[a..], a, long, v, t);
  }

  /** The word ended with the last block. */
  lemma WordEnded(src: string, a: nat, long: nat, dst: string, v: Verdict)
    requires InWord(src, a, long, dst, v) && a + long < |src| && IsSpace(src[a + long])
    ensures UpTo(src, a + long, dst + Shown(v.kind, src[a..a + long]), v.state)
  {
    SuffixSlice(src, a, long);
    assert src[a..][long] == src[a + long];
    OwedEnded(src[a..], a, long, v);
    hide Owed, Shown, WordLen, Output;
    Joined(dst, Shown(v.kind, src[a..a + long]), Output(src[a + long..], a + long, v.state));
  }

  // --- Where the loop stands ---

  /** The variables that the loop of print_bizzbuzz keeps from word to word. */
  datatype Progress = Progress(mode: Mode, kind: Type, longSize: nat, offsetFile: nat)

  /** At byte c of the file, in a block of n of which offsetBuf are behind, with size bytes to come from
      the block on: what has been printed ends where the word that is not finished starts. */
  ghost predicate Sound(p: Progress, c: int, offsetBuf: int, n: int, size: int, startsWord: bool) {
    if p.mode == Continue then
      && (if offsetBuf == 0 then startsWord else offsetBuf == n)
      && if offsetBuf == size then p.offsetFile == c && p.kind == Default
         else p.kind != Default && p.offsetFile + p.longSize == c
    else
      p.kind == Default && p.longSize == 0 && p.offsetFile == c
  }

  /** What is written is right so far. */
  ghost predicate Right(src: string, c: int, dst: string, numMod3: int, p: Progress) {
    if p.mode != Continue then UpTo(src, c, dst, numMod3)
    else if p.kind == Default then c == |src| && dst == Output(src, 0, 0)
    else p.offsetFile + p.longSize == c && InWord(src, p.offsetFile, p.longSize, dst, Verdict(p.kind, numMod3))
  }

  /** What find_word says of the text t. */
  ghost predicate Found(t: string, mode: Mode, length: nat) {
    && 0 < length <= |t| && (mode == Space <==> IsSpace(t[0])) && (mode == Space ==> AllSpace(t[..length]))
    && (mode != Space ==> length == WordLen(t)) && (mode == Next <==> !IsSpace(t[0]) && length < |t|)
  }

  /** How the loop goes on after a word of that length. */
  function Advance(was: Progress, mode: Mode, kind: Type, length: nat, over: bool): Progress {
    var p := was.(mode := mode, kind := if over then Default else kind,
                  offsetFile := was.offsetFile + if over then was.longSize + length else 0);
    if mode == Continue then p.(longSize := was.longSize + length) else if mode == Next then p.(longSize := 0) else p
  }

  /** What the loop variables mean while there is something left of the block. */
  lemma SoundMeans(p: Progress, c: int, offsetBuf: int, n: int, size: int, startsWord: bool)
    requires Sound(p, c, offsetBuf, n, size, startsWord) && 0 <= offsetBuf < n <= size
    ensures p.offsetFile + p.longSize == c
    ensures if p.mode == Continue then p.kind != Default && offsetBuf == 0 && startsWord
            else p.kind == Default && p.longSize == 0
  {
  }

  lemma AdvanceSound(was: Progress, mode: Mode, kind: Type, length: nat, base: nat, offsetBuf: nat, n: nat, size: nat,
                     startsSpace: bool, over: bool)
    requires over <==> mode != Continue || size == offsetBuf + length
    requires Sound(was, base + offsetBuf, offsetBuf, n, size, !startsSpace)
    requires offsetBuf < n <= size && 0 < length && offsetBuf + length <= n && kind != Default
    requires mode == Space && offsetBuf == 0 ==> startsSpace
    requires mode == Continue ==> offsetBuf + length == n
    ensures Sound(Advance(was, mode, kind, length, over), base + offsetBuf + length, offsetBuf + length, n, size, true)
    ensures was.offsetFile + was.longSize == base + offsetBuf
  {
  }

  lemma BlockSlice(b: seq<char>, src: string, base: nat, n: nat, from: nat, k: nat)
    requires from + k <= n <= |b| && base + n <= |src| && b[..n] == src[base..base + n]
    ensures b[from..from + k] == src[base + from..base + from + k]
  {
    var x, y := b[from..from + k], src[base + from..base + from + k];
    forall i | 0 <= i < k ensures x[i] == y[i] {
      assert b[..n][from + i] == src[base..base + n][from + i];
    }
  }

  lemma FoundIt(t: string, mode: Mode, length: nat)
    requires 0 < length <= |t| && (mode == Space <==> IsSpace(t[0])) && (mode == Space ==> AllSpace(t[..length]))
    requires (mode != Space ==> length == WordLen(t)) && (mode == Next <==> !IsSpace(t[0]) && length < |t|)
    ensures Found(t, mode, length)
  {
  }

  lemma FoundMeans(t: string, mode: Mode, length: nat, w: string)
    requires Found(t, mode, length) && w == t[..length]
    ensures match mode
            case Space => AllSpace(w)
            case Next => !IsSpace(t[0]) && 0 < |w| == WordLen(t) < |t|
            case Continue => !IsSpace(t[0]) && w == t && length == WordLen(t) == |t|
  {
  }

  lemma SliceOfSlice(src: string, c: nat, e: nat, k: nat)
    requires c <= e <= |src| && k <= e - c
    ensures src[c..e][..k] == src[c..c + k]
  {
  }

  /** What find_word and anylise_word say of a part w of the file makes of kind and digit state. */
  ghost predicate Analysed(w: string, mode: Mode, was: Verdict, now: Verdict) {
    match mode
    case Space => now == Verdict(Str, was.state)
    case Next => now == Verdict(TypeOf(w, 0), StateAfter(w, 0))
    case Continue => now == Unfinished(w, was)
  }

  /** Whether in the middle of a word or not, what comes next belongs to a word with this verdict so far. */
  lemma InSomeWord(src: string, c: nat, dst: string, numMod3: int, was: Progress)
    requires Right(src, c, dst, numMod3, was) && c < |src| && !IsSpace(src[c]) && was.offsetFile + was.longSize == c
    requires was.mode != Continue ==> was.kind == Default && was.longSize == 0
    requires was.mode == Continue ==> was.kind != Default
    ensures InWord(src, was.offsetFile, was.longSize, dst, Verdict(was.kind, numMod3))
  {
    hide UpTo, InWord;
    if was.mode != Continue {
      WordBegins(src, c, dst, numMod3);
    }
  }

  lemma PartRight(src: string, c: nat, e: nat, t: string, length: nat, was: Progress, dst: string,
                  v0: Verdict, v: Verdict, over: bool, printed: string, dst': string)
    requires InWord(src, was.offsetFile, was.longSize, dst, v0) && was.offsetFile + was.longSize == c < e <= |src|
    requires e - c <= Room(c) && (e < |src| ==> e - c == Room(c)) && (over <==> e == |src|)
    requires t == src[c..e] && length == WordLen(t) == |t| && v == Unfinished(t, v0) && v.kind != Default
    requires printed == src[was.offsetFile..c + length] && dst' == dst + if over then Shown(v.kind, printed) else ""
    ensures Right(src, c + length, dst', v.state, Advance(was, Continue, v.kind, length, over))
  {
    var a, long := was.offsetFile, was.longSize;
    hide InWord, WordLen, Room, Unfinished, Shown, Output;
    if e < |src| {
      assert dst + "" == dst && a + long + |t| == e;
      WordGoesOn(src, a, long, dst, v0, t);
    } else {
      assert src[c..e] == src[c..] && src[a..e] == src[a..];
      WordEndsFile(src, a, long, dst, v0, t);
    }
  }

  lemma NextRight(src: string, c: nat, e: nat, t: string, length: nat, w: string, was: Progress, dst: string,
                  v0: Verdict, v: Verdict, printed: string, dst': string)
    requires InWord(src, was.offsetFile, was.longSize, dst, v0) && was.offsetFile + was.longSize == c < e <= |src|
    requires e - c <= Room(c) && t == src[c..e] && 0 < length == |w| == WordLen(t) < |t| && w == t[..length]
    requires v == Verdict(TypeOf(w, 0), StateAfter(w, 0))
    requires printed == src[was.offsetFile..c + length] && dst' == dst + Shown(v.kind, printed)
    ensures Right(src, c + length, dst', v.state, Advance(was, Next, v.kind, length, true))
  {
    hide InWord, WordLen, Room, Shown, UpTo, TypeOf, StateAfter;
    WordEndsInBlock(src, was.offsetFile, was.longSize, dst, v0, t, e, w);
  }

  lemma SpaceRight(src: string, c: nat, length: nat, w: string, was: Progress, dst: string, state: int, dst': string)
    requires Right(src, c, dst, state, was) && was.mode != Continue
    requires was.longSize == 0 && was.offsetFile == c && c + length <= |src|
    requires w == src[c..c + length] && AllSpace(w) && dst' == dst + w
    ensures Right(src, c + length, dst', state, Advance(was, Space, Str, length, true))
  {
    hide UpTo;
    SuffixSlice(src, c, length);
    assert src[c..] == src[c..][..length] + src[c..][length..];
    SpaceWritten(src, c, dst, state, w, src[c + length..]);
  }

  /** One turn, from byte c of a block that ends at e: white space, the end of a word, or a part of one. */
  lemma AdvanceRight(src: string, c: nat, e: nat, mode: Mode, length: nat, t: string, w: string, was: Progress,
                     dst: string, numMod3: int, v: Verdict, over: bool, printed: string, dst': string)
    requires Right(src, c, dst, numMod3, was) && was.offsetFile + was.longSize == c < e <= |src|
    requires was.mode != Continue ==> was.kind == Default && was.longSize == 0
    requires was.mode == Continue ==> was.kind != Default && mode != Space
    requires e - c <= Room(c) && (e < |src| ==> e - c == Room(c))
    requires t == src[c..e] && Found(t, mode, length) && w == src[c..c + length]
    requires Analysed(w, mode, Verdict(was.kind, numMod3), v) && v.kind != Default
    requires over <==> mode != Continue || e == |src|
    requires printed == src[was.offsetFile..c + length] && dst' == dst + if over then Shown(v.kind, printed) else ""
    ensures Right(src, c + length, dst', v.state, Advance(was, mode, v.kind, length, over))
  {
    SliceOfSlice(src, c, e, length);
    FoundMeans(t, mode, length, w);
    assert t[0] == src[c];
    var v0 := Verdict(was.kind, numMod3);
    hide Right, Found, InWord, TypeOf, StateAfter, WordLen, Room, Unfinished, IsSpace, Advance, AllSpace;
    match mode
    case Space =>
      SpaceRight(src, c, length, w, was, dst, numMod3, dst');
    case Next =>
      hide Shown;
      InSomeWord(src, c, dst, numMod3, was);
      NextRight(src, c, e, t, length, w, was, dst, v0, v, printed, dst');
    case Continue =>
      hide Shown;
      InSomeWord(src, c, dst, numMod3, was);
      PartRight(src, c, e, t, length, was, dst, v0, v, over, printed, dst');
  }

  lemma FinishRight(src: string, c: nat, dst: string, numMod3: int, was: Progress)
    requires Right(src, c, dst, numMod3, was) && was.mode == Continue && was.kind != Default
    requires c < |src| && IsSpace(src[c])
    ensures Right(src, c, dst + Shown(was.kind, src[was.offsetFile..was.offsetFile + was.longSize]), numMod3,
                  Progress(Next, Default, 0, c))
  {
    hide UpTo, InWord;
    WordEnded(src, was.offsetFile, was.longSize, dst, Verdict(was.kind, numMod3));
  }

  lemma AllToCome(src: string)
    ensures Right(src, 0, "", 0, Progress(Next, Default, 0, 0))
    ensures src != "" ==> Sound(Progress(Next, Default, 0, 0), 0, 0, 1, |src|, true)
  {
    assert src[0..] == src;
  }

  lemma AllWritten(src: string, dst: string, numMod3: int, p: Progress)
    requires Right(src, |src|, dst, numMod3, p)
    requires p.mode == Continue ==> p.kind == Default
    ensures dst == Output(src, 0, 0)
  {
    assert src[|src|..] == "";
  }

  lemma BlockBegins(offset: nat)
    ensures AtBlockEnd(0) && (AtBlockEnd(offset) ==> AtBlockEnd(offset + MAX_LEN))
  {
  }

  lemma RoomInBlock(base: nat, offsetBuf: nat)
    requires AtBlockEnd(base) && offsetBuf < MAX_LEN
    ensures Room(base + offsetBuf) == MAX_LEN - offsetBuf
  {
  }

  lemma SoundNextBlock(p: Progress, c: int, n: nat, size: int)
    requires Sound(p, c, n, n, size, true) || Sound(p, c, n, n, size, false)
    requires 0 < n <= size
    ensures n < size ==> Sound(p, c, 0, 1, size - n, true)
    ensures n == size && p.mode == Continue ==> p.kind == Default
  {
  }

  lemma SoundInside(p: Progress, c: int, offsetBuf: int, n: int, size: int, startsWord: bool)
    requires Sound(p, c, offsetBuf, n, size, true) && offsetBuf > 0
    ensures Sound(p, c, offsetBuf, n, size, startsWord)
  {
  }

  lemma SoundAnyBlock(p: Progress, c: int, n: nat, size: int)
    requires Sound(p, c, 0, 1, size, true)
    ensures Sound(p, c, 0, n, size, true)
  {
  }

  class Rewriter {
    const src: string
    const reliable: bool
    var pos: nat
    var dst: string
    var numMod3: int
    var lastDigit: int

    /** The program as it starts: an empty destination, the digit state as declared. */
    constructor (src: string, reliable: bool)
      ensures this.src == src && this.reliable == reliable && AtStart()
    {
      this.src, this.reliable := src, reliable;
      pos, dst, numMod3, lastDigit := 0, "", 0, 1;
    }

    ghost predicate AtStart()
      reads this
    {
      pos == 0 && dst == "" && numMod3 == 0 && lastDigit == 1
    }

    /** read of up to size bytes; -1 is a failure. */
    method Read(buf: array<char>, size: nat) returns (n: int)
      requires pos <= |src| && size <= buf.Length
      modifies this`pos, buf
      ensures reliable ==> n != -1
      ensures n == -1 ==> pos == old(pos)
      ensures n != -1 ==> 0 <= n == (if size <= |src| - old(pos) then size else |src| - old(pos))
      ensures n != -1 ==> pos == old(pos) + n && buf[..n] == src[old(pos)..pos]
    {
      var failed: bool := *;
      if failed && !reliable {
        return -1;
      }
      n := if size <= |src| - pos then size else |src| - pos;
      for i := 0 to n
        invariant pos == old(pos) && buf[..i] == src[pos..pos + i]
      {
        buf[i] := src[pos + i];
        assert src[pos..pos + i + 1] == src[pos..pos + i] + [src[pos + i]];
      }
      pos := pos + n;
    }

    method Write(s: string) returns (error: bool)
      modifies this`dst
      ensures reliable ==> !error
      ensures !error ==> dst == old(dst) + s
    {
      var failed: bool := *;
      if failed && !reliable {
        return true;
      }
      dst := dst + s;
      error := false;
    }

    /** The loop of anylise_word over the digits d, the end of the word. */
    method ScanDigits(buf: array<char>, from: nat, len: nat, ghost d: string) returns (k: nat)
      requires from + len <= buf.Length && d == buf[from..from + len]
      modifies this`numMod3, this`lastDigit
      ensures k <= |d| && Scanned(d, k, old(numMod3), numMod3, lastDigit) && (k < |d| ==> !IsDigit(d[k]))
    {
      hide Scanned, IsDigit;
      ghost var carry, all := numMod3, buf[..];
      k := 0;
      ScanNone(d, carry, lastDigit);
      while k < len && IsDigit(buf[from + k])
        invariant buf[..] == all && k <= |d| && Scanned(d, k, carry, numMod3, lastDigit)
      {
        assert buf[from + k] == d[k];
        ScanOne(d, k, carry, numMod3, lastDigit);
        lastDigit := DigitOf(buf[from + k]);
        numMod3 := (lastDigit + numMod3) % 3;
        k := k + 1;
      }
      assert k < |d| ==> buf[from + k] == d[k];
    }

    /** anylise_word. The digit state is static; only a word that is followed by white space clears it. */
    method AnalyseWord(buf: array<char>, from: nat, len: nat, mode: Mode, ghost w: string) returns (kind: Type)
      requires from + len <= buf.Length && w == buf[from..from + len] && len > 0 && 0 <= numMod3 < 3
      modifies this`numMod3, this`lastDigit
      ensures kind == TypeOf(w, if mode == Next then 0 else old(numMod3))
      ensures numMod3 == StateAfter(w, if mode == Next then 0 else old(numMod3))
    {
      if mode == Next {
        numMod3, lastDigit := 0, 1;
      }
      ghost var state := numMod3;
      assert w == buf[from..from + len] && w[0] == buf[from];
      DashOnly();
      hide TypeOf, StateAfter, Scanned, IsDigit;
      if buf[from] == '-' && len == 1 {
        assert w == "-";
        return Str;
      }
      var offset := 0;
      if buf[from] == '-' {
        offset := 1;
      }
      ghost var d := Unsigned(w);
      assert d == w[offset..] == buf[from + offset..from + len] && d != "";
      hide Unsigned;
      var k := ScanDigits(buf, from + offset, len - offset, d);
      ScanDone(w, k, state, numMod3, lastDigit);
      if offset + k != len {
        return Str;
      }
      if numMod3 == 0 && lastDigit % 5 == 0 {
        return BizzBuzz;
      }
      if numMod3 == 0 {
        return Bizz;
      }
      kind := if lastDigit % 5 == 0 then Buzz else Str;
    }

    /** print_word: what stands for the word, or its own bytes, read again from the file. */
    method PrintWord(kind: Type, offset: nat, size: nat) returns (error: bool)
      requires offset + size <= |src|
      modifies this`pos, this`dst
      ensures kind == Default ==> error
      ensures reliable && kind != Default ==> !error
      ensures !error ==> dst == old(dst) + Shown(kind, src[offset..offset + size])
      ensures pos <= |src| || pos == old(pos)
    {
      match kind
      case Bizz =>
        error := Write("bizz");
      case Buzz =>
        error := Write("buzz");
      case BizzBuzz =>
        error := Write("bizzbuzz");
      case Default =>
        error := true;
      case Str =>
        pos := offset;
        var left := size;
        var buf := new char[MAX_LEN];
        assert old(dst) + src[offset..offset] == dst;
        while left > 0
          invariant 0 <= left <= size && pos == offset + (size - left)
          invariant dst == old(dst) + src[offset..pos]
          decreases left
        {
          ghost var was := pos;
          var n := Read(buf, if left > MAX_LEN then MAX_LEN else left);
          if n == -1 {
            return true;
          }
          error := Write(buf[..n]);
          if error {
            return;
          }
          assert src[offset..was] + src[was..pos] == src[offset..pos];
          left := left - n;
        }
        error := false;
    }

    /** The second half of a turn: print_word, after which reading goes on where it was. */
    method PrintWhenOver(over: bool, kind: Type, offset: nat, size: nat, offsetRead: nat) returns (error: bool)
      requires offset + size <= |src| && pos == offsetRead && kind != Default
      modifies this`pos, this`dst
      ensures reliable ==> !error
      ensures !error ==> pos == offsetRead
      ensures !error ==> dst == old(dst) + if over then Shown(kind, src[offset..offset + size]) else ""
    {
      if !over {
        return false;
      }
      error := PrintWord(kind, offset, size);
      if !error {
        pos := offsetRead;
      }
    }

    /** The first half of a turn: find_word and, unless the word is known not to be a number, anylise_word. */
    method FindAndAnalyse(buf: array<char>, base: nat, n: nat, offsetBuf: nat, was: Type,
                          ghost c: nat, ghost t: string)
      returns (mode: Mode, length: nat, kind: Type, ghost w: string)
      requires offsetBuf < n <= buf.Length && base + n <= |src| && buf[..n] == src[base..base + n]
      requires c == base + offsetBuf && t == src[c..base + n] && 0 <= numMod3 < 3
      modifies this`numMod3, this`lastDigit
      ensures Found(t, mode, length) && 0 < length <= n - offsetBuf
      ensures mode == Continue ==> offsetBuf + length == n
      ensures mode == Space && offsetBuf == 0 ==> IsSpace(buf[0])
      ensures w == src[c..c + length] && kind != Default && 0 <= numMod3 < 3
      ensures Analysed(w, mode, Verdict(was, old(numMod3)), Verdict(kind, numMod3))
    {
      hide StateAfter;
      hide Found;
      BlockSlice(buf[..], src, base, n, offsetBuf, n - offsetBuf);
      assert t[0] == buf[offsetBuf];
      mode, length := FindWord(buf, offsetBuf, n - offsetBuf, t);
      assert Found(t, mode, length) by {
        FoundIt(t, mode, length);
      }
      w := src[c..c + length];
      BlockSlice(buf[..], src, base, n, offsetBuf, length);
      kind := was;
      if mode == Space {
        kind := Str;
      } else if mode == Next || kind != Str {
        kind := AnalyseWord(buf, offsetBuf, length, mode, w);
      }
    }

    /** One turn of the inner loop: a word or white space found, analysed and, when it is over, printed. */
    method TakeWord(buf: array<char>, base: nat, n: nat, offsetBuf: nat, size: nat, was: Progress)
      returns (error: bool, length: nat, p: Progress)
      requires n <= buf.Length && offsetBuf < n <= size && base + size == |src|
      requires AtBlockEnd(base) && n <= MAX_LEN && (n < MAX_LEN ==> n == size)
      requires buf[..n] == src[base..base + n] && pos == base + n && 0 <= numMod3 < 3
      requires Sound(was, base + offsetBuf, offsetBuf, n, size, !IsSpace(buf[0]))
      requires Right(src, base + offsetBuf, dst, numMod3, was)
      modifies this`pos, this`dst, this`numMod3, this`lastDigit
      ensures reliable ==> !error
      ensures !error ==> 0 < length && offsetBuf + length <= n && pos == base + n && 0 <= numMod3 < 3
      ensures !error ==> Sound(p, base + offsetBuf + length, offsetBuf + length, n, size, true)
      ensures !error ==> Right(src, base + offsetBuf + length, dst, numMod3, p)
    {
      hide Found, Sound, Right, Advance, Shown, TypeOf, StateAfter, IsSpace, Analysed, AtBlockEnd, Room;
      ghost var c: nat, startsSpace := base + offsetBuf, IsSpace(buf[0]);
      ghost var t := src[c..base + n];
      ghost var dstWas, numWas := dst, numMod3;
      var mode, kind;
      ghost var w;
      mode, length, kind, w := FindAndAnalyse(buf, base, n, offsetBuf, was.kind, c, t);
      p := was;
      if kind == Default {
        error := true;
        return;
      }
      var over := mode == Next || mode == Space || size == offsetBuf + length;
      AdvanceSound(was, mode, kind, length, base, offsetBuf, n, size, startsSpace, over);
      SoundMeans(was, c, offsetBuf, n, size, !startsSpace);
      RoomInBlock(base, offsetBuf);
      error := PrintWhenOver(over, kind, was.offsetFile, was.longSize + length, base + n);
      if error {
        return;
      }
      p := Advance(was, mode, kind, length, over);
      assert was.offsetFile + (was.longSize + length) == c + length;
      AdvanceRight(src, c, base + n, mode, length, t, w, was, dstWas, numWas, Verdict(kind, numMod3), over,
                   src[was.offsetFile..c + length], dst);
    }

    /** A word that reached the end of the last block, and white space at the start of this one. */
    method FinishWord(buf: array<char>, n: nat, offsetRead: nat, was: Progress, size: nat)
      returns (error: bool, p: Progress)
      requires 0 < n <= buf.Length && n <= size && n <= offsetRead <= |src| && pos == offsetRead
      requires buf[..n] == src[offsetRead - n..offsetRead]
      requires Sound(was, offsetRead - n, 0, n, size, true)
      requires Right(src, offsetRead - n, dst, numMod3, was)
      modifies this`pos, this`dst
      ensures reliable ==> !error
      ensures !error ==> pos == offsetRead && Sound(p, offsetRead - n, 0, n, size, !IsSpace(buf[0]))
      ensures !error ==> Right(src, offsetRead - n, dst, numMod3, p)
    {
      hide Right, Shown;
      if was.mode != Continue || !IsSpace(buf[0]) {
        return false, was;
      }
      assert buf[0] == buf[..n][0] == src[offsetRead - n];
      FinishRight(src, offsetRead - n, dst, numMod3, was);
      error := PrintWhenOver(true, was.kind, was.offsetFile, was.longSize, offsetRead);
      p := Progress(Next, Default, 0, was.offsetFile + was.longSize);
    }

    /** print_bizzbuzz, for every file: the output is Output, and the rewriting that is wanted exactly
        when every word comes out right. */
    method PrintBizzbuzz() returns (error: bool)
      requires AtStart()
      modifies this
      ensures reliable ==> !error
      ensures !error ==> dst == Output(src, 0, 0)
      ensures !error ==> (dst == Rewrite(src) <==> AllComeOutRight(src, 0, 0))
    {
      hide Sound, Right, IsSpace, Output, Rewrite, AllComeOutRight, AtBlockEnd;
      var size := |src|;
      var buffer := new char[MAX_LEN](_ => '\0');
      var p := Progress(Next, Default, 0, 0);
      var offsetRead := 0;
      AllToCome(src);
      BlockBegins(0);
      while size > 0
        invariant 0 <= size && offsetRead + size == |src| && pos == offsetRead && 0 <= numMod3 < 3
        invariant size > 0 ==> AtBlockEnd(offsetRead) && Sound(p, offsetRead, 0, 1, size, true)
        invariant size == 0 && p.mode == Continue ==> p.kind == Default
        invariant Right(src, offsetRead, dst, numMod3, p)
        decreases size
      {
        var offsetBuf := 0;
        var n := Read(buffer, MAX_LEN);
        if n == -1 {
          return true;
        }
        offsetRead := offsetRead + n;
        SoundAnyBlock(p, offsetRead - n, n, size);
        var was := p;
        error, p := FinishWord(buffer, n, offsetRead, was, size);
        if error {
          return;
        }
        while offsetBuf != n
          invariant 0 <= offsetBuf <= n && pos == offsetRead && 0 <= numMod3 < 3
          invariant buffer[..n] == src[offsetRead - n..offsetRead]
          invariant Sound(p, offsetRead - n + offsetBuf, offsetBuf, n, size, !IsSpace(buffer[0]))
          invariant Right(src, offsetRead - n + offsetBuf, dst, numMod3, p)
          decreases n - offsetBuf
        {
          var length;
          error, length, p := TakeWord(buffer, offsetRead - n, n, offsetBuf, size, p);
          if error {
            return;
          }
          offsetBuf := offsetBuf + length;
          SoundInside(p, offsetRead - n + offsetBuf, offsetBuf, n, size, !IsSpace(buffer[0]));
        }
        SoundNextBlock(p, offsetRead, n, size);
        BlockBegins(offsetRead - n);
        size := size - n;
      }
      AllWritten(src, dst, numMod3, p);
      RewriteExactly(src, 0, 0);
      error := false;
    }
  }
}
