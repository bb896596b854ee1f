/** The command parser of pipe (pipe/parser.c:73-193). It reads the text twice, once to count and
    once to cut it up in place, and must come to the same words both times. */
module PipeParser {
  import opened CType

  const NUL: char := '\0'
  const NULL := -1

  // --- What the words of a text are ---

  /** Where c first is in s, or |s|. */
  function First(s: string, c: char): (k: nat)
    ensures k <= |s| && (k < |s| ==> s[k] == c)
  {
    if s == "" || s[0] == c then 0 else 1 + First(s[1..], c)
  }

  lemma {:induction false} NotBeforeFirst(s: string, c: char)
    ensures c !in s[..First(s, c)]
    decreases s
  {
    if s != "" && s[0] != c {
      NotBeforeFirst(s[1..], c);
      assert s[..First(s, c)] == [s[0]] + s[1..][..First(s[1..], c)];
    }
  }

  lemma {:induction false} UpToFirst(s: string, c: char, i: nat)
    requires i <= First(s, c)
    ensures i < First(s, c) <==> i < |s| && s[i] != c
    decreases s
  {
    if i > 0 {
      UpToFirst(s[1..], c, i - 1);
    }
  }

  lemma {:induction false} FirstAt(s: string, c: char, k: nat)
    requires k <= |s| && c !in s[..k] && (k < |s| ==> s[k] == c)
    ensures First(s, c) == k
    decreases s
  {
    if k > 0 {
      assert s[0] == s[..k][0];
      assert s[1..][..k - 1] == s[..k][1..];
      FirstAt(s[1..], c, k - 1);
    }
  }

  /** The white space in front of s. */
  function Lead(s: string): (n: nat)
    ensures n <= |s| && (n < |s| ==> !IsSpace(s[n]))
  {
    if s == "" || !IsSpace(s[0]) then 0 else 1 + Lead(s[1..])
  }

  lemma {:induction false} UpToLead(s: string, i: nat)
    requires i <= Lead(s)
    ensures i < Lead(s) <==> i < |s| && IsSpace(s[i])
    decreases s
  {
    if i > 0 {
      UpToLead(s[1..], i - 1);
    }
  }

  lemma {:induction false} LeadIsSpace(s: string)
    ensures AllSpace(s[..Lead(s)])
    decreases s
  {
    if s != "" && IsSpace(s[0]) {
      LeadIsSpace(s[1..]);
      assert s[..Lead(s)] == [s[0]] + s[1..][..Lead(s[1..])];
    }
  }

  function Trim(s: string): string {
    s[Lead(s)..]
  }

  function SplitBars(s: string): (segs: seq<string>)
    ensures |segs| >= 1 && (|segs| > 1 <==> First(s, '|') < |s|)
    decreases |s|
  {
    var k := First(s, '|');
    if k == |s| then [s] else [s[..k]] + SplitBars(s[k + 1..])
  }

  /** Words are split at a space and whatever white space follows it. */
  function Words(s: string): (ws: seq<string>)
    ensures |ws| >= 1
    decreases |s|
  {
    var k := First(s, ' ');
    if k == |s| then [s]
    else
      var rest := Trim(s[k + 1..]);
      if rest == "" then [s[..k]] else [s[..k]] + Words(rest)
  }

  function CommandWords(segment: string): (ws: seq<string>)
    ensures |ws| >= 1
  {
    Words(Trim(segment))
  }

  // --- Printing and parsing ---

  function JoinBars(segs: seq<string>): string
    requires |segs| >= 1
  {
    if |segs| == 1 then segs[0] else segs[0] + "|" + JoinBars(segs[1..])
  }

  lemma {:induction false} SplitThenJoin(s: string)
    ensures JoinBars(SplitBars(s)) == s
    ensures forall i :: 0 <= i < |SplitBars(s)| ==> '|' !in SplitBars(s)[i]
    decreases |s|
  {
    NotBeforeFirst(s, '|');
    var k := First(s, '|');
    if k < |s| {
      var segs := SplitBars(s[k + 1..]);
      SplitThenJoin(s[k + 1..]);
      assert SplitBars(s) == [s[..k]] + segs;
      assert s == s[..k] + "|" + s[k + 1..];
      hide SplitBars, First;
      assert ([s[..k]] + segs)[1..] == segs;
    } else {
      assert s[..k] == s;
    }
  }

  lemma FirstOfJoin(a: string, c: char, b: string)
    requires c !in a
    ensures First(a + [c] + b, c) == |a|
  {
    assert (a + [c] + b)[..|a|] == a;
    FirstAt(a + [c] + b, c, |a|);
  }

  lemma SplitCons(a: string, s: string)
    requires '|' !in a
    ensures SplitBars(a + "|" + s) == [a] + SplitBars(s)
  {
    FirstOfJoin(a, '|', s);
    assert (a + "|" + s)[|a| + 1..] == s && (a + "|" + s)[..|a|] == a;
  }

  lemma NoBar(s: string)
    requires '|' !in s
    ensures SplitBars(s) == [s]
  {
    assert s[..|s|] == s;
    FirstAt(s, '|', |s|);
  }

  lemma {:induction false} JoinThenSplit(segs: seq<string>)
    requires |segs| >= 1 && forall i :: 0 <= i < |segs| ==> '|' !in segs[i]
    ensures SplitBars(JoinBars(segs)) == segs
    decreases |segs|
  {
    if |segs| > 1 {
      hide SplitBars, First;
      JoinThenSplit(segs[1..]);
      SplitCons(segs[0], JoinBars(segs[1..]));
      assert segs == [segs[0]] + segs[1..];
    } else {
      NoBar(segs[0]);
    }
  }

  /** A word that can be read back: not empty, no space in it, no white space in front. */
  predicate IsWord(w: string) {
    w != "" && ' ' !in w && !IsSpace(w[0])
  }

  /** A space and more white space. */
  predicate IsGap(g: string) {
    g != "" && g[0] == ' ' && AllSpace(g[1..])
  }

  /** Words with a gap after each, the last gap perhaps empty. */
  function Weave(ws: seq<string>, gaps: seq<string>): string
    requires |ws| == |gaps|
  {
    if ws == [] then "" else ws[0] + gaps[0] + Weave(ws[1..], gaps[1..])
  }

  predicate Proper(ws: seq<string>, gaps: seq<string>) {
    && |ws| == |gaps| >= 1 && IsWord(ws[0])
    && if |ws| == 1 then gaps[0] == "" || IsGap(gaps[0]) else IsGap(gaps[0]) && Proper(ws[1..], gaps[1..])
  }

  lemma {:induction false} TrimGap(g: string, s: string)
    requires AllSpace(g) && (s == "" || !IsSpace(s[0]))
    ensures Trim(g + s) == s && Lead(g + s) == |g|
    decreases g
  {
    if g != "" {
      assert (g + s)[1..] == g[1..] + s;
      TrimGap(g[1..], s);
    } else {
      assert g + s == s;
    }
  }

  lemma OneWordLess(s: string, k: nat, rest: string)
    requires k == First(s, ' ') < |s| && rest == Trim(s[k + 1..])
    ensures Words(s) == if rest == "" then [s[..k]] else [s[..k]] + Words(rest)
  {
    hide First, Lead;
  }

  lemma WordsCons(w: string, g: string, rest: string)
    requires IsWord(w) && IsGap(g) && (rest == "" || !IsSpace(rest[0]))
    ensures Words(w + g + rest) == if rest == "" then [w] else [w] + Words(rest)
  {
    var s := w + g + rest;
    assert s == w + [' '] + (g[1..] + rest);
    FirstOfJoin(w, ' ', g[1..] + rest);
    assert s[|w| + 1..] == g[1..] + rest && s[..|w|] == w;
    TrimGap(g[1..], rest);
  }

  lemma OneWord(s: string)
    requires IsWord(s)
    ensures Words(s) == [s]
  {
    assert s[..|s|] == s;
    FirstAt(s, ' ', |s|);
  }

  /** Written with any gaps, words are read back. */
  lemma {:induction false} WordsReadBack(ws: seq<string>, gaps: seq<string>)
    requires Proper(ws, gaps)
    ensures Words(Weave(ws, gaps)) == ws
    ensures Weave(ws, gaps) != "" && !IsSpace(Weave(ws, gaps)[0])
    decreases |ws|
  {
    hide Words;
    var rest := Weave(ws[1..], gaps[1..]);
    assert Weave(ws, gaps)[0] == ws[0][0];
    assert ws == [ws[0]] + ws[1..];
    if gaps[0] == "" {
      assert ws[0] + "" + "" == ws[0];
      OneWord(ws[0]);
    } else {
      if |ws| > 1 {
        WordsReadBack(ws[1..], gaps[1..]);
      }
      hide IsWord, IsGap;
      WordsCons(ws[0], gaps[0], rest);
    }
  }

  /** The first word of s and the gap behind it. */
  lemma FirstGap(s: string, k: nat, n: nat)
    requires s != "" && !IsSpace(s[0]) && k == First(s, ' ') < |s| && n == Lead(s[k + 1..])
    ensures IsWord(s[..k]) && IsGap(s[k..k + 1 + n]) && s == s[..k] + s[k..k + 1 + n] + Trim(s[k + 1..])
  {
    NotBeforeFirst(s, ' ');
    LeadIsSpace(s[k + 1..]);
    assert s[k] == ' ' && n <= |s| - k - 1;
    assert Trim(s[k + 1..]) == s[k + 1..][n..];
    hide First, Lead, Trim, AllSpace;
    CutAt(s, k, n);
    var w := s[..k];
    assert w[0] == s[0];
  }

  lemma CutAt(s: string, k: nat, n: nat)
    requires k + 1 + n <= |s|
    ensures s[k..k + 1 + n][1..] == s[k + 1..][..n] && s[k..k + 1 + n][0] == s[k]
    ensures s == s[..k] + s[k..k + 1 + n] + s[k + 1..][n..]
  {
    var r := s[k + 1..];
    assert s[k..k + 1 + n][1..] == r[..n];
    assert r[n..] == s[k + 1 + n..];
  }

  /** And every trimmed text but the empty one is written so: nothing but gaps is lost. */
  lemma {:induction false} EveryTextIsWoven(s: string) returns (gaps: seq<string>)
    requires s != "" && !IsSpace(s[0])
    ensures Proper(Words(s), gaps) && Weave(Words(s), gaps) == s
    decreases |s|
  {
    var k := First(s, ' ');
    if k == |s| {
      gaps := [""];
      NotBeforeFirst(s, ' ');
      assert s[..k] == s && s + "" + "" == s;
      assert Weave([s][1..], gaps[1..]) == "";
    } else {
      var n, rest := Lead(s[k + 1..]), Trim(s[k + 1..]);
      OneWordLess(s, k, rest);
      FirstGap(s, k, n);
      var more := [];
      if rest != "" {
        more := EveryTextIsWoven(rest);
      }
      hide IsWord, IsGap, Words, First, Lead, Trim;
      gaps := [s[k..k + 1 + n]] + more;
      assert gaps[1..] == more;
      if rest != "" {
        assert Words(s)[1..] == Words(rest);
        assert |Words(s)| > 1;
      } else {
        assert Words(s)[1..] == [];
        assert s[..k] + s[k..k + 1 + n] + "" == s;
      }
    }
  }

  // --- C strings in a buffer ---

  ghost predicate StrIs(b: seq<char>, p: int, s: string) {
    0 <= p && p + |s| < |b| && b[p..p + |s|] == s && b[p + |s|] == NUL && NUL !in s
  }

  lemma StrStays(b: seq<char>, c: seq<char>, p: int, s: string)
    requires StrIs(b, p, s) && |b| == |c| && forall i :: p <= i <= p + |s| ==> c[i] == b[i]
    ensures StrIs(c, p, s)
  {
  }

  lemma StrSuffix(b: seq<char>, p: int, s: string, k: nat)
    requires StrIs(b, p, s) && k <= |s|
    ensures StrIs(b, p + k, s[k..])
  {
    assert b[p + k..p + |s|] == b[p..p + |s|][k..];
  }

  /** A NUL written into a string ends it there and leaves the rest as a string. */
  lemma StrCut(b: seq<char>, c: seq<char>, p: int, s: string, k: nat)
    requires StrIs(b, p, s) && k < |s| && c == b[p + k := NUL]
    ensures StrIs(c, p, s[..k]) && StrIs(c, p + k + 1, s[k + 1..])
  {
    StrSuffix(b, p, s, k + 1);
    assert c[p..p + k] == b[p..p + |s|][..k];
    StrStays(b, c, p + k + 1, s[k + 1..]);
  }

  /** What the byte at p + i is, while scanning a string. */
  lemma StrAt(b: seq<char>, p: int, s: string, i: nat)
    requires StrIs(b, p, s) && i <= |s|
    ensures 0 <= p && p + |s| < |b|
    ensures b[p + i] == (if i < |s| then s[i] else NUL) && (b[p + i] == NUL <==> i == |s|)
  {
    if i < |s| {
      assert b[p + i] == b[p..p + |s|][i] && s[i] in s;
    }
  }

  method StrChr(buf: array<char>, p: nat, c: char, ghost s: string) returns (k: int)
    requires StrIs(buf[..], p, s) && c != NUL
    ensures k == if First(s, c) < |s| then p + First(s, c) else NULL
  {
    k := p;
    StrAt(buf[..], p, s, 0);
    UpToFirst(s, c, 0);
    while buf[k] != NUL && buf[k] != c
      invariant p <= k <= p + First(s, c) && k < buf.Length
      invariant buf[k] == (if k - p < |s| then s[k - p] else NUL) && (buf[k] == NUL <==> k - p == |s|)
      invariant k - p < First(s, c) <==> k - p < |s| && s[k - p] != c
      decreases p + |s| - k
    {
      k := k + 1;
      StrAt(buf[..], p, s, k - p);
      UpToFirst(s, c, k - p);
    }
    if buf[k] == NUL {
      k := NULL;
    }
  }

  method SkipSpaces(buf: array<char>, p: nat, ghost s: string) returns (q: nat)
    requires StrIs(buf[..], p, s)
    ensures q == p + Lead(s) && StrIs(buf[..], q, Trim(s))
  {
    q := p;
    StrAt(buf[..], p, s, 0);
    UpToLead(s, 0);
    while IsSpace(buf[q])
      invariant p <= q <= p + Lead(s) && q < buf.Length
      invariant buf[q] == if q - p < |s| then s[q - p] else NUL
      invariant q - p < Lead(s) <==> q - p < |s| && IsSpace(s[q - p])
      decreases p + |s| - q
    {
      q := q + 1;
      StrAt(buf[..], p, s, q - p);
      UpToLead(s, q - p);
    }
    StrSuffix(buf[..], p, s, Lead(s));
  }

  // --- The two passes ---

  lemma OneSegmentLess(s: string, k: nat)
    requires k == First(s, '|') < |s|
    ensures SplitBars(s) == [s[..k]] + SplitBars(s[k + 1..])
  {
    hide First;
  }

  method CountTokens(buf: array<char>, ghost text: string) returns (count: nat)
    requires StrIs(buf[..], 0, text)
    ensures count == if First(text, '|') < |text| then |SplitBars(text)| else 0
  {
    hide SplitBars, StrIs;
    var begin: nat := 0;
    count := 0;
    ghost var rest := text;
    var end := StrChr(buf, begin, '|', rest);
    while end != NULL
      invariant StrIs(buf[..], begin, rest)
      invariant count + |SplitBars(rest)| == |SplitBars(text)|
      invariant begin != 0 <==> count > 0
      invariant if count == 0 then rest == text else First(text, '|') < |text|
      invariant end == if First(rest, '|') < |rest| then begin + First(rest, '|') else NULL
      decreases |rest|
    {
      ghost var k := First(rest, '|');
      OneSegmentLess(rest, k);
      StrSuffix(buf[..], begin, rest, k + 1);
      rest := rest[k + 1..];
      begin := end + 1;
      count := count + 1;
      end := StrChr(buf, begin, '|', rest);
    }
    if begin != 0 {
      count := count + 1;
    }
  }

  method GetArgcCmd(buf: array<char>, at: nat, ghost s: string) returns (count: nat)
    requires StrIs(buf[..], at, s)
    ensures count == |Words(s)|
  {
    hide Words, First, Lead, StrIs, IsSpace;
    var begin: nat := at;
    count := 1;
    ghost var rest, b := s, buf[..];
    var end := StrChr(buf, begin, ' ', rest);
    while end != NULL
      invariant buf[..] == b && StrIs(b, begin, rest)
      invariant count + |Words(rest)| == 1 + |Words(s)|
      invariant end == if First(rest, ' ') < |rest| then begin + First(rest, ' ') else NULL
      decreases |rest|
    {
      ghost var k := First(rest, ' ');
      ghost var tail := rest[k + 1..];
      StrSuffix(b, begin, rest, k + 1);
      OneWordLess(rest, k, Trim(tail));
      rest := Trim(tail);
      begin := SkipSpaces(buf, end + 1, tail);
      assert buf[..] == b;
      hide Trim;
      StrAt(b, begin, rest, 0);
      if buf[begin] == NUL {
        return;
      }
      count := count + 1;
      end := StrChr(buf, begin, ' ', rest);
    }
    NoMoreWords(rest);
  }

  lemma NoMoreWords(s: string)
    requires First(s, ' ') == |s|
    ensures Words(s) == [s]
  {
  }

  /** The first n pointers are to the first n words, as strings that end before hi. */
  ghost predicate Points(b: seq<char>, argv: seq<int>, ws: seq<string>, n: nat, lo: int, hi: int) {
    n <= |argv| && n <= |ws| && forall j :: 0 <= j < n ==> PointsTo(b, argv[j], ws[j], lo, hi)
  }

  ghost predicate PointsTo(b: seq<char>, p: int, w: string, lo: int, hi: int) {
    StrIs(b, p, w) && lo <= p && p + |w| < hi
  }

  predicate Separator(c: char) {
    c == ' ' || c == '|'
  }

  /** Between lo and hi, separators have become NUL; nothing else has changed. */
  ghost predicate OnlyCut(b: seq<char>, c: seq<char>, lo: int, hi: int) {
    |b| == |c| && forall i :: 0 <= i < |b| && c[i] != b[i] ==> lo <= i < hi && Separator(b[i]) && c[i] == NUL
  }

  lemma PointsStay(b: seq<char>, c: seq<char>, argv: seq<int>, ws: seq<string>, n: nat, lo: int, hi: int)
    requires Points(b, argv, ws, n, lo, hi) && |b| == |c| && forall i :: 0 <= i < |b| && i < hi ==> c[i] == b[i]
    ensures Points(c, argv, ws, n, lo, hi)
  {
    forall j | 0 <= j < n ensures PointsTo(c, argv[j], ws[j], lo, hi) {
      assert PointsTo(b, argv[j], ws[j], lo, hi);
      StrStays(b, c, argv[j], ws[j]);
    }
  }

  lemma PointsWiden(b: seq<char>, argv: seq<int>, ws: seq<string>, n: nat, lo: int, hi: int, lo': int, hi': int)
    requires Points(b, argv, ws, n, lo, hi) && lo' <= lo && hi <= hi'
    ensures Points(b, argv, ws, n, lo', hi')
  {
    forall j | 0 <= j < n ensures PointsTo(b, argv[j], ws[j], lo', hi') {
      assert PointsTo(b, argv[j], ws[j], lo, hi);
    }
  }

  lemma PointsMore(b: seq<char>, argv: seq<int>, ws: seq<string>, n: nat, lo: int, hi: int, p: int, hi': int)
    requires Points(b, argv, ws, n, lo, hi) && n < |argv| && n < |ws|
    requires PointsTo(b, p, ws[n], lo, hi') && hi <= hi'
    ensures Points(b, argv[n := p], ws, n + 1, lo, hi')
  {
    PointsWiden(b, argv, ws, n, lo, hi, lo, hi');
    forall j | 0 <= j < n + 1 ensures PointsTo(b, argv[n := p][j], ws[j], lo, hi') {
      assert j < n ==> PointsTo(b, argv[j], ws[j], lo, hi');
    }
  }

  /** get_argv_cmd before its i-th word, which rest starts with. */
  ghost predicate ArgvAt(b0: seq<char>, b: seq<char>, argv: seq<int>, s: string, i: nat, at: nat, begin: nat,
                         rest: string) {
    && i < |Words(s)| && |argv| == |Words(s)| + 1 && argv[|Words(s)|] == NULL
    && StrIs(b, begin, rest) && Words(rest) == Words(s)[i..]
    && at <= begin && begin + |rest| == at + |s|
    && Points(b, argv, Words(s), i, at, begin) && OnlyCut(b0, b, at, begin)
  }

  lemma ArgvFirst(b: seq<char>, argv: seq<int>, s: string, at: nat)
    requires StrIs(b, at, s) && |argv| == |Words(s)| + 1 && argv[|Words(s)|] == NULL
    ensures ArgvAt(b, b, argv, s, 0, at, at, s)
  {
  }

  lemma WordHere(ws: seq<string>, i: nat, rest: string, k: nat)
    requires i < |ws| && Words(rest) == ws[i..] && k == First(rest, ' ') < |rest|
    ensures ws[i] == rest[..k]
    ensures i + 1 < |ws| ==> Trim(rest[k + 1..]) != "" && Words(Trim(rest[k + 1..])) == ws[i + 1..]
  {
    var next := Trim(rest[k + 1..]);
    OneWordLess(rest, k, next);
    hide Words, First, Trim;
    assert ws[i] == ws[i..][0];
    if i + 1 < |ws| {
      assert |ws[i..]| > 1;
      assert Words(next) == ws[i..][1..] == ws[i + 1..];
    }
  }

  lemma CutMore(b0: seq<char>, b: seq<char>, c: seq<char>, lo: int, from: int, e: int, to: int)
    requires OnlyCut(b0, b, lo, from) && 0 <= lo <= from <= e < |b| && e < to && Separator(b[e]) && c == b[e := NUL]
    ensures OnlyCut(b0, c, lo, to)
  {
    assert b[e] == b0[e];
    forall i | 0 <= i < |b0| && c[i] != b0[i] ensures lo <= i < to && Separator(b0[i]) && c[i] == NUL {
      if i != e {
        assert c[i] == b[i];
      }
    }
  }

  lemma ArgvCut(b0: seq<char>, b: seq<char>, c: seq<char>, argv: seq<int>, s: string, i: nat, at: nat, begin: nat,
                rest: string, k: nat)
    requires ArgvAt(b0, b, argv, s, i, at, begin, rest) && k == First(rest, ' ') < |rest|
    requires c == b[begin + k := NUL]
    ensures StrIs(c, begin + k + 1, rest[k + 1..])
    ensures Points(c, argv[i := begin], Words(s), i + 1, at, begin + k + 1)
    ensures OnlyCut(b0, c, at, begin + k + 1)
  {
    WordHere(Words(s), i, rest, k);
    StrAt(b, begin, rest, k);
    StrCut(b, c, begin, rest, k);
    hide StrIs, First, Trim, Lead, Words;
    CutMore(b0, b, c, at, begin, begin + k, begin + k + 1);
    hide OnlyCut;
    PointsStay(b, c, argv, Words(s), i, at, begin);
    PointsMore(c, argv, Words(s), i, at, begin, begin, begin + k + 1);
  }

  lemma CutWiden(b: seq<char>, c: seq<char>, lo: int, hi: int, lo': int, hi': int)
    requires OnlyCut(b, c, lo, hi) && lo' <= lo && hi <= hi'
    ensures OnlyCut(b, c, lo', hi')
  {
  }

  lemma StrTrim(b: seq<char>, p: int, s: string)
    requires StrIs(b, p, s)
    ensures StrIs(b, p + Lead(s), Trim(s)) && |Trim(s)| == |s| - Lead(s)
  {
    StrSuffix(b, p, s, Lead(s));
  }

  lemma ArgvNext(b0: seq<char>, b: seq<char>, c: seq<char>, argv: seq<int>, s: string, i: nat, at: nat, begin: nat,
                 rest: string, k: nat, tail: string)
    requires ArgvAt(b0, b, argv, s, i, at, begin, rest) && i + 1 < |Words(s)|
    requires k == First(rest, ' ') < |rest| && tail == rest[k + 1..]
    requires c == b[begin + k := NUL]
    ensures StrIs(c, begin + k + 1, tail) && Trim(tail) != ""
    ensures ArgvAt(b0, c, argv[i := begin], s, i + 1, at, begin + k + 1 + Lead(tail), Trim(tail))
  {
    hide StrIs, First, Points, OnlyCut, Words, Trim;
    ArgvCut(b0, b, c, argv, s, i, at, begin, rest, k);
    StrTrim(c, begin + k + 1, tail);
    var next: nat := begin + k + 1 + Lead(tail);
    PointsWiden(c, argv[i := begin], Words(s), i + 1, at, begin + k + 1, at, next);
    CutWiden(b0, c, at, begin + k + 1, at, next);
    WordHere(Words(s), i, rest, k);
  }

  lemma MoreWords(s: string)
    requires |Words(s)| > 1
    ensures First(s, ' ') < |s|
  {
  }

  /** After the last word only white space is left behind its cut, if there is one. */
  lemma ArgvLast(b0: seq<char>, b: seq<char>, c: seq<char>, argv: seq<int>, s: string, i: nat, at: nat, begin: nat,
                 rest: string, k: nat)
    requires ArgvAt(b0, b, argv, s, i, at, begin, rest) && i + 1 == |Words(s)| && k == First(rest, ' ')
    requires c == if k < |rest| then b[begin + k := NUL] else b
    ensures Points(c, argv[i := begin], Words(s), i + 1, at, at + |s| + 1)
    ensures OnlyCut(b0, c, at, at + |s|)
    ensures argv[i := begin][i + 1] == NULL
  {
    hide StrIs, First, Lead, Points, OnlyCut, Words;
    if k < |rest| {
      ArgvCut(b0, b, c, argv, s, i, at, begin, rest, k);
      PointsWiden(c, argv[i := begin], Words(s), i + 1, at, begin + k + 1, at, at + |s| + 1);
      CutWiden(b0, c, at, begin + k + 1, at, at + |s|);
    } else {
      NoMoreWords(rest);
      assert Words(s)[i] == Words(s)[i..][0] == rest;
      PointsMore(b, argv, Words(s), i, at, begin, begin, at + |s| + 1);
      CutWiden(b0, b, at, begin, at, at + |s|);
    }
  }

  lemma MoreWordsAhead(ws: seq<string>, i: nat, rest: string)
    requires i + 1 < |ws| && Words(rest) == ws[i..]
    ensures First(rest, ' ') < |rest|
  {
    assert |ws[i..]| > 1;
    MoreWords(rest);
  }

  method GetArgvCmd(buf: array<char>, at: nat, argc: nat, ghost s: string) returns (argv: seq<int>)
    requires StrIs(buf[..], at, s) && argc == |Words(s)|
    modifies buf
    ensures |argv| == argc + 1 && argv[argc] == NULL
    ensures Points(buf[..], argv, Words(s), argc, at, at + |s| + 1)
    ensures OnlyCut(old(buf[..]), buf[..], at, at + |s|)
  {
    hide Words, First, Lead, StrIs, IsSpace, Points, OnlyCut;
    argv := seq(argc + 1, _ => NULL);
    var begin: nat := at;
    var i := 0;
    var end;
    ghost var b0, b, c, rest := buf[..], buf[..], buf[..], s;
    ArgvFirst(b, argv, s, at);
    while i < argc - 1
      invariant i < argc && buf[..] == b && ArgvAt(b0, b, argv, s, i, at, begin, rest)
    {
      MoreWordsAhead(Words(s), i, rest);
      ghost var k, tail := First(rest, ' '), rest[First(rest, ' ') + 1..];
      StrAt(b, begin, rest, k);
      end := StrChr(buf, begin, ' ', rest);
      c := b[begin + k := NUL];
      ArgvNext(b0, b, c, argv, s, i, at, begin, rest, k, tail);
      if end != NULL {
        buf[end] := NUL;
      }
      argv := argv[i := begin];
      begin := SkipSpaces(buf, end + 1, tail);
      rest, b := Trim(tail), c;
      StrAt(b, begin, rest, 0);
      if buf[begin] == NUL {
        break;
      }
      i := i + 1;
    }
    end := StrChr(buf, begin, ' ', rest);
    ghost var k := First(rest, ' ');
    StrAt(b, begin, rest, k);
    c := if k < |rest| then b[begin + k := NUL] else b;
    ArgvLast(b0, b, c, argv, s, i, at, begin, rest, k);
    argv := argv[i := begin];
    if end != NULL {
      buf[end] := NUL;
    }
  }

  datatype Command = Command(argv: seq<int>, argc: nat)

  /** The words of one command, all as strings before hi, and the null pointer behind them. */
  ghost predicate CmdIs(b: seq<char>, cmd: Command, ws: seq<string>, hi: int) {
    && cmd.argc == |ws| && |cmd.argv| == cmd.argc + 1 && cmd.argv[cmd.argc] == NULL
    && Points(b, cmd.argv, ws, cmd.argc, 0, hi)
  }

  ghost predicate CmdsAre(b: seq<char>, cmds: seq<Command>, segs: seq<string>, hi: int) {
    |cmds| <= |segs| && forall i :: 0 <= i < |cmds| ==> CmdIs(b, cmds[i], CommandWords(segs[i]), hi)
  }

  /** placing_pointers_in_text before its i-th command. */
  ghost predicate TextAt(b0: seq<char>, b: seq<char>, cmds: seq<Command>, text: string, begin: nat, rest: string) {
    && |cmds| < |SplitBars(text)| && StrIs(b, begin, rest) && SplitBars(rest) == SplitBars(text)[|cmds|..]
    && CmdsAre(b, cmds, SplitBars(text), begin) && OnlyCut(b0, b, 0, begin) && begin + |rest| == |text|
  }

  lemma CmdsStay(b: seq<char>, c: seq<char>, cmds: seq<Command>, segs: seq<string>, hi: int, hi': int)
    requires CmdsAre(b, cmds, segs, hi) && hi <= hi'
    requires |b| == |c| && forall i :: 0 <= i < |b| && i < hi ==> c[i] == b[i]
    ensures CmdsAre(c, cmds, segs, hi')
  {
    forall i | 0 <= i < |cmds| ensures CmdIs(c, cmds[i], CommandWords(segs[i]), hi') {
      var ws := CommandWords(segs[i]);
      assert CmdIs(b, cmds[i], ws, hi);
      hide CommandWords, Points;
      PointsStay(b, c, cmds[i].argv, ws, |ws|, 0, hi);
      PointsWiden(c, cmds[i].argv, ws, |ws|, 0, hi, 0, hi');
    }
  }

  /** One command more has been cut out, between begin and e. */
  lemma OneMoreCmd(b: seq<char>, c: seq<char>, cmds: seq<Command>, segs: seq<string>, begin: int, q: int, e: int,
                   cmd: Command)
    requires CmdsAre(b, cmds, segs, begin) && |cmds| < |segs| && 0 <= begin <= q <= e
    requires OnlyCut(b, c, begin, e + 1)
    requires cmd.argc == |CommandWords(segs[|cmds|])| && |cmd.argv| == cmd.argc + 1 && cmd.argv[cmd.argc] == NULL
    requires Points(c, cmd.argv, CommandWords(segs[|cmds|]), cmd.argc, q, e + 1)
    ensures CmdsAre(c, cmds + [cmd], segs, e + 1)
  {
    hide CommandWords, Points;
    CmdsStay(b, c, cmds, segs, begin, e + 1);
    PointsWiden(c, cmd.argv, CommandWords(segs[|cmds|]), cmd.argc, q, e + 1, 0, e + 1);
    forall i | 0 <= i < |cmds| + 1 ensures CmdIs(c, (cmds + [cmd])[i], CommandWords(segs[i]), e + 1) {
    }
  }

  lemma LastSegment(s: string)
    requires First(s, '|') == |s|
    ensures SplitBars(s) == [s]
  {
  }

  lemma SegmentHere(segs: seq<string>, i: nat, rest: string)
    requires i < |segs| && SplitBars(rest) == segs[i..]
    ensures First(rest, '|') < |rest| <==> i + 1 < |segs|
    ensures var k := First(rest, '|');
            k <= |rest| && segs[i] == rest[..k] && (k < |rest| ==> SplitBars(rest[k + 1..]) == segs[i + 1..])
  {
    var k := First(rest, '|');
    assert |segs[i..]| == |segs| - i && segs[i] == segs[i..][0];
    if k < |rest| {
      OneSegmentLess(rest, k);
      var more := SplitBars(rest[k + 1..]);
      hide SplitBars, First;
      assert |more| >= 1;
      assert segs[i..] == [rest[..k]] + more;
      assert segs[i + 1..] == segs[i..][1..] == more;
    } else {
      LastSegment(rest);
      hide SplitBars, First;
      assert rest[..k] == rest;
    }
  }

  lemma CutSpaces(b: seq<char>, c: seq<char>, d: seq<char>, begin: int, e: int, q: int)
    requires 0 <= begin <= q <= e < |b| && b[e] == '|' && c == b[e := NUL] && OnlyCut(c, d, q, e)
    ensures OnlyCut(b, d, begin, e + 1)
  {
  }

  lemma StrBehindCut(c: seq<char>, d: seq<char>, lo: int, hi: int, p: int, s: string)
    requires OnlyCut(c, d, lo, hi) && StrIs(c, p, s) && hi <= p
    ensures StrIs(d, p, s)
  {
    StrStays(c, d, p, s);
  }

  lemma CutTwice(b0: seq<char>, b: seq<char>, c: seq<char>, begin: int, hi: int)
    requires OnlyCut(b0, b, 0, begin) && OnlyCut(b, c, begin, hi) && 0 <= begin <= hi
    ensures OnlyCut(b0, c, 0, hi)
  {
    forall i | 0 <= i < |b0| && c[i] != b0[i] ensures 0 <= i < hi && Separator(b0[i]) && c[i] == NUL {
      if b[i] != b0[i] {
        assert c[i] == b[i];
      }
    }
  }

  lemma SegmentCut(b0: seq<char>, b: seq<char>, c: seq<char>, d: seq<char>, begin: nat, seg: string, tail: string,
                   q: nat)
    requires StrIs(b, begin, seg + "|" + tail) && begin <= q <= begin + |seg| < |b| && c == b[begin + |seg| := NUL]
    requires OnlyCut(b0, b, 0, begin) && OnlyCut(c, d, q, begin + |seg|)
    ensures OnlyCut(b, d, begin, begin + |seg| + 1) && OnlyCut(b0, d, 0, begin + |seg| + 1)
    ensures StrIs(d, begin + |seg| + 1, tail)
  {
    var rest, k := seg + "|" + tail, |seg|;
    StrAt(b, begin, rest, k);
    StrCut(b, c, begin, rest, k);
    assert rest[k + 1..] == tail;
    hide StrIs, OnlyCut;
    CutSpaces(b, c, d, begin, begin + k, q);
    CutTwice(b0, b, d, begin, begin + k + 1);
    StrBehindCut(c, d, q, begin + k, begin + k + 1, tail);
  }

  lemma FirstSegment(segs: seq<string>, i: nat, seg: string, tail: string)
    requires i < |segs| && SplitBars(seg + "|" + tail) == segs[i..] && '|' !in seg
    ensures i + 1 < |segs| && segs[i] == seg && SplitBars(tail) == segs[i + 1..]
  {
    SplitCons(seg, tail);
    var more := SplitBars(tail);
    hide SplitBars;
    assert segs[i] == segs[i..][0];
    assert |segs[i..]| > 1;
    assert segs[i + 1..] == segs[i..][1..] == more;
  }

  lemma TextIs(b0: seq<char>, d: seq<char>, cmds: seq<Command>, text: string, begin: nat, rest: string)
    requires |cmds| < |SplitBars(text)| && StrIs(d, begin, rest) && SplitBars(rest) == SplitBars(text)[|cmds|..]
    requires CmdsAre(d, cmds, SplitBars(text), begin) && OnlyCut(b0, d, 0, begin) && begin + |rest| == |text|
    ensures TextAt(b0, d, cmds, text, begin, rest)
  {
    hide SplitBars, StrIs, CmdsAre, OnlyCut;
  }

  /** c is b with the bar behind seg cut; d is what get_argv_cmd made of it. */
  lemma TextNext(b0: seq<char>, b: seq<char>, c: seq<char>, d: seq<char>, cmds: seq<Command>, text: string,
                 begin: nat, seg: string, tail: string, cmd: Command)
    requires TextAt(b0, b, cmds, text, begin, seg + "|" + tail) && '|' !in seg
    requires begin + |seg| < |b| && c == b[begin + |seg| := NUL]
    requires OnlyCut(c, d, begin + Lead(seg), begin + |seg|)
    requires cmd.argc == |CommandWords(seg)| && |cmd.argv| == cmd.argc + 1 && cmd.argv[cmd.argc] == NULL
    requires Points(d, cmd.argv, CommandWords(seg), cmd.argc, begin + Lead(seg), begin + |seg| + 1)
    ensures TextAt(b0, d, cmds + [cmd], text, begin + |seg| + 1, tail)
  {
    var more, next := cmds + [cmd], begin + |seg| + 1;
    hide SplitBars, CommandWords, Points, StrIs, CmdsAre, OnlyCut;
    SegmentCut(b0, b, c, d, begin, seg, tail, begin + Lead(seg));
    hide Lead;
    assert CmdsAre(d, more, SplitBars(text), next) by {
      FirstSegment(SplitBars(text), |cmds|, seg, tail);
      OneMoreCmd(b, d, cmds, SplitBars(text), begin, begin + Lead(seg), begin + |seg|, cmd);
    }
    assert |more| < |SplitBars(text)| && SplitBars(tail) == SplitBars(text)[|more|..] by {
      FirstSegment(SplitBars(text), |cmds|, seg, tail);
    }
    assert next + |tail| == |text|;
    hide TextAt;
    TextIs(b0, d, more, text, next, tail);
  }

  lemma TextLast(b0: seq<char>, b: seq<char>, d: seq<char>, cmds: seq<Command>, text: string, begin: nat, rest: string,
                 cmd: Command)
    requires TextAt(b0, b, cmds, text, begin, rest) && |cmds| + 1 == |SplitBars(text)|
    requires OnlyCut(b, d, begin + Lead(rest), begin + |rest|)
    requires cmd.argc == |CommandWords(rest)| && |cmd.argv| == cmd.argc + 1 && cmd.argv[cmd.argc] == NULL
    requires Points(d, cmd.argv, CommandWords(rest), cmd.argc, begin + Lead(rest), begin + |rest| + 1)
    ensures CmdsAre(d, cmds + [cmd], SplitBars(text), |text| + 1) && OnlyCut(b0, d, 0, |text|)
  {
    SegmentHere(SplitBars(text), |cmds|, rest);
    assert rest[..|rest|] == rest;
    hide SplitBars, CommandWords, Points, StrIs, First, CmdsAre;
    CutWiden(b, d, begin + Lead(rest), begin + |rest|, begin, begin + |rest|);
    CutTwice(b0, b, d, begin, begin + |rest|);
    CutWiden(b, d, begin, begin + |rest|, begin, begin + |rest| + 1);
    hide OnlyCut;
    OneMoreCmd(b, d, cmds, SplitBars(text), begin, begin + Lead(rest), begin + |rest|, cmd);
  }

  /** A command at begin: its leading white space passed over, its words counted and cut out. */
  method CutCommand(buf: array<char>, begin: nat, ghost seg: string) returns (cmd: Command)
    requires StrIs(buf[..], begin, seg)
    modifies buf
    ensures cmd.argc == |CommandWords(seg)| && |cmd.argv| == cmd.argc + 1 && cmd.argv[cmd.argc] == NULL
    ensures Points(buf[..], cmd.argv, CommandWords(seg), cmd.argc, begin + Lead(seg), begin + |seg| + 1)
    ensures OnlyCut(old(buf[..]), buf[..], begin + Lead(seg), begin + |seg|)
  {
    hide Words, First, StrIs, IsSpace, Points, OnlyCut;
    ghost var b := buf[..];
    StrTrim(b, begin, seg);
    var at := SkipSpaces(buf, begin, seg);
    assert buf[..] == b;
    var argc := GetArgcCmd(buf, at, Trim(seg));
    assert buf[..] == b;
    var argv := GetArgvCmd(buf, at, argc, Trim(seg));
    cmd := Command(argv, argc);
  }

  /** placing_pointers_in_text: command by command, the words of the text as it was, each as a C
      string in the buffer; of the buffer only separators have changed. */
  method PlacingPointersInText(buf: array<char>, nCmds: nat, ghost text: string) returns (cmds: seq<Command>)
    requires StrIs(buf[..], 0, text) && nCmds == |SplitBars(text)|
    modifies buf
    ensures |cmds| == nCmds && CmdsAre(buf[..], cmds, SplitBars(text), |text| + 1)
    ensures OnlyCut(old(buf[..]), buf[..], 0, |text|)
  {
    hide SplitBars, CommandWords, First, Lead, StrIs, IsSpace, Points, OnlyCut, CmdsAre;
    cmds := [];
    var beginCmd: nat := 0;
    ghost var b0, b, c, rest := buf[..], buf[..], buf[..], text;
    TextFirst(b, text);
    var i := 0;
    while i < nCmds - 1
      invariant i == |cmds| < nCmds && buf[..] == b && TextAt(b0, b, cmds, text, beginCmd, rest)
    {
      SegmentHere(SplitBars(text), i, rest);
      ghost var k := First(rest, '|');
      ghost var seg, tail := rest[..k], rest[k + 1..];
      NotBeforeFirst(rest, '|');
      StrAt(b, beginCmd, rest, k);
      assert rest == seg + "|" + tail;
      c := b[beginCmd + k := NUL];
      StrCut(b, c, beginCmd, rest, k);
      var end := StrChr(buf, beginCmd, '|', rest);
      assert end != NULL;
      buf[end] := NUL;
      assert buf[..] == c;
      var cmd := CutCommand(buf, beginCmd, seg);
      TextNext(b0, b, c, buf[..], cmds, text, beginCmd, seg, tail, cmd);
      cmds := cmds + [cmd];
      beginCmd := end + 1;
      rest, b := tail, buf[..];
      i := i + 1;
    }
    var cmd := CutCommand(buf, beginCmd, rest);
    TextLast(b0, b, buf[..], cmds, text, beginCmd, rest, cmd);
    cmds := cmds + [cmd];
  }

  lemma TextFirst(b: seq<char>, text: string)
    requires StrIs(b, 0, text)
    ensures TextAt(b, b, [], text, 0, text)
  {
    assert SplitBars(text)[0..] == SplitBars(text);
  }

  /** text_ctor after the file has been read: -1 for a text without a bar. */
  method ParseText(buf: array<char>, ghost text: string) returns (result: int, cmds: seq<Command>)
    requires StrIs(buf[..], 0, text)
    modifies buf
    ensures result == if '|' in text then 0 else -1
    ensures result == -1 ==> buf[..] == old(buf[..]) && cmds == []
    ensures result == 0 ==> |cmds| == |SplitBars(text)| && CmdsAre(buf[..], cmds, SplitBars(text), |text| + 1)
    ensures OnlyCut(old(buf[..]), buf[..], 0, |text|)
  {
    hide SplitBars, StrIs, CmdsAre;
    ghost var b := buf[..];
    NotBeforeFirst(text, '|');
    assert First(text, '|') == |text| ==> text[..|text|] == text;
    hide First;
    var n := CountTokens(buf, text);
    assert buf[..] == b;
    if n == 0 {
      return -1, [];
    }
    cmds := PlacingPointersInText(buf, n, text);
    result := 0;
  }
}
