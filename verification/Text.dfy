/** Python's line and whitespace conventions for text, as far as the edit parser uses them. */
module Text {

  /** The characters `str.strip` removes. */
  predicate IsSpace(c: char) {
    || '\U{9}' <= c <= '\U{d}' || '\U{1c}' <= c <= ' '
    || c == '\U{85}' || c == '\U{a0}' || c == '\U{1680}' || '\U{2000}' <= c <= '\U{200a}'
    || c == '\U{2028}' || c == '\U{2029}' || c == '\U{202f}' || c == '\U{205f}' || c == '\U{3000}'
  }

  /** The characters `str.splitlines` breaks at. */
  predicate IsBreak(c: char) {
    || '\U{a}' <= c <= '\U{d}' || '\U{1c}' <= c <= '\U{1e}'
    || c == '\U{85}' || c == '\U{2028}' || c == '\U{2029}'
  }

  ghost predicate NoBreak(s: string) {
    forall i :: 0 <= i < |s| ==> !IsBreak(s[i])
  }

  function StripLeft(s: string): (r: string)
    ensures |r| <= |s| && r == s[|s| - |r|..] && (r != "" ==> !IsSpace(r[0]))
    ensures forall i :: 0 <= i < |s| - |r| ==> IsSpace(s[i])
  {
    if s != "" && IsSpace(s[0]) then StripLeft(s[1..]) else s
  }

  function StripRight(s: string): (r: string)
    ensures |r| <= |s| && r == s[..|r|] && (r != "" ==> !IsSpace(r[|r| - 1]))
    ensures forall i :: |r| <= i < |s| ==> IsSpace(s[i])
  {
    if s != "" && IsSpace(s[|s| - 1]) then StripRight(s[..|s| - 1]) else s
  }

  function Strip(s: string): string {
    StripRight(StripLeft(s))
  }

  lemma StripFixed(s: string)
    requires s != "" && !IsSpace(s[0]) && !IsSpace(s[|s| - 1])
    ensures Strip(s) == s && StripRight(s) == s
  {
  }

  predicate StartsWith(s: string, p: string) {
    |p| <= |s| && s[..|p|] == p
  }

  predicate EndsWith(s: string, p: string) {
    |p| <= |s| && s[|s| - |p|..] == p
  }

  /** Index of the first line break, or the length. */
  function FirstBreak(s: string): (p: nat)
    ensures p <= |s| && (p < |s| ==> IsBreak(s[p]))
  {
    if s == "" || IsBreak(s[0]) then 0 else 1 + FirstBreak(s[1..])
  }

  lemma {:induction false} FirstBreakIsFirst(s: string)
    ensures forall i :: 0 <= i < FirstBreak(s) ==> !IsBreak(s[i])
  {
    if s != "" && !IsBreak(s[0]) {
      FirstBreakIsFirst(s[1..]);
    }
  }

  /** CR LF is one break. */
  function BreakLen(s: string): nat
    requires s != ""
  {
    if s[0] == '\r' && |s| > 1 && s[1] == '\n' then 2 else 1
  }

  function First(s: string): string {
    s[..FirstBreak(s)]
  }

  /** What follows the first line and its break. */
  function Rest(s: string): (r: string)
    ensures |r| <= |s| && (s != "" ==> |r| < |s|)
  {
    var p := FirstBreak(s);
    if p == |s| then "" else s[p + BreakLen(s[p..])..]
  }

  function SplitLines(s: string): seq<string>
    decreases |s|
  {
    if s == "" then [] else [First(s)] + SplitLines(Rest(s))
  }

  function Join(lines: seq<string>): string {
    if lines == [] then ""
    else if |lines| == 1 then lines[0]
    else lines[0] + "\n" + Join(lines[1..])
  }

  /** The lines of a text that is followed by a newline. */
  function EndLines(s: string): seq<string> {
    SplitLines(s + "\n")
  }

  /** `strip("\n")` */
  function TrimLeft(s: string): (r: string)
    ensures |r| <= |s| && r == s[|s| - |r|..] && (r != "" ==> r[0] != '\n')
  {
    if s != "" && s[0] == '\n' then TrimLeft(s[1..]) else s
  }

  function TrimRight(s: string): (r: string)
    ensures |r| <= |s| && r == s[..|r|] && (r != "" ==> r[|r| - 1] != '\n')
  {
    if s != "" && s[|s| - 1] == '\n' then TrimRight(s[..|s| - 1]) else s
  }

  function Trim(s: string): string {
    TrimRight(TrimLeft(s))
  }

  /** Line feed is the only kind of line break in the text. */
  ghost predicate OnlyNewlines(s: string) {
    forall i :: 0 <= i < |s| ==> IsBreak(s[i]) ==> s[i] == '\n'
  }

  predicate NoBorderNewline(s: string) {
    s == "" || (s[0] != '\n' && s[|s| - 1] != '\n')
  }

  lemma TrimClean(s: string)
    ensures NoBorderNewline(Trim(s)) && |Trim(s)| <= |s|
    ensures NoBorderNewline(s) ==> Trim(s) == s
    ensures OnlyNewlines(s) ==> OnlyNewlines(Trim(s))
  {
  }

  lemma FirstBreakUnique(s: string, p: nat)
    requires p <= |s| && (p < |s| ==> IsBreak(s[p])) && forall i :: 0 <= i < p ==> !IsBreak(s[i])
    ensures FirstBreak(s) == p
  {
    FirstBreakIsFirst(s);
  }

  lemma BreakAppend(t: string, b: string)
    requires FirstBreak(t) < |t|
    ensures FirstBreak(t + b) == FirstBreak(t)
  {
    hide IsBreak, FirstBreak;
    FirstBreakIsFirst(t);
    assert forall i :: 0 <= i < |t| ==> (t + b)[i] == t[i];
    FirstBreakUnique(t + b, FirstBreak(t));
  }

  /** The first line of a text that ends with a newline does not depend on what follows. */
  lemma FirstAppend(t: string, b: string)
    requires EndsWith(t, "\n")
    ensures First(t + b) == First(t) && Rest(t + b) == Rest(t) + b
    ensures Rest(t) == "" || EndsWith(Rest(t), "\n")
  {
    var p := FirstBreak(t);
    FirstBreakIsFirst(t);
    assert t[|t| - 1] == '\n' && p < |t|;
    hide IsBreak, FirstBreak, BreakLen;
    BreakAppend(t, b);
    SlicesOfAppend(t, b, p);
    assert t[p..][|t| - p - 1] == '\n';
    BreakLenAppend(t[p..], b);
    var n := p + BreakLen(t[p..]);
    SlicesOfAppend(t, b, n);
    if n < |t| {
      assert t[n..][|t| - n - 1] == '\n';
    }
  }

  lemma SlicesOfAppend(t: string, b: string, p: nat)
    requires p <= |t|
    ensures (t + b)[..p] == t[..p] && (t + b)[p..] == t[p..] + b
  {
  }

  lemma BreakLenAppend(u: string, b: string)
    requires EndsWith(u, "\n")
    ensures BreakLen(u) <= |u| && u + b != "" && BreakLen(u + b) == BreakLen(u)
  {
    assert u[|u| - 1] == '\n';
  }

  /** A newline ends a line whatever follows it. */
  lemma {:induction false} SplitAppend(t: string, b: string)
    requires EndsWith(t, "\n")
    ensures SplitLines(t + b) == SplitLines(t) + SplitLines(b)
    decreases |t|
  {
    hide First, Rest;
    FirstAppend(t, b);
    var rest := Rest(t);
    if rest == "" {
      assert rest + b == b;
    } else {
      SplitAppend(rest, b);
    }
  }

  lemma EndLineOf(l: string)
    requires NoBreak(l)
    ensures EndLines(l) == [l]
  {
    var t := l + "\n";
    assert forall i :: 0 <= i < |l| ==> t[i] == l[i];
    FirstBreakUnique(t, |l|);
    assert First(t) == l && Rest(t) == "";
    assert SplitLines("") == [];
  }

  lemma {:induction false} SplitNoBreaks(s: string)
    ensures forall l :: l in SplitLines(s) ==> NoBreak(l)
    decreases |s|
  {
    if s != "" {
      FirstBreakIsFirst(s);
      SplitNoBreaks(Rest(s));
    }
  }

  /** The first line of a text whose only breaks are newlines. */
  lemma FirstNewline(s: string)
    requires OnlyNewlines(s)
    ensures var t, p := s + "\n", FirstBreak(s);
            && First(t) == s[..p]
            && Rest(t) == if p == |s| then "" else s[p + 1..] + "\n"
  {
    hide IsBreak, FirstBreak, Rest, BreakLen, OnlyNewlines;
    var t, p := s + "\n", FirstBreak(s);
    FirstBreakOfNewlines(s);
    NewlineRest(t, p);
    SlicesOfAppend(s, "\n", p);
    if p < |s| {
      SlicesOfAppend(s, "\n", p + 1);
    } else {
      NothingBehind(t);
    }
  }

  lemma NothingBehind(t: string)
    ensures t[|t|..] == ""
  {
  }

  lemma FirstBreakOfNewlines(s: string)
    requires OnlyNewlines(s)
    ensures var t, p := s + "\n", FirstBreak(s);
            FirstBreak(t) == p && t[p] == '\n'
  {
    var t, p := s + "\n", FirstBreak(s);
    assert IsBreak('\n');
    hide IsBreak, FirstBreak;
    FirstBreakIsFirst(s);
    assert t[|s|] == '\n';
    assert forall i :: 0 <= i < |s| ==> t[i] == s[i];
    FirstBreakUnique(t, p);
  }

  lemma NewlineRest(t: string, p: nat)
    requires p < |t| && FirstBreak(t) == p && t[p] == '\n'
    ensures Rest(t) == t[p + 1..]
  {
    hide IsBreak, FirstBreak;
    assert t[p..][0] == '\n';
  }

  lemma OnlyNewlinesTail(s: string, p: nat)
    requires p < |s| && OnlyNewlines(s) && IsBreak(s[p])
    ensures OnlyNewlines(s[p + 1..]) && s == s[..p] + "\n" + s[p + 1..]
  {
    hide IsBreak;
    var rest := s[p + 1..];
    forall i | 0 <= i < |rest| && IsBreak(rest[i])
      ensures rest[i] == '\n'
    {
      assert rest[i] == s[p + 1 + i];
    }
  }

  /** Splitting at newlines and joining with newlines are inverse. */
  lemma {:induction false} JoinEndLines(s: string)
    requires OnlyNewlines(s)
    ensures Join(EndLines(s)) == s
    decreases |s|
  {
    hide First, Rest, OnlyNewlines;
    var p := FirstBreak(s);
    FirstNewline(s);
    if p < |s| {
      OnlyNewlinesTail(s, p);
      var rest := s[p + 1..];
      JoinEndLines(rest);
      assert EndLines(rest) != [];
      assert EndLines(s) == [s[..p]] + EndLines(rest) && EndLines(s)[1..] == EndLines(rest);
    } else {
      assert SplitLines("") == [];
    }
  }

  lemma {:induction false} JoinOnlyNewlines(lines: seq<string>)
    requires forall l :: l in lines ==> NoBreak(l)
    ensures OnlyNewlines(Join(lines))
  {
    if |lines| > 1 {
      JoinOnlyNewlines(lines[1..]);
      assert NoBreak(lines[0]);
    } else if |lines| == 1 {
      assert NoBreak(lines[0]);
    }
  }

  lemma {:induction false} JoinPrefixShorter(lines: seq<string>, d: nat)
    requires d < |lines| && lines[d] != ""
    ensures |Join(lines[..d])| < |Join(lines)|
    decreases d
  {
    if d > 0 {
      assert lines[..d][1..] == lines[1..][..d - 1];
      JoinPrefixShorter(lines[1..], d - 1);
    }
  }

  /** Cutting a joined text inside line `d` makes it shorter. */
  lemma {:induction false} JoinCutShorter(lines: seq<string>, d: nat, g: string)
    requires d < |lines| && |g| < |lines[d]|
    ensures |Join(lines[..d] + [g])| < |Join(lines)|
    decreases d
  {
    var cut := lines[..d] + [g];
    if d > 0 {
      assert cut[1..] == lines[1..][..d - 1] + [g];
      JoinCutShorter(lines[1..], d - 1, g);
    }
  }

  lemma {:induction false} JoinMiddleShorter(lines: seq<string>)
    requires |lines| >= 2
    ensures |Join(lines[1..|lines| - 1])| < |Join(lines)|
  {
    var mid := lines[1..];
    assert lines[1..|lines| - 1] == mid[..|mid| - 1];
    JoinInit(mid);
  }

  lemma {:induction false} JoinInit(lines: seq<string>)
    requires lines != []
    ensures |Join(lines[..|lines| - 1])| <= |Join(lines)|
  {
    if |lines| > 1 {
      assert lines[..|lines| - 1][1..] == lines[1..][..|lines| - 2];
      JoinInit(lines[1..]);
    }
  }

  /** The first line of an interrupted text: cut itself, or complete. */
  lemma FirstCut(s: string, k: nat)
    requires 0 < k <= |s|
    ensures (First(s[..k]) == s[..k] && Rest(s[..k]) == "" && StartsWith(First(s), s[..k]))
         || (First(s[..k]) == First(s)
             && Rest(s[..k]) == if k < |s| - |Rest(s)| then "" else Rest(s)[..k - (|s| - |Rest(s)|)])
  {
    hide IsBreak, FirstBreak;
    var p, t := FirstBreak(s), s[..k];
    FirstBreakIsFirst(s);
    assert forall i :: 0 <= i < k ==> t[i] == s[i];
    if k <= p {
      FirstBreakUnique(t, k);
    } else {
      FirstBreakUnique(t, p);
      assert t[..p] == s[..p];
      var n := BreakLen(s[p..]);
      assert t[p..] == s[p..k];
      if p + n <= k {
        assert BreakLen(t[p..]) == n;
        assert t[p + n..] == s[p + n..][..k - p - n];
      }
    }
  }

  /** The lines of an interrupted text: complete lines, and possibly the beginning of one more. */
  ghost predicate CutLines(cut: seq<string>, ls: seq<string>, m: nat) {
    && m <= |ls| && m <= |cut| && cut[..m] == ls[..m]
    && (|cut| == m || (|cut| == m + 1 && m < |ls| && StartsWith(ls[m], cut[m])))
  }

  lemma {:induction false} SplitCut(s: string, k: nat) returns (m: nat)
    requires k <= |s|
    ensures CutLines(SplitLines(s[..k]), SplitLines(s), m)
    decreases |s|
  {
    hide First, Rest;
    if k == 0 {
      return 0;
    }
    FirstCut(s, k);
    var t, rest := s[..k], Rest(s);
    var cut, ls := SplitLines(t), SplitLines(s);
    assert cut == [First(t)] + SplitLines(Rest(t)) && ls == [First(s)] + SplitLines(rest);
    if First(t) == t && Rest(t) == "" && StartsWith(First(s), t) {
      assert SplitLines("") == [];
      return 0;
    }
    var j := SplitCut(rest, |Rest(t)|);
    assert Rest(t) == rest[..|Rest(t)|];
    m := j + 1;
    assert cut[..m] == [First(t)] + SplitLines(Rest(t))[..j];
    assert ls[..m] == [First(s)] + SplitLines(rest)[..j];
  }

  lemma NewlineEnds(s: string)
    ensures EndsWith(s + "\n", "\n")
  {
  }

  lemma SplitLine(line: string, rest: string)
    requires NoBreak(line)
    ensures SplitLines((line + "\n") + rest) == [line] + SplitLines(rest)
  {
    hide SplitLines, EndsWith;
    NewlineEnds(line);
    SplitAppend(line + "\n", rest);
    EndLineOf(line);
  }

  lemma SplitBlock(block: string, rest: string)
    ensures SplitLines((block + "\n") + rest) == EndLines(block) + SplitLines(rest)
  {
    hide SplitLines, EndsWith;
    NewlineEnds(block);
    SplitAppend(block + "\n", rest);
  }

  // ---------------------------------------------------------------------
  // What the conventions mean
  // ---------------------------------------------------------------------

  ghost predicate AllSpace(s: string) {
    forall i :: 0 <= i < |s| ==> IsSpace(s[i])
  }

  /** Stripping takes exactly the space around a text that neither starts nor ends with space. */
  lemma StripExact(a: string, t: string, b: string)
    requires AllSpace(a) && AllSpace(b) && (t != "" ==> !IsSpace(t[0]) && !IsSpace(t[|t| - 1]))
    ensures Strip(a + t + b) == t
    ensures StripRight(t + b) == t
  {
    hide IsSpace;
    assert a + (t + b) == a + t + b;
    if t == "" {
      var s := a + t + b;
      assert forall i :: 0 <= i < |s| ==> IsSpace(s[i]);
      assert StripLeft(s) == "";
      assert StripRight(b) == "";
      assert t + b == b;
    } else {
      StripLeftExact(a, t + b);
      StripRightExact(t, b);
    }
  }

  lemma StripLeftExact(a: string, t: string)
    requires AllSpace(a) && (t != "" ==> !IsSpace(t[0]))
    ensures StripLeft(a + t) == t
  {
    hide IsSpace;
    var s, r := a + t, StripLeft(a + t);
    assert forall i :: 0 <= i < |a| ==> s[i] == a[i];
    assert t != "" ==> s[|a|] == t[0];
  }

  lemma StripRightExact(t: string, b: string)
    requires AllSpace(b) && (t != "" ==> !IsSpace(t[|t| - 1]))
    ensures StripRight(t + b) == t
  {
    hide IsSpace;
    var s, r := t + b, StripRight(t + b);
    assert t != "" ==> s[|t| - 1] == t[|t| - 1];
  }

  /** What stripping leaves lies between space. */
  lemma StripParts(s: string) returns (a: string, b: string)
    ensures AllSpace(a) && AllSpace(b) && s == a + Strip(s) + b
    ensures Strip(s) != "" ==> !IsSpace(Strip(s)[0]) && !IsSpace(Strip(s)[|Strip(s)| - 1])
  {
    hide IsSpace, StripLeft, StripRight, AllSpace;
    var left, r := StripLeft(s), Strip(s);
    a := StripLeftParts(s);
    b := StripRightParts(left);
    assert a + (r + b) == a + r + b;
    if r != "" {
      assert left[0] == r[0];
    }
  }

  lemma StripLeftParts(s: string) returns (a: string)
    ensures AllSpace(a) && s == a + StripLeft(s)
  {
    hide IsSpace, StripLeft;
    a := s[..|s| - |StripLeft(s)|];
  }

  lemma StripRightParts(s: string) returns (b: string)
    ensures AllSpace(b) && s == StripRight(s) + b
  {
    hide IsSpace, StripRight;
    b := s[|StripRight(s)|..];
  }

  predicate AllNewlines(s: string) {
    forall i :: 0 <= i < |s| ==> s[i] == '\n'
  }

  /** Trimming takes exactly the newlines around a text. */
  lemma TrimExact(a: string, t: string, b: string)
    requires AllNewlines(a) && AllNewlines(b) && NoBorderNewline(t)
    ensures Trim(a + t + b) == t
  {
    assert a + (t + b) == a + t + b;
    if t == "" {
      var s := a + t + b;
      assert forall i :: 0 <= i < |s| ==> s[i] == '\n';
      assert TrimLeft(s) == "";
    } else {
      TrimLeftExact(a, t + b);
      TrimRightExact(t, b);
    }
  }

  lemma {:induction false} TrimLeftExact(a: string, t: string)
    requires AllNewlines(a) && (t != "" ==> t[0] != '\n')
    ensures TrimLeft(a + t) == t
  {
    if a == "" {
      assert a + t == t;
    } else {
      assert (a + t)[1..] == a[1..] + t;
      TrimLeftExact(a[1..], t);
    }
  }

  lemma {:induction false} TrimRightExact(t: string, b: string)
    requires AllNewlines(b) && (t != "" ==> t[|t| - 1] != '\n')
    ensures TrimRight(t + b) == t
  {
    if b == "" {
      assert t + b == t;
    } else {
      assert (t + b)[..|t + b| - 1] == t + b[..|b| - 1];
      TrimRightExact(t, b[..|b| - 1]);
    }
  }

  /** What trimming leaves lies between newlines. */
  lemma TrimParts(x: string) returns (above: string, below: string)
    ensures AllNewlines(above) && AllNewlines(below) && x == above + Trim(x) + below
  {
    var mid := TrimLeft(x);
    hide TrimLeft, TrimRight, AllNewlines;
    TrimLeftTakes(x);
    TrimRightTakes(mid);
    above, below := x[..|x| - |mid|], mid[|TrimRight(mid)|..];
    assert x == above + mid && mid == TrimRight(mid) + below;
    assert above + (TrimRight(mid) + below) == above + TrimRight(mid) + below;
  }

  lemma {:induction false} TrimLeftTakes(x: string)
    ensures AllNewlines(x[..|x| - |TrimLeft(x)|])
  {
    if x != "" && x[0] == '\n' {
      TrimLeftTakes(x[1..]);
      var n := |x| - |TrimLeft(x)|;
      assert x[..n] == [x[0]] + x[1..][..n - 1];
    }
  }

  lemma {:induction false} TrimRightTakes(x: string)
    ensures AllNewlines(x[|TrimRight(x)|..])
  {
    if x != "" && x[|x| - 1] == '\n' {
      var y := x[..|x| - 1];
      TrimRightTakes(y);
      assert x[|TrimRight(x)|..] == y[|TrimRight(y)|..] + ['\n'];
    }
  }

  /** A text that holds no break is one line, and each break ends a line, CR LF as one. */
  lemma SplitExact(l: string, rest: string, c: char)
    requires NoBreak(l) && IsBreak(c)
    ensures l != "" ==> SplitLines(l) == [l]
    ensures !(c == '\r' && rest != "" && rest[0] == '\n') ==> SplitLines(l + [c] + rest) == [l] + SplitLines(rest)
    ensures SplitLines(l + "\r\n" + rest) == [l] + SplitLines(rest)
  {
    hide IsBreak, FirstBreak, SplitLines;
    if l != "" {
      OneLine(l);
    }
    if !(c == '\r' && rest != "" && rest[0] == '\n') {
      SplitAt(l, [c], rest);
    }
    CrBreaks();
    SplitAt(l, "\r\n", rest);
  }

  lemma CrBreaks()
    ensures IsBreak('\r')
  {
  }

  lemma SplitAt(l: string, brk: string, rest: string)
    requires NoBreak(l) && brk != "" && IsBreak(brk[0])
    requires BreakLen(brk + rest) == |brk|
    ensures SplitLines(l + brk + rest) == [l] + SplitLines(rest)
  {
    hide IsBreak, FirstBreak, BreakLen;
    var s := l + brk + rest;
    assert s[|l|] == brk[0];
    assert forall i :: 0 <= i < |l| ==> s[i] == l[i];
    FirstBreakUnique(s, |l|);
    assert s[..|l|] == l && s[|l|..] == brk + rest && s[|l| + |brk|..] == rest;
  }

  lemma OneLine(l: string)
    requires l != "" && NoBreak(l)
    ensures SplitLines(l) == [l]
  {
    FirstBreakUnique(l, |l|);
    assert l[..|l|] == l && SplitLines("") == [];
  }
}
