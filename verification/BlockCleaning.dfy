/**
 What border cleaning does to a block, said of the text alone: the newlines around it go, and one
 markdown fence around what is left goes with the newlines inside it.
 */
module BlockCleaning {
  import opened Prelude
  import opened Text
  import opened EditParser

  /** `t` without newlines at its ends, between newlines. */
  ghost predicate Bordered(x: string, t: string) {
    NoBorderNewline(t) && exists above, below :: AllNewlines(above) && AllNewlines(below) && x == above + t + below
  }

  /** Three backticks and an info word, with space around. */
  ghost predicate OpensFence(line: string) {
    NoBreak(line) && exists info :: Strip(line) == "```" + info && InfoWord(info)
  }

  predicate InfoWord(info: string) {
    forall i :: 0 <= i < |info| ==>
      'a' <= info[i] <= 'z' || 'A' <= info[i] <= 'Z' || '0' <= info[i] <= '9' || info[i] in "_-"
  }

  ghost predicate ClosesFence(line: string) {
    NoBreak(line) && Strip(line) == "```"
  }

  /** `core` is `inner` between two fence lines. */
  ghost predicate Wraps(core: string, inner: string) {
    exists open, close :: OpensFence(open) && ClosesFence(close) && IsWrapping(core, open, inner, close)
  }

  predicate IsWrapping(core: string, open: string, inner: string, close: string) {
    || core == open + "\n" + inner + "\n" + close
    || (inner == "" && core == open + "\n" + close)
  }

  ghost predicate Wrapped(core: string) {
    exists inner :: Wraps(core, inner)
  }

  /** The text `x` carries the block `t`: bare, or in one fence. */
  ghost predicate Carries(x: string, t: string) {
    exists core :: Bordered(x, core)
      && if Wrapped(core) then exists inner :: Wraps(core, inner) && Bordered(inner, t) else t == core
  }

  // ---------------------------------------------------------------------
  // The shape of what is cleaned
  // ---------------------------------------------------------------------

  lemma {:induction false} SubLinesNoBreak(lines: seq<string>, i: nat, j: nat)
    requires i <= j <= |lines| && forall l :: l in lines ==> NoBreak(l)
    ensures forall l :: l in lines[i..j] ==> NoBreak(l)
  {
  }

  /** A cleaned block has newlines only inside, and is no longer than its lines. */
  lemma CleanBlockShape(lines: seq<string>)
    requires forall l :: l in lines ==> NoBreak(l)
    ensures OnlyNewlines(CleanBlock(lines)) && NoBorderNewline(CleanBlock(lines))
    ensures |CleanBlock(lines)| <= |Join(lines)|
  {
    hide OnlyNewlines, NoBorderNewline, Trim, Join, SplitLines, Fenced, NoBreak;
    var text := Trim(Join(lines));
    JoinOnlyNewlines(lines);
    TrimClean(Join(lines));
    var parts := SplitLines(text);
    if Fenced(parts) {
      FencedShorter(text);
    }
  }

  /** Peeling a fence leaves a shorter, clean text. */
  lemma FencedShorter(text: string)
    requires OnlyNewlines(text) && NoBorderNewline(text) && Fenced(SplitLines(text))
    ensures var parts := SplitLines(text);
            var inner := Trim(Join(parts[1..|parts| - 1]));
            OnlyNewlines(inner) && NoBorderNewline(inner) && |inner| < |text|
  {
    var parts := SplitLines(text);
    assert |parts| >= 2;
    hide OnlyNewlines, NoBorderNewline, Trim, Join, SplitLines, Fenced, NoBreak;
    SplitNoBreaks(text);
    SubLinesNoBreak(parts, 1, |parts| - 1);
    JoinOnlyNewlines(parts[1..|parts| - 1]);
    TrimClean(Join(parts[1..|parts| - 1]));
    JoinMiddleShorter(parts);
    JoinSplit(text);
  }

  /** Without a border newline a text has the same lines with a final newline as without. */
  lemma JoinSplit(text: string)
    requires OnlyNewlines(text) && NoBorderNewline(text) && text != ""
    ensures SplitLines(text) == EndLines(text) && Join(SplitLines(text)) == text
  {
    hide OnlyNewlines, Join;
    SplitUnterminated(text);
    JoinEndLines(text);
  }

  lemma {:induction false} SplitUnterminated(text: string)
    requires OnlyNewlines(text) && text != "" && text[|text| - 1] != '\n'
    ensures SplitLines(text) == EndLines(text)
    decreases |text|
  {
    hide First, Rest, OnlyNewlines;
    var p := FirstBreak(text);
    FirstNewline(text);
    if p < |text| {
      OnlyNewlinesTail(text, p);
      FirstBreakIsNewline(text);
      var rest := text[p + 1..];
      assert rest != "";
      assert rest[|rest| - 1] == text[|text| - 1];
      SplitUnterminated(rest);
    } else {
      UnbrokenLine(text);
      assert text[..p] == text;
      assert SplitLines("") == [];
    }
  }

  lemma FirstBreakIsNewline(s: string)
    requires OnlyNewlines(s) && FirstBreak(s) < |s|
    ensures var p := FirstBreak(s); First(s) == s[..p] && Rest(s) == s[p + 1..] && (s[|s| - 1] != '\n' ==> p + 1 < |s|)
  {
    var p := FirstBreak(s);
    assert s[p] == '\n';
    NewlineRest(s, p);
  }

  lemma UnbrokenLine(s: string)
    requires FirstBreak(s) == |s|
    ensures First(s) == s && Rest(s) == ""
  {
  }

  lemma EndLinesNoBreak(t: string)
    ensures forall l :: l in EndLines(t) ==> NoBreak(l)
  {
    SplitNoBreaks(t + "\n");
  }

  // ---------------------------------------------------------------------
  // Cleaning gives what the text carries
  // ---------------------------------------------------------------------

  lemma BorderedIsTrim(x: string, t: string)
    ensures Bordered(x, t) <==> t == Trim(x)
  {
    if Bordered(x, t) {
      var above, below :| AllNewlines(above) && AllNewlines(below) && x == above + t + below;
      TrimExact(above, t, below);
    }
    TrimClean(x);
    var above, below := TrimParts(x);
    assert AllNewlines(above) && AllNewlines(below);
  }

  lemma OpensFenceIff(line: string)
    requires NoBreak(line)
    ensures OpensFence(line) <==> IsFenceOpen(Strip(line))
  {
    hide Strip, NoBreak;
    var s := Strip(line);
    if IsFenceOpen(s) {
      var info := s[3..];
      assert s == "```" + info;
      assert forall i :: 0 <= i < |info| ==> info[i] == s[3 + i];
      assert InfoWord(info);
    }
    if OpensFence(line) {
      var info :| s == "```" + info && InfoWord(info);
      assert forall i :: 3 <= i < |s| ==> s[i] == info[i - 3];
      assert s[..3] == "```";
    }
  }

  /** The lines of a wrapping, and what joining the inner ones gives. */
  lemma WrappingLines(core: string, open: string, inner: string, close: string)
    requires OnlyNewlines(core) && OpensFence(open) && ClosesFence(close) && IsWrapping(core, open, inner, close)
    ensures Fenced(SplitLines(core)) && |SplitLines(core)| >= 2
    ensures Join(SplitLines(core)[1..|SplitLines(core)| - 1]) == inner
  {
    OpensFenceIff(open);
    CloserIsNotEmpty(close);
    hide SplitLines, Join, IsFenceOpen, Strip, NoBreak, OnlyNewlines;
    var parts := SplitLines(core);
    var mid: seq<string> := [];
    if core == open + "\n" + close {
      assert inner == "" || core == open + "\n" + inner + "\n" + close;
      BareLines(open, close);
      JoinNothing();
    }
    if core == open + "\n" + inner + "\n" + close {
      mid := EndLines(inner);
      FullLines(open, inner, close);
      InnerOnlyNewlines(open, inner, close);
      JoinEndLines(inner);
    }
    assert parts == [open] + mid + [close];
    assert parts[1..|parts| - 1] == mid;
  }

  lemma BareLines(open: string, close: string)
    requires NoBreak(open) && NoBreak(close) && close != ""
    ensures SplitLines(open + "\n" + close) == [open] + [close]
  {
    hide SplitLines, NoBreak;
    OneLine(close);
    SplitLine(open, close);
  }

  lemma FullLines(open: string, inner: string, close: string)
    requires NoBreak(open) && NoBreak(close) && close != ""
    ensures SplitLines(open + "\n" + inner + "\n" + close) == [open] + EndLines(inner) + [close]
  {
    hide SplitLines, NoBreak, EndLines;
    OneLine(close);
    SplitLine(open, inner + "\n" + close);
    SplitBlock(inner, close);
    assert open + "\n" + inner + "\n" + close == open + "\n" + (inner + "\n" + close);
    assert [open] + (EndLines(inner) + [close]) == [open] + EndLines(inner) + [close];
  }

  lemma CloserIsNotEmpty(close: string)
    requires ClosesFence(close)
    ensures close != ""
  {
  }

  lemma JoinNothing()
    ensures Join([]) == ""
  {
  }

  lemma InnerOnlyNewlines(open: string, inner: string, close: string)
    requires OnlyNewlines(open + "\n" + inner + "\n" + close)
    ensures OnlyNewlines(inner)
  {
    hide IsBreak;
    var core := open + "\n" + inner + "\n" + close;
    assert forall i :: 0 <= i < |inner| ==> inner[i] == core[|open| + 1 + i];
  }

  /** A text whose lines are fenced is a wrapping of its inner lines. */
  lemma FencedWraps(core: string)
    requires OnlyNewlines(core) && NoBorderNewline(core) && Fenced(SplitLines(core))
    ensures Wraps(core, Join(SplitLines(core)[1..|SplitLines(core)| - 1]))
  {
    var parts := SplitLines(core);
    var open, mid, close := parts[0], parts[1..|parts| - 1], parts[|parts| - 1];
    FencedEnds(core);
    hide SplitLines, Join, OpensFence, ClosesFence, Fenced, OnlyNewlines, NoBorderNewline, EndLines;
    NotEmpty(core);
    JoinSplit(core);
    ThreeParts(parts);
    JoinEnds(open, mid, close);
    assert IsWrapping(core, open, Join(mid), close);
  }

  lemma ThreeParts(parts: seq<string>)
    requires |parts| >= 2
    ensures parts == [parts[0]] + parts[1..|parts| - 1] + [parts[|parts| - 1]]
  {
  }

  lemma FencedEnds(core: string)
    requires Fenced(SplitLines(core))
    ensures var parts := SplitLines(core); OpensFence(parts[0]) && ClosesFence(parts[|parts| - 1])
  {
    hide SplitLines, OpensFence, IsFenceOpen, Strip, NoBreak;
    var parts := SplitLines(core);
    SplitNoBreaks(core);
    assert parts[0] in parts && parts[|parts| - 1] in parts;
    OpensFenceIff(parts[0]);
  }

  lemma NotEmpty(core: string)
    requires SplitLines(core) != []
    ensures core != ""
  {
  }

  lemma {:induction false} JoinEnds(open: string, mid: seq<string>, close: string)
    ensures Join([open] + mid + [close])
         == if mid == [] then open + "\n" + close else open + "\n" + Join(mid) + "\n" + close
    ensures mid == [] ==> Join(mid) == ""
  {
    var parts := [open] + mid + [close];
    assert parts[1..] == mid + [close];
    if mid == [] {
      assert Join([close]) == close;
    } else {
      JoinSnoc(mid, close);
      assert open + "\n" + (Join(mid) + "\n" + close) == open + "\n" + Join(mid) + "\n" + close;
    }
  }

  lemma {:induction false} JoinSnoc(mid: seq<string>, close: string)
    requires mid != []
    ensures Join(mid + [close]) == Join(mid) + "\n" + close
  {
    var all := mid + [close];
    assert all[1..] == mid[1..] + [close];
    if |mid| == 1 {
      assert Join([close]) == close;
    } else {
      JoinSnoc(mid[1..], close);
      assert mid[0] + "\n" + (Join(mid[1..]) + "\n" + close) == mid[0] + "\n" + Join(mid[1..]) + "\n" + close;
    }
  }

  /** Being fenced, said of the text: it is a wrapping. */
  lemma WrappedIff(core: string)
    requires OnlyNewlines(core) && NoBorderNewline(core)
    ensures Wrapped(core) <==> Fenced(SplitLines(core))
    ensures forall inner :: Wraps(core, inner) ==>
              |SplitLines(core)| >= 2 && inner == Join(SplitLines(core)[1..|SplitLines(core)| - 1])
  {
    hide SplitLines, Join, Fenced, OpensFence, ClosesFence, IsWrapping;
    forall inner | Wraps(core, inner)
      ensures Fenced(SplitLines(core)) && |SplitLines(core)| >= 2
      ensures inner == Join(SplitLines(core)[1..|SplitLines(core)| - 1])
    {
      var open, close :| OpensFence(open) && ClosesFence(close) && IsWrapping(core, open, inner, close);
      WrappingLines(core, open, inner, close);
    }
    if Fenced(SplitLines(core)) {
      FencedWraps(core);
    }
  }

  /** Cleaning the lines of a block gives `t` if and only if the text of the block carries `t`. */
  lemma CleanedIffCarried(lines: seq<string>, t: string)
    requires forall l :: l in lines ==> NoBreak(l)
    ensures CleanBlock(lines) == t <==> Carries(Join(lines), t)
  {
    hide SplitLines, Join, Fenced, Trim, Wraps, Bordered, NoBreak, OnlyNewlines, NoBorderNewline;
    var x := Join(lines);
    var core := Trim(x);
    JoinOnlyNewlines(lines);
    TrimClean(x);
    WrappedIff(core);
    forall c ensures Bordered(x, c) <==> c == core {
      BorderedIsTrim(x, c);
    }
    if Wrapped(core) {
      var parts := SplitLines(core);
      var inner := Join(parts[1..|parts| - 1]);
      var i :| Wraps(core, i);
      assert i == inner;
      BorderedIsTrim(inner, t);
    }
  }
}
