/** Printing edits in the documented format and parsing them back. */
module EditRoundTrip {
  import opened Prelude
  import opened Text
  import opened EditParser
  import opened BlockCleaning

  /** The block format the coder's prompt prescribes, followed by `rest`. */
  function Print(e: Edit, rest: string): string {
    (Header(e.path) + "\n") + (("<<<<<<< SEARCH" + "\n") + ((e.search + "\n")
    + (("=======" + "\n") + ((e.replace + "\n") + ((">>>>>>> REPLACE" + "\n") + rest)))))
  }

  function Header(path: string): string {
    "### EDIT" + (" " + path)
  }

  function PrintAll(es: seq<Edit>): string {
    if es == [] then "" else Print(es[0], PrintAll(es[1..]))
  }

  /** Blocks that border cleaning leaves as they are. */
  ghost predicate CleanText(t: string) {
    OnlyNewlines(t) && NoBorderNewline(t) && !Wrapped(t)
  }

  /** A search part the format can carry: clean, and no line of it reads as the divider. */
  ghost predicate SearchFits(t: string) {
    CleanText(t) && forall l :: l in EndLines(t) ==> Strip(l) != "======="
  }

  /** A replacement the format can carry: clean, and no line of it is or ends with the terminator. */
  ghost predicate ReplaceFits(t: string) {
    CleanText(t) && forall l :: l in EndLines(t) ==> !EndsWith(StripRight(l), ">>>>>>> REPLACE")
  }

  /** An edit the format can carry. */
  ghost predicate Printable(e: Edit) {
    e.path != "" && GoodPath(e.path) && SearchFits(e.search) && ReplaceFits(e.replace)
  }

  /** A path without line breaks and surrounding space. */
  ghost predicate GoodPath(p: string) {
    NoBreak(p) && Strip(p) == p
  }

  // ---------------------------------------------------------------------
  // Cleaning
  // ---------------------------------------------------------------------

  /** Cleaning the printed lines of a text gives the text back if and only if the text is clean. */
  lemma CleanIff(t: string)
    ensures CleanBlock(EndLines(t)) == t <==> CleanText(t)
  {
    hide OnlyNewlines, NoBorderNewline, Trim, Join, SplitLines, Fenced, NoBreak, Wraps;
    EndLinesNoBreak(t);
    if CleanBlock(EndLines(t)) == t {
      CleanBlockShape(EndLines(t));
    }
    if OnlyNewlines(t) && NoBorderNewline(t) {
      JoinEndLines(t);
      TrimClean(t);
      WrappedIff(t);
      if Fenced(SplitLines(t)) {
        FencedShorter(t);
      }
    }
  }

  // ---------------------------------------------------------------------
  // What any parsed edit looks like
  // ---------------------------------------------------------------------

  ghost predicate GoodLines(lines: seq<string>) {
    forall l :: l in lines ==> NoBreak(l)
  }

  ghost predicate GoodBlock(t: string) {
    OnlyNewlines(t) && NoBorderNewline(t)
  }

  ghost predicate GoodEdit(e: Edit) {
    e.path != "" && GoodPath(e.path) && GoodBlock(e.search) && GoodBlock(e.replace)
  }

  ghost predicate GoodMode(m: Mode) {
    match m
    case Outside => true
    case Seeking(path) => GoodPath(path)
    case InSearch(path, search) => GoodPath(path) && GoodLines(search)
    case InReplace(path, search, replace) => GoodPath(path) && GoodLines(search) && GoodLines(replace)
  }

  lemma StripGood(s: string)
    requires NoBreak(s)
    ensures GoodPath(Strip(s))
  {
    var l := StripLeft(s);
    var r := StripRight(l);
    assert NoBreak(l) by {
      assert forall i :: 0 <= i < |l| ==> l[i] == s[|s| - |l| + i];
    }
    assert NoBreak(r);
    if r != "" {
      assert r[0] == l[0];
    }
  }

  lemma PathGood(line: string)
    requires NoBreak(line) && IsHeader(line)
    ensures GoodPath(PathOf(line))
  {
    hide Strip, NoBreak;
    StripGood(line);
    NoBreakTail(Strip(line), |EDIT_HEADER|);
    StripGood(Strip(line)[|EDIT_HEADER|..]);
  }

  lemma NoBreakTail(s: string, n: nat)
    requires n <= |s| && NoBreak(s)
    ensures NoBreak(s[n..])
  {
    hide IsBreak;
  }

  lemma GluedGood(line: string)
    requires NoBreak(line) && SplitGluedTerminator(line).Some?
    ensures NoBreak(SplitGluedTerminator(line).value)
  {
  }

  lemma EmitGood(edits: seq<Edit>, path: string, search: seq<string>, replace: seq<string>)
    requires (forall e :: e in edits ==> GoodEdit(e)) && GoodPath(path) && GoodLines(search) && GoodLines(replace)
    ensures forall e :: e in Emit(edits, path, search, replace) ==> GoodEdit(e)
  {
    hide CleanBlock, NoBreak, OnlyNewlines, NoBorderNewline;
    CleanBlockShape(search);
    CleanBlockShape(replace);
  }

  lemma StepGood(s: State, line: string)
    requires NoBreak(line) && GoodMode(s.mode) && forall e :: e in s.edits ==> GoodEdit(e)
    ensures GoodMode(Step(s, line).mode) && forall e :: e in Step(s, line).edits ==> GoodEdit(e)
  {
    hide Strip, SplitGluedTerminator, IsHeader, PathOf, NoBreak, GoodPath, GoodEdit, Emit;
    match s.mode
    case Outside => if IsHeader(line) { PathGood(line); }
    case InReplace(path, search, replace) =>
      EmitGood(s.edits, path, search, replace);
      var glued := SplitGluedTerminator(line);
      if glued.Some? {
        GluedGood(line);
        EmitGood(s.edits, path, search, replace + [glued.value]);
      }
    case _ =>
  }

  lemma {:induction false} FeedGood(lines: seq<string>)
    requires GoodLines(lines)
    ensures var s := Feed(Start, lines);
            GoodMode(s.mode) && forall e :: e in s.edits ==> GoodEdit(e)
  {
    hide Step, NoBreak, GoodMode, GoodEdit;
    if lines == [] {
      StartGood();
    } else {
      FeedGood(lines[..|lines| - 1]);
      StepGood(Feed(Start, lines[..|lines| - 1]), lines[|lines| - 1]);
    }
  }

  lemma StartGood()
    ensures GoodMode(Start.mode) && Start.edits == []
  {
  }

  // ---------------------------------------------------------------------
  // Through one printed block
  // ---------------------------------------------------------------------

  /** The lines of a printed block whose path holds no line break. */
  function BlockLines(e: Edit): seq<string> {
    [Header(e.path), SR_SEARCH] + (EndLines(e.search) + [SR_DIVIDER] + (EndLines(e.replace) + [SR_REPLACE]))
  }

  lemma MarkersUnbroken()
    ensures NoBreak(EDIT_HEADER) && NoBreak(SR_SEARCH) && NoBreak(SR_DIVIDER) && NoBreak(SR_REPLACE)
  {
  }

  lemma HeaderUnbroken(path: string)
    requires NoBreak(path)
    ensures NoBreak(Header(path))
  {
    var h, n := Header(path), |EDIT_HEADER|;
    MarkersUnbroken();
    forall i | 0 <= i < |h|
      ensures !IsBreak(h[i])
    {
      if i < n {
        assert h[i] == EDIT_HEADER[i];
      } else if i > n {
        assert h[i] == path[i - n - 1];
      }
    }
  }

  lemma PrintedLines(e: Edit, rest: string)
    requires NoBreak(e.path)
    ensures SplitLines(Print(e, rest)) == BlockLines(e) + SplitLines(rest)
  {
    hide SplitLines, NoBreak, Header, EndLines;
    MarkersUnbroken();
    HeaderUnbroken(e.path);
    var r1 := (SR_REPLACE + "\n") + rest;
    var r2 := (e.replace + "\n") + r1;
    var r3 := (SR_DIVIDER + "\n") + r2;
    var r4 := (e.search + "\n") + r3;
    var r5 := (SR_SEARCH + "\n") + r4;
    SplitLine(SR_REPLACE, rest);
    SplitBlock(e.replace, r1);
    SplitLine(SR_DIVIDER, r2);
    SplitBlock(e.search, r3);
    SplitLine(SR_SEARCH, r4);
    SplitLine(Header(e.path), r5);
    assert SplitLines(r2) == EndLines(e.replace) + [SR_REPLACE] + SplitLines(rest);
    assert SplitLines(r4) == EndLines(e.search) + [SR_DIVIDER] + SplitLines(r2);
  }

  /** Reading the lines of a block's search part up to its divider. */
  lemma {:induction false} SearchPart(path: string, lines: seq<string>)
    requires forall l :: l in lines ==> Strip(l) != SR_DIVIDER
    ensures Feed(State(InSearch(path, []), []), lines) == State(InSearch(path, lines), [])
  {
    hide Step, Strip;
    if lines != [] {
      var n := |lines| - 1;
      SearchPart(path, lines[..n]);
      StepInSearch([], path, lines[..n], lines[n]);
      assert lines[..n] + [lines[n]] == lines;
    }
  }

  lemma {:induction false} ReplacePart(path: string, search: seq<string>, lines: seq<string>)
    requires forall l :: l in lines ==> !Terminates(l)
    ensures Feed(State(InReplace(path, search, []), []), lines) == State(InReplace(path, search, lines), [])
  {
    hide Step, Strip, SplitGluedTerminator;
    if lines == [] {
      assert Feed(State(InReplace(path, search, []), []), lines) == State(InReplace(path, search, []), []);
    } else {
      var n := |lines| - 1;
      assert !Terminates(lines[n]);
      ReplacePart(path, search, lines[..n]);
      StepInReplace([], path, search, lines[..n], lines[n]);
      assert lines[..n] + [lines[n]] == lines;
    }
  }

  lemma MarkersStripped()
    ensures Strip(SR_SEARCH) == SR_SEARCH && Strip(SR_DIVIDER) == SR_DIVIDER && Strip(SR_REPLACE) == SR_REPLACE
    ensures SplitGluedTerminator(SR_REPLACE) == None
  {
    StripFixed(SR_SEARCH);
    StripFixed(SR_DIVIDER);
    StripFixed(SR_REPLACE);
    hide StripLeft, StripRight;
  }

  lemma HeaderRead(path: string)
    requires path != "" && Strip(path) == path
    ensures IsHeader(Header(path)) && PathOf(Header(path)) == path
  {
    HeaderNames(path);
    NamesPath(Header(path), path);
  }

  lemma StrippedEnds(s: string)
    requires s != "" && Strip(s) == s
    ensures !IsSpace(s[0]) && !IsSpace(s[|s| - 1])
  {
  }

  /** After header and search marker the parser collects the search lines. */
  lemma OpenBlock(path: string)
    requires path != "" && GoodPath(path)
    ensures Feed(Start, [Header(path), SR_SEARCH]) == State(InSearch(path, []), [])
  {
    hide Step, Strip, Header, IsHeader, PathOf;
    HeaderRead(path);
    MarkersStripped();
    StepOutside([], Header(path));
    StepSeeking([], path, SR_SEARCH);
    var ls := [Header(path), SR_SEARCH];
    assert ls[..1] == [Header(path)] && ls[..1][..0] == [];
    assert Feed(Start, []) == Start;
    assert Feed(Start, ls[..1]) == State(Seeking(path), []);
  }

  lemma FirstDivider(lines: seq<string>) returns (d: nat)
    ensures d <= |lines| && (d < |lines| ==> Strip(lines[d]) == SR_DIVIDER)
    ensures forall l :: l in lines[..d] ==> Strip(l) != SR_DIVIDER
  {
    hide Strip;
    d := 0;
    while d < |lines| && Strip(lines[d]) != SR_DIVIDER
      invariant d <= |lines| && forall l :: l in lines[..d] ==> Strip(l) != SR_DIVIDER
    {
      assert lines[..d + 1] == lines[..d] + [lines[d]];
      d := d + 1;
    }
  }

  lemma FirstTerminator(lines: seq<string>) returns (d: nat)
    ensures d <= |lines| && (d < |lines| ==> Terminates(lines[d]))
    ensures forall l :: l in lines[..d] ==> !Terminates(l)
  {
    hide Terminates;
    d := 0;
    while d < |lines| && !Terminates(lines[d])
      invariant d <= |lines| && forall l :: l in lines[..d] ==> !Terminates(l)
    {
      assert lines[..d + 1] == lines[..d] + [lines[d]];
      d := d + 1;
    }
  }

  // ---------------------------------------------------------------------
  // The round trip
  // ---------------------------------------------------------------------

  /** The first edit to come out of an open block is that block's. */
  lemma {:induction false} FirstEmission(s: State, lines: seq<string>)
    requires s.edits == [] && s.mode.InReplace? && s.mode.path != ""
    ensures var t := Feed(s, lines);
            if t.edits == []
            then t.mode.InReplace? && t.mode.path == s.mode.path && t.mode.search == s.mode.search
            else t.edits[0].search == CleanBlock(s.mode.search)
  {
    hide Strip, SplitGluedTerminator, CleanBlock, IsHeader, PathOf;
    if lines != [] {
      FirstEmission(s, lines[..|lines| - 1]);
      StepOnlyAdds(Feed(s, lines[..|lines| - 1]), lines[|lines| - 1]);
    }
  }

  /** The whole stream, positioned behind the search marker of its first block. */
  lemma IntoBlock(e: Edit, tail: seq<string>)
    requires e.path != "" && GoodPath(e.path)
    ensures Feed(Start, BlockLines(e) + tail)
         == Feed(State(InSearch(e.path, []), []),
                 EndLines(e.search) + [SR_DIVIDER] + (EndLines(e.replace) + [SR_REPLACE]) + tail)
  {
    hide Step, Feed, Header, EndLines, GoodPath;
    var open := [Header(e.path), SR_SEARCH];
    var body := EndLines(e.search) + [SR_DIVIDER] + (EndLines(e.replace) + [SR_REPLACE]) + tail;
    OpenBlock(e.path);
    assert BlockLines(e) + tail == open + body;
    FeedAppend(Start, open, body);
  }

  /** Reading search lines up to and including a divider line. */
  lemma ReadSearch(path: string, lines: seq<string>, d: nat)
    requires d < |lines| && Strip(lines[d]) == SR_DIVIDER && forall l :: l in lines[..d] ==> Strip(l) != SR_DIVIDER
    ensures Feed(State(InSearch(path, []), []), lines)
         == Feed(State(InReplace(path, lines[..d], []), []), lines[d + 1..])
  {
    hide Step, Strip, Feed;
    FeedThrough(State(InSearch(path, []), []), lines, d);
    SearchPart(path, lines[..d]);
    StepInSearch([], path, lines[..d], lines[d]);
  }

  /** What the closing line `l` leaves of the replacement `lines` collected before it. */
  function Collected(lines: seq<string>, l: string): seq<string> {
    if Strip(l) == SR_REPLACE then lines
    else match SplitGluedTerminator(l) case Some(code) => lines + [code] case None => lines
  }

  lemma ReadReplace(path: string, search: seq<string>, lines: seq<string>, d: nat)
    requires d < |lines| && Terminates(lines[d]) && forall l :: l in lines[..d] ==> !Terminates(l)
    ensures Feed(State(InReplace(path, search, []), []), lines)
         == Feed(State(Outside, Emit([], path, search, Collected(lines[..d], lines[d]))), lines[d + 1..])
  {
    hide Step, Strip, SplitGluedTerminator, Emit, Feed;
    FeedThrough(State(InReplace(path, search, []), []), lines, d);
    ReplacePart(path, search, lines[..d]);
    StepInReplace([], path, search, lines[..d], lines[d]);
  }

  /** Feeding up to line `d`, that line, and the rest. */
  lemma FeedThrough(s: State, lines: seq<string>, d: nat)
    requires d < |lines|
    ensures Feed(s, lines) == Feed(Step(Feed(s, lines[..d]), lines[d]), lines[d + 1..])
  {
    hide Step;
    var head := lines[..d] + [lines[d]];
    assert lines == head + lines[d + 1..] && head[..d] == lines[..d];
    FeedAppend(s, head, lines[d + 1..]);
  }

  /** After a search part that fits, the whole of it has been collected. */
  lemma SearchRead(e: Edit, tail: seq<string>)
    requires e.path != "" && GoodPath(e.path)
    requires forall l :: l in EndLines(e.search) ==> Strip(l) != SR_DIVIDER
    ensures Feed(Start, BlockLines(e) + tail)
         == Feed(State(InReplace(e.path, EndLines(e.search), []), []), EndLines(e.replace) + [SR_REPLACE] + tail)
  {
    hide Step, Feed, Header, Strip, EndLines, GoodPath, BlockLines;
    IntoBlock(e, tail);
    MarkersStripped();
    var L := EndLines(e.search);
    var lines := L + [SR_DIVIDER] + (EndLines(e.replace) + [SR_REPLACE]) + tail;
    assert lines[..|L|] == L && lines[|L|] == SR_DIVIDER;
    assert lines[|L| + 1..] == EndLines(e.replace) + [SR_REPLACE] + tail;
    ReadSearch(e.path, lines, |L|);
  }

  /** A printable block is read back and leaves the parser outside. */
  lemma PrintableParses(e: Edit, tail: seq<string>)
    requires Printable(e)
    ensures Feed(Start, BlockLines(e) + tail) == Feed(State(Outside, [e]), tail)
  {
    hide Step, Feed, Header, Strip, EndLines, BlockLines, CleanText, CleanBlock, GoodPath, Terminates;
    SearchRead(e, tail);
    MarkerTerminates();
    ReplaceFitsIff(e.replace);
    var R := EndLines(e.replace);
    var lines := R + [SR_REPLACE] + tail;
    assert lines[..|R|] == R && lines[|R|] == SR_REPLACE && lines[|R| + 1..] == tail;
    ReadReplace(e.path, EndLines(e.search), lines, |R|);
    CleanIff(e.search);
    CleanIff(e.replace);
    assert [] + [e] == [e];
  }

  /** An edit that is read back has a search part that fits. */
  lemma SearchReadBackFits(e: Edit, tail: seq<string>)
    requires e.path != "" && GoodPath(e.path) && GoodBlock(e.search)
    ensures var edits := Feed(Start, BlockLines(e) + tail).edits;
            edits != [] && edits[0] == e ==> SearchFits(e.search)
  {
    hide Step, Feed, Header, Strip, EndLines, GoodPath, BlockLines, CleanBlock, CleanText, NoBreak, Join;
    var L := EndLines(e.search);
    var d := FirstDivider(L);
    if d == |L| {
      assert L[..d] == L;
      SearchRead(e, tail);
      FirstEmission(State(InReplace(e.path, L, []), []), EndLines(e.replace) + [SR_REPLACE] + tail);
      CleanIff(e.search);
    } else {
      IntoBlock(e, tail);
      var lines := L + [SR_DIVIDER] + (EndLines(e.replace) + [SR_REPLACE]) + tail;
      assert lines[..d] == L[..d] && lines[d] == L[d];
      ReadSearch(e.path, lines, d);
      FirstEmission(State(InReplace(e.path, L[..d], []), []), lines[d + 1..]);
      CutSearchShorter(e.search, d);
    }
  }

  lemma CutSearchShorter(t: string, d: nat)
    requires OnlyNewlines(t) && d < |EndLines(t)| && Strip(EndLines(t)[d]) == SR_DIVIDER
    ensures CleanBlock(EndLines(t)[..d]) != t
  {
    var L := EndLines(t);
    assert L[d] != "";
    hide EndLines, CleanBlock, NoBreak, Join, OnlyNewlines;
    EndLinesNoBreak(t);
    SubLinesNoBreak(L, 0, d);
    CleanBlockShape(L[..d]);
    JoinPrefixShorter(L, d);
    JoinEndLines(t);
  }

  /** An edit that is read back has a replacement that fits. */
  lemma ReplaceReadBackFits(e: Edit, tail: seq<string>)
    requires e.path != "" && GoodPath(e.path) && SearchFits(e.search) && GoodBlock(e.replace)
    ensures var edits := Feed(Start, BlockLines(e) + tail).edits;
            edits != [] && edits[0] == e ==> ReplaceFits(e.replace)
  {
    hide Step, Feed, Header, Strip, EndLines, GoodPath, BlockLines, CleanBlock, CleanText, NoBreak, Join, Terminates;
    SearchRead(e, tail);
    ReplaceFitsIff(e.replace);
    var L, R := EndLines(e.search), EndLines(e.replace);
    var lines := R + [SR_REPLACE] + tail;
    var d := FirstTerminator(R);
    assert lines[..d] == R[..d];
    if d == |R| {
      assert R[..d] == R;
      MarkerTerminates();
      ReadReplace(e.path, L, lines, d);
      assert Collected(R, SR_REPLACE) == R;
      CleanIff(e.replace);
    } else {
      assert lines[d] == R[d];
      ReadReplace(e.path, L, lines, d);
      CutReplaceShorter(e.replace, d);
    }
    var first := Edit(e.path, CleanBlock(L), CleanBlock(Collected(lines[..d], lines[d])));
    assert [] + [first] == [first];
    FeedOnlyAdds(State(Outside, [first]), lines[d + 1..]);
  }

  /** Closing a block, said of the text of the line. */
  lemma TerminatesIff(l: string)
    ensures Terminates(l) <==> EndsWith(StripRight(l), ">>>>>>> REPLACE")
  {
    hide StripRight, StripLeft, Strip;
    if Strip(l) == SR_REPLACE {
      StrippedMarkerEnds(l);
    }
    if StripRight(l) == SR_REPLACE {
      BareMarkerStrips(l);
    }
  }

  lemma StrippedMarkerEnds(l: string)
    requires Strip(l) == SR_REPLACE
    ensures EndsWith(StripRight(l), ">>>>>>> REPLACE")
  {
    hide IsSpace, StripLeft, StripRight, Strip;
    var s := Strip(l);
    var a, b := StripParts(l);
    assert (a + s)[|a + s| - 1] == s[|s| - 1];
    StripRightExact(a + s, b);
    assert (a + s)[|a|..] == s;
  }

  lemma BareMarkerStrips(l: string)
    requires StripRight(l) == SR_REPLACE
    ensures Strip(l) == SR_REPLACE
  {
    var r := StripRight(l);
    var b := l[|r|..];
    assert AllSpace(b) && l == "" + r + b && !IsSpace('>') && !IsSpace('E');
    hide IsSpace, StripLeft, StripRight, Strip;
    StripExact("", r, b);
  }

  lemma ReplaceFitsIff(t: string)
    ensures ReplaceFits(t) <==> CleanText(t) && forall l :: l in EndLines(t) ==> !Terminates(l)
  {
    forall l ensures Terminates(l) <==> EndsWith(StripRight(l), ">>>>>>> REPLACE") {
      TerminatesIff(l);
    }
  }

  lemma MarkerTerminates()
    ensures Terminates(SR_REPLACE) && Strip(SR_REPLACE) == SR_REPLACE
  {
    MarkersStripped();
  }

  lemma CutReplaceShorter(t: string, d: nat)
    requires OnlyNewlines(t) && d < |EndLines(t)| && Terminates(EndLines(t)[d])
    ensures CleanBlock(Collected(EndLines(t)[..d], EndLines(t)[d])) != t
  {
    hide EndLines, CleanBlock, NoBreak, Join, OnlyNewlines, Strip;
    var L := EndLines(t);
    EndLinesNoBreak(t);
    SubLinesNoBreak(L, 0, d);
    JoinEndLines(t);
    TerminatorNonEmpty(L[d]);
    if Strip(L[d]) == SR_REPLACE {
      CleanBlockShape(L[..d]);
      JoinPrefixShorter(L, d);
    } else {
      var code := SplitGluedTerminator(L[d]).value;
      GluedGood(L[d]);
      CleanBlockShape(L[..d] + [code]);
      JoinCutShorter(L, d, code);
    }
  }

  lemma TerminatorNonEmpty(l: string)
    requires Terminates(l)
    ensures l != "" && (SplitGluedTerminator(l).Some? ==> |SplitGluedTerminator(l).value| < |l|)
  {
  }

  /** The first edit that is not printable does not survive: the parse is empty or starts differently. */
  lemma UnprintableDiffers(e: Edit, rest: string)
    requires !Printable(e)
    ensures var edits := Parse(Print(e, rest)); edits == [] || edits[0] != e
  {
    var lines := SplitLines(Print(e, rest));
    SplitNoBreaks(Print(e, rest));
    hide SplitLines, NoBreak, Strip, Terminates, CleanText, Print, BlockLines, Feed;
    FeedGood(lines);
    if GoodEdit(e) {
      PrintedLines(e, rest);
      if SearchFits(e.search) {
        ReplaceReadBackFits(e, SplitLines(rest));
      } else {
        SearchReadBackFits(e, SplitLines(rest));
      }
    }
  }

  /** Edits found earlier ride along. */
  lemma {:induction false} FeedOffset(edits: seq<Edit>, lines: seq<string>)
    ensures var s := Feed(Start, lines); Feed(State(Outside, edits), lines) == State(s.mode, edits + s.edits)
  {
    if lines == [] {
      assert edits + [] == edits;
    } else {
      FeedOffset(edits, lines[..|lines| - 1]);
      StepOffset(edits, Feed(Start, lines[..|lines| - 1]), lines[|lines| - 1]);
    }
  }

  lemma StepOffset(edits: seq<Edit>, s: State, line: string)
    ensures Step(State(s.mode, edits + s.edits), line) == State(Step(s, line).mode, edits + Step(s, line).edits)
  {
    hide Strip, SplitGluedTerminator, CleanBlock, IsHeader, PathOf;
  }

  /** Printing and parsing are inverse on a list of edits if and only if every edit is printable. */
  lemma {:induction false} RoundTripIffPrintable(es: seq<Edit>)
    ensures Parse(PrintAll(es)) == es <==> forall e :: e in es ==> Printable(e)
  {
    hide Printable, Step, BlockLines, Print;
    if es == [] {
      assert SplitLines("") == [];
    } else {
      var e, tail := es[0], PrintAll(es[1..]);
      assert es == [e] + es[1..];
      if Printable(e) {
        PrintableHasPath(e);
        PrintedLines(e, tail);
        PrintableParses(e, SplitLines(tail));
        FeedOffset([e], SplitLines(tail));
        RoundTripIffPrintable(es[1..]);
        assert ([e] + Parse(tail))[1..] == Parse(tail);
      } else {
        UnprintableDiffers(e, tail);
      }
    }
  }

  lemma PrintableHasPath(e: Edit)
    requires Printable(e)
    ensures NoBreak(e.path)
  {
  }

  // ---------------------------------------------------------------------
  // Every complete block, however it is dressed
  // ---------------------------------------------------------------------

  ghost predicate Names(header: string, path: string) {
    Strip(path) == path && exists gap :: AllSpace(gap) && Strip(header) == "### EDIT" + gap + path
  }

  lemma NamesPath(header: string, path: string)
    requires Names(header, path)
    ensures IsHeader(header) && PathOf(header) == path
  {
    hide IsSpace, Strip, StripLeft, StripRight;
    var gap :| AllSpace(gap) && Strip(header) == "### EDIT" + gap + path;
    var h := "### EDIT" + gap + path;
    assert h[..|EDIT_HEADER|] == EDIT_HEADER;
    assert h[|EDIT_HEADER|..] == gap + path + "";
    if path != "" {
      StrippedEnds(path);
    }
    StripExact(gap, path, "");
  }

  /** Lines before the search marker are passed over. */
  lemma {:induction false} SeekPart(path: string, lines: seq<string>)
    requires forall l :: l in lines ==> Strip(l) != "<<<<<<< SEARCH"
    ensures Feed(State(Seeking(path), []), lines) == State(Seeking(path), [])
  {
    hide Step, Strip;
    if lines != [] {
      var n := |lines| - 1;
      SeekPart(path, lines[..n]);
      StepSeeking([], path, lines[n]);
    }
  }

  lemma ReadHeader(header: string, noise: seq<string>, open: string, path: string, rest: seq<string>)
    requires Names(header, path) && Strip(open) == "<<<<<<< SEARCH"
    requires forall l :: l in noise ==> Strip(l) != "<<<<<<< SEARCH"
    ensures Feed(Start, [header] + noise + [open] + rest) == Feed(State(InSearch(path, []), []), rest)
  {
    hide Step, Strip, Names, Feed, IsHeader, PathOf;
    NamesPath(header, path);
    var all := [header] + noise + [open] + rest;
    StepOutside([], header);
    FeedEmpty(Start);
    FeedThrough(Start, all, 0);
    assert all[..0] == [] && all[0] == header && all[1..] == noise + [open] + rest;
    var s, more := State(Seeking(path), []), noise + [open] + rest;
    SeekPart(path, noise);
    StepSeeking([], path, open);
    FeedThrough(s, more, |noise|);
    assert more[..|noise|] == noise && more[|noise|] == open && more[|noise| + 1..] == rest;
  }

  lemma FeedEmpty(s: State)
    ensures Feed(s, []) == s
  {
  }

  /** What the closing line leaves: its code, unless it is the marker alone. */
  lemma ClosingLine(close: string, code: string)
    requires StripRight(close) == code + ">>>>>>> REPLACE"
    ensures Terminates(close)
    ensures forall R :: Collected(R, close) == if AllSpace(code) then R else R + [code]
  {
    var s := StripRight(close);
    assert EndsWith(s, SR_REPLACE) && s[..|s| - |SR_REPLACE|] == code;
    TerminatesIff(close);
    var b := StripRightParts(close);
    assert close == code + SR_REPLACE + b;
    assert !IsSpace('>') && !IsSpace('E');
    hide IsSpace, StripRight, Strip;
    if AllSpace(code) {
      StripExact(code, SR_REPLACE, b);
    } else if Strip(close) == SR_REPLACE {
      var u, v := StripParts(close);
      SpaceBeforeMarker(close, u, v, code, b);
    } else {
      assert s != SR_REPLACE by {
        if s == SR_REPLACE {
          BareMarkerStrips(close);
        }
      }
    }
  }

  lemma SpaceBeforeMarker(l: string, u: string, v: string, code: string, b: string)
    requires l == u + SR_REPLACE + v && l == code + SR_REPLACE + b && AllSpace(u) && AllSpace(v) && AllSpace(b)
    ensures AllSpace(code)
  {
    assert !IsSpace('E') && SR_REPLACE[|SR_REPLACE| - 1] == 'E';
    hide IsSpace;
    assert l == (u + SR_REPLACE) + v && l == (code + SR_REPLACE) + b;
    StripRightExact(u + SR_REPLACE, v);
    StripRightExact(code + SR_REPLACE, b);
    assert (u + SR_REPLACE)[..|u|] == u && (code + SR_REPLACE)[..|code|] == code;
  }

  /**
   A complete block is read as the edit its text carries, whatever the response puts around it: space around
   the path and the markers, lines before the search marker, newlines and one fence around either side, code in
   front of the terminator. What follows is parsed as if it stood alone. A block without a path yields nothing.
   */
  lemma AnyBlockParses(
    header: string, noise: seq<string>, open: string, search: seq<string>, divider: string,
    replace: seq<string>, close: string, tail: seq<string>, e: Edit, code: string)
    requires Names(header, e.path)
    requires Strip(open) == "<<<<<<< SEARCH" && forall l :: l in noise ==> Strip(l) != "<<<<<<< SEARCH"
    requires Strip(divider) == "=======" && forall l :: l in search ==> Strip(l) != "======="
    requires StripRight(close) == code + ">>>>>>> REPLACE"
    requires forall l :: l in replace ==> !EndsWith(StripRight(l), ">>>>>>> REPLACE")
    requires NoBreak(close) && (forall l :: l in search ==> NoBreak(l)) && (forall l :: l in replace ==> NoBreak(l))
    requires Carries(Join(search), e.search)
    requires Carries(Join(if AllSpace(code) then replace else replace + [code]), e.replace)
    ensures Feed(Start, [header] + noise + [open] + search + [divider] + replace + [close] + tail)
         == State(Feed(Start, tail).mode, (if e.path == "" then [] else [e]) + Feed(Start, tail).edits)
  {
    hide Step, Strip, StripRight, Names, Feed, IsHeader, PathOf, CleanBlock, Carries, NoBreak, AllSpace, Terminates;
    var read := if AllSpace(code) then replace else replace + [code];
    var third := replace + [close] + tail;
    var second := search + [divider] + third;
    assert [header] + noise + [open] + search + [divider] + replace + [close] + tail
        == [header] + noise + [open] + second;
    ReadHeader(header, noise, open, e.path, second);
    assert second[..|search|] == search && second[|search|] == divider && second[|search| + 1..] == third;
    ReadSearch(e.path, second, |search|);
    ClosingLine(close, code);
    forall l | l in replace ensures !Terminates(l) {
      TerminatesIff(l);
    }
    assert third[..|replace|] == replace && third[|replace|] == close && third[|replace| + 1..] == tail;
    ReadReplace(e.path, search, third, |replace|);
    CodeUnbroken(close, code);
    CleanedIffCarried(search, e.search);
    CleanedIffCarried(read, e.replace);
    FeedOffset(Emit([], e.path, search, read), tail);
  }

  lemma CodeUnbroken(close: string, code: string)
    requires NoBreak(close) && StripRight(close) == code + ">>>>>>> REPLACE"
    ensures NoBreak(code)
  {
    hide IsBreak;
    assert forall i :: 0 <= i < |code| ==> code[i] == close[i];
  }

  /** `t` between the lines of a markdown fence. */
  function FencedText(info: string, t: string): string {
    "```" + info + "\n" + t + "\n```"
  }

  /**
   The one tolerated decoration: a part of an edit wrapped in a fence with an info word is read as the part
   itself, on either side or on both.
   */
  lemma FencedEditParses(e: Edit, onSearch: bool, onReplace: bool, word: string, info: string, rest: string)
    requires e.path != "" && GoodPath(e.path) && InfoWord(word) && InfoWord(info)
    requires GoodBlock(e.search) && GoodBlock(e.replace)
    requires onSearch || !Wrapped(e.search)
    requires onReplace || !Wrapped(e.replace)
    requires forall l :: l in EndLines(e.search) ==> Strip(l) != "======="
    requires forall l :: l in EndLines(e.replace) ==> !EndsWith(StripRight(l), ">>>>>>> REPLACE")
    ensures Parse(Print(Edit(e.path, if onSearch then FencedText(word, e.search) else e.search,
                             if onReplace then FencedText(info, e.replace) else e.replace), rest))
         == [e] + Parse(rest)
  {
    hide Step, Strip, StripRight, Feed, CleanBlock, Carries, NoBreak, GoodPath, GoodBlock, Wrapped, EndLines, InfoWord;
    hide FencedText, Join, Header, Print, SplitLines;
    var x := if onSearch then FencedText(word, e.search) else e.search;
    var y := if onReplace then FencedText(info, e.replace) else e.replace;
    var L, R, tail := EndLines(x), EndLines(y), SplitLines(rest);
    PathIsGood(e.path);
    PrintedLines(Edit(e.path, x, y), rest);
    var h := Header(e.path);
    assert BlockLines(Edit(e.path, x, y)) + tail
        == [h] + [] + ["<<<<<<< SEARCH"] + L + ["======="] + R + [">>>>>>> REPLACE"] + tail;
    MarkersStripped();
    MarkersUnbroken();
    assert StripRight(">>>>>>> REPLACE") == "" + ">>>>>>> REPLACE" by {
      StripFixed(">>>>>>> REPLACE");
    }
    PathIsGood(e.path);
    HeaderNames(e.path);
    EndLinesNoBreak(x);
    EndLinesNoBreak(y);
    if onSearch { FencedSide(word, e.search); } else { BareSide(e.search); }
    if onReplace { FencedSide(info, e.replace); } else { BareSide(e.replace); }
    assert AllSpace("");
    AnyBlockParses(h, [], "<<<<<<< SEARCH", L, "=======", R, ">>>>>>> REPLACE", tail, e, "");
  }

  lemma PathIsGood(path: string)
    requires GoodPath(path)
    ensures NoBreak(path) && Strip(path) == path
  {
  }

  lemma HeaderNames(path: string)
    requires path != "" && Strip(path) == path
    ensures Names(Header(path), path)
  {
    var h := Header(path);
    StrippedEnds(path);
    assert h[0] == '#' && h[|h| - 1] == path[|path| - 1] && !IsSpace('#');
    assert AllSpace(" ") && h == "### EDIT" + " " + path;
    hide IsSpace, Strip, StripLeft, StripRight, AllSpace;
    StripFixed(h);
  }

  lemma BareSide(t: string)
    requires GoodBlock(t) && !Wrapped(t)
    ensures Carries(Join(EndLines(t)), t)
  {
    hide Wrapped, EndLines, Join, OnlyNewlines;
    JoinEndLines(t);
    assert AllNewlines("") && "" + t + "" == t;
    assert Bordered(t, t);
  }

  lemma FencedSide(info: string, t: string)
    requires GoodBlock(t) && InfoWord(info)
    ensures var x := FencedText(info, t);
            && Carries(Join(EndLines(x)), t)
            && EndLines(x) == ["```" + info] + EndLines(t) + ["```"]
    ensures var x := FencedText(info, t);
            forall l :: l in EndLines(x) && l !in EndLines(t) ==>
              Strip(l) != "=======" && !EndsWith(StripRight(l), ">>>>>>> REPLACE")
  {
    hide *;
    var x, open := FencedText(info, t), "```" + info;
    GoodParts(t);
    FenceLine(info);
    EmptyInfo();
    FencedParts(info, t);
    FencedLines(open, t, x);
    JoinEndLines(x);
    FencedCarries(info, t);
  }

  lemma GoodParts(t: string)
    requires GoodBlock(t)
    ensures OnlyNewlines(t) && NoBorderNewline(t)
  {
  }

  lemma EmptyInfo()
    ensures ClosesFence("```") && Strip("```") == "```" && StripRight("```") == "```"
    ensures !EndsWith("```", ">>>>>>> REPLACE")
  {
    hide Strip, StripLeft, StripRight, NoBreak, IsBreak, IsSpace;
    assert "```" + "" == "```" && InfoWord("");
    FenceLine("");
  }

  lemma InfoOpens(info: string)
    requires InfoWord(info)
    ensures OpensFence("```" + info)
  {
    FenceLine(info);
    hide Strip, NoBreak, InfoWord;
  }

  lemma FencedParts(info: string, t: string)
    ensures FencedText(info, t) == ("```" + info + "\n") + ((t + "\n") + "```")
    ensures IsWrapping(FencedText(info, t), "```" + info, t, "```")
  {
  }

  lemma FencedCarries(info: string, t: string)
    requires NoBorderNewline(t) && InfoWord(info)
    ensures Carries(FencedText(info, t), t)
  {
    hide *;
    var x, open := FencedText(info, t), "```" + info;
    FencedParts(info, t);
    InfoOpens(info);
    EmptyInfo();
    MakesWrap(x, open, t, "```");
    SelfBordered(t);
    FencedBordered(info, t);
    SelfBordered(x);
    MakesCarry(x, t);
  }

  lemma MakesWrap(core: string, open: string, inner: string, close: string)
    requires OpensFence(open) && ClosesFence(close) && IsWrapping(core, open, inner, close)
    ensures Wraps(core, inner) && Wrapped(core)
  {
    hide OpensFence, ClosesFence, IsWrapping;
    assert Wraps(core, inner);
  }

  lemma MakesCarry(x: string, t: string)
    requires Bordered(x, x) && Wraps(x, t) && Wrapped(x) && Bordered(t, t)
    ensures Carries(x, t)
  {
    hide Bordered, Wraps, Wrapped;
  }

  lemma SelfBordered(t: string)
    requires NoBorderNewline(t)
    ensures Bordered(t, t)
  {
    assert AllNewlines("") && "" + t + "" == t;
  }

  lemma FencedBordered(info: string, t: string)
    ensures NoBorderNewline(FencedText(info, t))
  {
  }

  lemma FenceLine(info: string)
    requires InfoWord(info)
    ensures var l := "```" + info;
            NoBreak(l) && Strip(l) == l && StripRight(l) == l && l != "=======" && !EndsWith(l, ">>>>>>> REPLACE")
  {
    var l := "```" + info;
    forall i | 0 <= i < |l| ensures !IsBreak(l[i]) && !IsSpace(l[i]) && l[i] != ' ' {
      if i >= 3 {
        assert l[i] == info[i - 3];
      }
    }
    hide IsBreak, IsSpace;
    StripFixed(l);
    assert |l| >= 15 ==> l[|l| - 15..][7] == l[|l| - 8] != ' ';
    assert l[0] == '`';
  }

  lemma FencedLines(open: string, t: string, x: string)
    requires NoBreak(open) && x == (open + "\n") + ((t + "\n") + "```") && OnlyNewlines(t)
    ensures OnlyNewlines(x) && EndLines(x) == [open] + EndLines(t) + ["```"]
  {
    hide IsBreak, SplitLines;
    assert !IsBreak('`') by { BackquoteUnbroken(); }
    assert forall i :: 0 <= i < |open| ==> x[i] == open[i];
    forall i | 0 <= i < |x| && IsBreak(x[i]) ensures x[i] == '\n' {
      if |open| < i < |open| + 1 + |t| {
        assert x[i] == t[i - |open| - 1];
      }
    }
    assert NoBreak("```");
    hide NoBreak;
    EndLineOf("```");
    SplitLine(open, (t + "\n") + ("```" + "\n"));
    SplitBlock(t, "```" + "\n");
    assert x + "\n" == (open + "\n") + ((t + "\n") + ("```" + "\n"));
    assert [open] + (EndLines(t) + ["```"]) == [open] + EndLines(t) + ["```"];
  }

  lemma BackquoteUnbroken()
    ensures !IsBreak('`')
  {
  }
}
