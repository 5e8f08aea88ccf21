/**
 The coder's SEARCH/REPLACE edit blocks: a line-driven parser that tolerates prose around the
 blocks, drops an unterminated block, and recognises a terminator glued to the last code line.

 The parser's nested loops are proved against a one-line-at-a-time automaton, whose laws are
 the properties: truncation never invents an edit, prose outside blocks never matters, and the
 printed form of a list of edits parses back to that list if and only if every edit is printable.
 */
module EditParser {
  import opened Prelude
  import opened Text

  const EDIT_HEADER := "### EDIT"
  const SR_SEARCH := "<<<<<<< SEARCH"
  const SR_DIVIDER := "======="
  const SR_REPLACE := ">>>>>>> REPLACE"

  datatype Edit = Edit(path: string, search: string, replace: string)

  predicate IsWord(c: char) {
    'a' <= c <= 'z' || 'A' <= c <= 'Z' || '0' <= c <= '9' || c == '_'
  }

  /** A markdown fence opener: three backticks and an info word. */
  predicate IsFenceOpen(line: string) {
    StartsWith(line, "```") && forall i :: 3 <= i < |line| ==> IsWord(line[i]) || line[i] == '-'
  }

  /** The whole block is wrapped in one fence. */
  predicate Fenced(parts: seq<string>) {
    |parts| >= 2 && IsFenceOpen(Strip(parts[0])) && Strip(parts[|parts| - 1]) == "```"
  }

  /** Border newlines go, and one accidental wrapping fence. */
  function CleanBlock(lines: seq<string>): string {
    var text := Trim(Join(lines));
    var parts := SplitLines(text);
    if Fenced(parts) then Trim(Join(parts[1..|parts| - 1])) else text
  }

  /** The code part of a line whose tail is a terminator. */
  function SplitGluedTerminator(line: string): Option<string> {
    var stripped := StripRight(line);
    if stripped != SR_REPLACE && EndsWith(stripped, SR_REPLACE)
    then Some(stripped[..|stripped| - |SR_REPLACE|]) else None
  }

  predicate IsHeader(line: string) {
    StartsWith(Strip(line), EDIT_HEADER)
  }

  function PathOf(line: string): string
    requires IsHeader(line)
  {
    Strip(Strip(line)[|EDIT_HEADER|..])
  }

  datatype Mode =
    | Outside
    | Seeking(path: string)
    | InSearch(path: string, search: seq<string>)
    | InReplace(path: string, search: seq<string>, replace: seq<string>)

  datatype State = State(mode: Mode, edits: seq<Edit>)

  const Start := State(Outside, [])

  /** Close a block; one without a path is consumed but yields nothing. */
  function Emit(edits: seq<Edit>, path: string, search: seq<string>, replace: seq<string>): seq<Edit> {
    if path == "" then edits else edits + [Edit(path, CleanBlock(search), CleanBlock(replace))]
  }

  function Step(s: State, line: string): State {
    match s.mode
    case Outside => if IsHeader(line) then s.(mode := Seeking(PathOf(line))) else s
    case Seeking(path) => if Strip(line) == SR_SEARCH then s.(mode := InSearch(path, [])) else s
    case InSearch(path, search) =>
      s.(mode := if Strip(line) == SR_DIVIDER then InReplace(path, search, []) else InSearch(path, search + [line]))
    case InReplace(path, search, replace) =>
      if Strip(line) == SR_REPLACE then State(Outside, Emit(s.edits, path, search, replace))
      else match SplitGluedTerminator(line)
        case Some(code) => State(Outside, Emit(s.edits, path, search, replace + [code]))
        case None => s.(mode := InReplace(path, search, replace + [line]))
  }

  function Feed(s: State, lines: seq<string>): State {
    if lines == [] then s else Step(Feed(s, lines[..|lines| - 1]), lines[|lines| - 1])
  }

  function Parse(text: string): seq<Edit> {
    Feed(Start, SplitLines(text)).edits
  }

  lemma FeedNext(lines: seq<string>, i: nat)
    requires i < |lines|
    ensures Feed(Start, lines[..i + 1]) == Step(Feed(Start, lines[..i]), lines[i])
  {
    assert lines[..i + 1][..i] == lines[..i];
  }

  lemma FeedNothing(lines: seq<string>)
    ensures Feed(Start, lines[..0]) == Start
  {
  }

  /** `_parse_search_replace_blocks`, loop by loop. */
  method ParseBlocks(text: string) returns (edits: seq<Edit>)
    ensures edits == Parse(text)
  {
    hide Step, Emit, Feed, Strip, SplitLines, SplitGluedTerminator, IsHeader, PathOf;
    edits := [];
    var lines := SplitLines(text);
    var i, n := 0, |lines|;
    FeedNothing(lines);
    while i < n
      invariant i <= n && Feed(Start, lines[..i]) == State(Outside, edits)
    {
      FeedNext(lines, i);
      StepOutside(edits, lines[i]);
      if IsHeader(lines[i]) {
        var path := PathOf(lines[i]);
        i := i + 1;
        while i < n && Strip(lines[i]) != SR_SEARCH
          invariant i <= n && Feed(Start, lines[..i]) == State(Seeking(path), edits)
        {
          FeedNext(lines, i);
          StepSeeking(edits, path, lines[i]);
          i := i + 1;
        }
        if i >= n {
          break;
        }
        FeedNext(lines, i);
        StepSeeking(edits, path, lines[i]);
        i := i + 1;
        var search := [];
        while i < n && Strip(lines[i]) != SR_DIVIDER
          invariant i <= n && Feed(Start, lines[..i]) == State(InSearch(path, search), edits)
        {
          FeedNext(lines, i);
          StepInSearch(edits, path, search, lines[i]);
          search := search + [lines[i]];
          i := i + 1;
        }
        if i >= n {
          break;
        }
        FeedNext(lines, i);
        StepInSearch(edits, path, search, lines[i]);
        i := i + 1;
        var replace, terminated := [], false;
        while i < n
          invariant i <= n && !terminated
          invariant Feed(Start, lines[..i]) == State(InReplace(path, search, replace), edits)
        {
          FeedNext(lines, i);
          StepInReplace(edits, path, search, replace, lines[i]);
          if Strip(lines[i]) == SR_REPLACE {
            terminated := true;
            break;
          }
          var glued := SplitGluedTerminator(lines[i]);
          if glued.Some? {
            replace := replace + [glued.value];
            terminated := true;
            break;
          }
          replace := replace + [lines[i]];
          i := i + 1;
        }
        if !terminated {
          break;
        }
        edits := EmitNow(edits, path, search, replace);
      }
      i := i + 1;
    }
    assert lines[..n] == lines;
  }

  method EmitNow(edits: seq<Edit>, path: string, search: seq<string>, replace: seq<string>) returns (r: seq<Edit>)
    ensures r == Emit(edits, path, search, replace)
  {
    r := edits;
    if path != "" {
      r := r + [Edit(path, CleanBlock(search), CleanBlock(replace))];
    }
  }

  lemma StepOutside(edits: seq<Edit>, line: string)
    ensures Step(State(Outside, edits), line)
         == State(if IsHeader(line) then Seeking(PathOf(line)) else Outside, edits)
  {
  }

  lemma StepSeeking(edits: seq<Edit>, path: string, line: string)
    ensures Step(State(Seeking(path), edits), line)
         == State(if Strip(line) == SR_SEARCH then InSearch(path, []) else Seeking(path), edits)
  {
  }

  lemma StepInSearch(edits: seq<Edit>, path: string, search: seq<string>, line: string)
    ensures Step(State(InSearch(path, search), edits), line)
         == State(if Strip(line) == SR_DIVIDER then InReplace(path, search, [])
                  else InSearch(path, search + [line]), edits)
  {
  }

  lemma StepInReplace(edits: seq<Edit>, path: string, search: seq<string>, replace: seq<string>, line: string)
    ensures Step(State(InReplace(path, search, replace), edits), line)
         == if Strip(line) == SR_REPLACE then State(Outside, Emit(edits, path, search, replace))
            else match SplitGluedTerminator(line)
              case Some(code) => State(Outside, Emit(edits, path, search, replace + [code]))
              case None => State(InReplace(path, search, replace + [line]), edits)
  {
  }

  // ---------------------------------------------------------------------
  // Truncation and prose
  // ---------------------------------------------------------------------

  lemma {:induction false} FeedAppend(s: State, a: seq<string>, b: seq<string>)
    ensures Feed(s, a + b) == Feed(Feed(s, a), b)
    decreases |b|
  {
    if b == [] {
      assert a + b == a;
    } else {
      assert (a + b)[..|a + b| - 1] == a + b[..|b| - 1];
      FeedAppend(s, a, b[..|b| - 1]);
    }
  }

  lemma StepOnlyAdds(s: State, line: string)
    ensures s.edits <= Step(s, line).edits
  {
    hide Strip, SplitGluedTerminator, CleanBlock, IsHeader, PathOf;
  }

  lemma {:induction false} FeedOnlyAdds(s: State, lines: seq<string>)
    ensures s.edits <= Feed(s, lines).edits
  {
    hide Step;
    if lines != [] {
      FeedOnlyAdds(s, lines[..|lines| - 1]);
      StepOnlyAdds(Feed(s, lines[..|lines| - 1]), lines[|lines| - 1]);
    }
  }

  /** The parse of any line-prefix of a response is a prefix of the full parse. */
  lemma LinePrefixParse(lines: seq<string>, m: nat)
    requires m <= |lines|
    ensures Feed(Start, lines[..m]).edits <= Feed(Start, lines).edits
  {
    hide Step;
    assert lines == lines[..m] + lines[m..];
    FeedAppend(Start, lines[..m], lines[m..]);
    FeedOnlyAdds(Feed(Start, lines[..m]), lines[m..]);
  }

  /** A line that would close an open block. */
  predicate Terminates(line: string) {
    Strip(line) == SR_REPLACE || SplitGluedTerminator(line).Some?
  }

  /** A line adds an edit exactly when it closes an open block that has a path. */
  lemma StepEmitsIff(s: State, line: string)
    ensures Step(s, line).edits != s.edits <==> s.mode.InReplace? && s.mode.path != "" && Terminates(line)
  {
    hide Strip, SplitGluedTerminator, CleanBlock, IsHeader, PathOf;
  }

  /**
   Truncation, at any character: the interrupted response consists of the first `m` lines and at most
   one partial line; its parse is that of the `m` complete lines, hence a prefix of the full parse, if
   and only if the partial line does not happen to close an open block.
   */
  lemma TruncatedParse(text: string, k: nat) returns (m: nat)
    requires k <= |text|
    ensures CutLines(SplitLines(text[..k]), SplitLines(text), m)
    ensures var cut, whole := SplitLines(text[..k]), Feed(Start, SplitLines(text)[..m]);
            && whole.edits <= Parse(text)
            && (Parse(text[..k]) == whole.edits
                <==> !(|cut| > m && whole.mode.InReplace? && whole.mode.path != "" && Terminates(cut[m])))
  {
    hide Step, Terminates;
    var cut, ls := SplitLines(text[..k]), SplitLines(text);
    m := SplitCut(text, k);
    LinePrefixParse(ls, m);
    if |cut| > m {
      assert cut[..|cut| - 1] == ls[..m];
      StepEmitsIff(Feed(Start, ls[..m]), cut[m]);
    } else {
      assert cut == ls[..m];
    }
  }

  /** Prose: lines outside every block that do not start with the edit header. */
  lemma {:induction false} ProseChangesNothing(a: seq<string>, prose: seq<string>, b: seq<string>)
    requires Feed(Start, a).mode.Outside? && forall l :: l in prose ==> !StartsWith(Strip(l), "### EDIT")
    ensures Feed(Start, a + prose + b) == Feed(Start, a + b)
  {
    hide Step;
    FeedAppend(Start, a, b);
    FeedAppend(Start, a + prose, b);
    FeedAppend(Start, a, prose);
    ProseStaysOutside(Feed(Start, a), prose);
  }

  lemma {:induction false} ProseStaysOutside(s: State, prose: seq<string>)
    requires s.mode.Outside? && forall l :: l in prose ==> !IsHeader(l)
    ensures Feed(s, prose) == s
  {
    hide Step, IsHeader;
    if prose != [] {
      ProseStaysOutside(s, prose[..|prose| - 1]);
      StepOutside(s.edits, prose[|prose| - 1]);
    }
  }
}
