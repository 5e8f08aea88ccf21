/**
 The build-time stylesheet guard: one pass over a sheet that skips comments and strings and
 matches the remaining brackets with a stack.

 It is sound and complete: it accepts exactly the sheets whose comments all close, whose strings
 hold no unescaped newline, and whose remaining brackets form a word of the balanced grammar.
 */
module Stylesheet {
  import opened Prelude

  /** An opened bracket and the line it was opened on. */
  datatype Open = Open(ch: char, line: nat)

  datatype Verdict =
    | Clean
    | UnterminatedComment(line: nat)
    | BadString(quote: char, line: nat)
    | Unbalanced(close: char, line: nat, against: Option<Open>)
    | NeverClosed(first: Open)

  predicate IsOpener(c: char) {
    c == '{' || c == '(' || c == '['
  }

  predicate IsCloser(c: char) {
    c == '}' || c == ')' || c == ']'
  }

  predicate IsQuote(c: char) {
    c == '"' || c == '\''
  }

  function CloserOf(c: char): char {
    if c == '{' then '}' else if c == '(' then ')' else ']'
  }

  function Newlines(s: string): nat {
    if s == "" then 0 else Newlines(s[..|s| - 1]) + if s[|s| - 1] == '\n' then 1 else 0
  }

  predicate OpensComment(s: string) {
    |s| >= 2 && s[0] == '/' && s[1] == '*'
  }

  predicate ClosesComment(s: string) {
    |s| >= 2 && s[0] == '*' && s[1] == '/'
  }

  /** Where the next comment terminator starts, if there is one. */
  function CommentEnd(s: string): (e: Option<nat>)
    ensures e.Some? ==> e.value + 2 <= |s|
  {
    if s == "" then None
    else if ClosesComment(s) then Some(0)
    else match CommentEnd(s[1..]) case None => None case Some(e) => Some(e + 1)
  }

  /** How many characters a string body and its closing quote take; None on an unescaped newline. */
  function StringEnd(s: string, quote: char): (e: Option<nat>)
    ensures e.Some? ==> e.value <= |s|
  {
    if s == "" then Some(0)
    else if s[0] == quote then Some(1)
    else if s[0] == '\\' then
      if |s| == 1 then Some(1)
      else (match StringEnd(s[2..], quote) case None => None case Some(e) => Some(e + 2))
    else if s[0] == '\n' then None
    else match StringEnd(s[1..], quote) case None => None case Some(e) => Some(e + 1)
  }

  /** What remains to be found from `s` on, at line `line`, with the brackets `stack` open. */
  function Judge(s: string, line: nat, stack: seq<Open>): Verdict
    decreases |s|
  {
    if s == "" then if stack == [] then Clean else NeverClosed(stack[0])
    else if s[0] == '\n' then Judge(s[1..], line + 1, stack)
    else if OpensComment(s) then
      match CommentEnd(s[2..])
      case None => UnterminatedComment(line)
      case Some(e) => Judge(s[2 + e + 2..], line + Newlines(s[..2 + e]), stack)
    else if IsQuote(s[0]) then
      match StringEnd(s[1..], s[0])
      case None => BadString(s[0], line)
      case Some(e) => Judge(s[1 + e..], line, stack)
    else if IsOpener(s[0]) then Judge(s[1..], line, stack + [Open(s[0], line)])
    else if IsCloser(s[0]) then
      if stack == [] then Unbalanced(s[0], line, None)
      else
        var top := stack[|stack| - 1];
        if CloserOf(top.ch) != s[0] then Unbalanced(s[0], line, Some(top))
        else Judge(s[1..], line, stack[..|stack| - 1])
    else Judge(s[1..], line, stack)
  }

  // ---------------------------------------------------------------------
  // The scanner
  // ---------------------------------------------------------------------

  // Searches for the two characters of a comment terminator from `from` on.
  method IndexOfCommentEnd(src: string, from: nat) returns (e: Option<nat>)
    requires from <= |src|
    ensures e == match CommentEnd(src[from..]) case None => None case Some(n) => Some(from + n)
  {
    var k := from;
    while k < |src| && !(k + 1 < |src| && src[k] == '*' && src[k + 1] == '/')
      invariant from <= k <= |src|
      invariant (match CommentEnd(src[from..]) case None => None case Some(n) => Some(from + n))
             == (match CommentEnd(src[k..]) case None => None case Some(n) => Some(k + n))
    {
      assert src[k..][1..] == src[k + 1..];
      k := k + 1;
    }
    return if k < |src| then Some(k) else None;
  }

  /** `j` is where the string opened at `i` ends, or a place behind the sheet; None if it is refused. */
  predicate StringSkipped(src: string, i: nat, j: Option<nat>) {
    && i < |src|
    && var e := StringEnd(src[i + 1..], src[i]);
       && (j.Some? <==> e.Some?)
       && (j.Some? ==> i < j.value
                       && (if j.value + 1 <= |src| then j.value + 1 else |src|) == i + 1 + e.value)
  }

  /** The string loop; `j` may end up past the end when the last character is a backslash. */
  method SkipString(src: string, i: nat) returns (j: Option<nat>)
    requires i < |src|
    ensures StringSkipped(src, i, j)
  {
    var k, quote := i + 1, src[i];
    while k < |src| && src[k] != quote
      invariant i < k <= |src| + 1
      invariant var here := if k <= |src| then k else |src|;
                var whole, left := StringEnd(src[i + 1..], quote), StringEnd(src[here..], quote);
                (whole.Some? <==> left.Some?) && (whole.Some? ==> i + 1 + whole.value == here + left.value)
    {
      assert src[k..][1..] == src[k + 1..];
      if k + 2 <= |src| {
        assert src[k..][2..] == src[k + 2..];
      }
      if src[k] == '\\' {
        k := k + 1;
      } else if src[k] == '\n' {
        return None;
      }
      k := k + 1;
    }
    return Some(k);
  }

  method CountNewlines(src: string, i: nat, end: nat) returns (n: nat)
    requires i <= end <= |src|
    ensures n == Newlines(src[i..end])
  {
    n := 0;
    for j := i to end
      invariant n == Newlines(src[i..j])
    {
      assert src[i..j + 1][..j - i] == src[i..j];
      if src[j] == '\n' {
        n := n + 1;
      }
    }
  }

  /** The definition of `Judge`, unfolded once. */
  lemma JudgeOnce(s: string, line: nat, stack: seq<Open>)
    requires s != ""
    ensures Judge(s, line, stack) ==
      if s[0] == '\n' then Judge(s[1..], line + 1, stack)
      else if OpensComment(s) then
        (match CommentEnd(s[2..])
         case None => UnterminatedComment(line)
         case Some(e) => Judge(s[2 + e + 2..], line + Newlines(s[..2 + e]), stack))
      else if IsQuote(s[0]) then
        (match StringEnd(s[1..], s[0])
         case None => BadString(s[0], line)
         case Some(e) => Judge(s[1 + e..], line, stack))
      else if IsOpener(s[0]) then Judge(s[1..], line, stack + [Open(s[0], line)])
      else if IsCloser(s[0]) then
        if stack == [] then Unbalanced(s[0], line, None)
        else if CloserOf(stack[|stack| - 1].ch) != s[0] then Unbalanced(s[0], line, Some(stack[|stack| - 1]))
        else Judge(s[1..], line, stack[..|stack| - 1])
      else Judge(s[1..], line, stack)
  {
  }

  lemma JudgeEnd(line: nat, stack: seq<Open>)
    ensures Judge("", line, stack) == if stack == [] then Clean else NeverClosed(stack[0])
  {
  }

  /** Slices of the rest of a sheet are slices of the sheet. */
  lemma Behind(src: string, i: nat, j: nat)
    requires i <= j <= |src|
    ensures src[i..][..j - i] == src[i..j] && src[i..][j - i..] == src[j..]
  {
  }

  /** What is left of the sheet from `i` on. */
  function From(src: string, i: nat): string {
    if i <= |src| then src[i..] else ""
  }

  lemma FromIs(src: string, i: nat)
    ensures From(src, i) == src[if i <= |src| then i else |src|..]
  {
  }

  lemma FromEnds(src: string, i: nat)
    ensures From(src, 0) == src && (i >= |src| ==> From(src, i) == "")
  {
  }

  lemma JudgeComment(src: string, i: nat, line: nat, stack: seq<Open>, end: Option<nat>)
    requires i + 1 < |src| && src[i] == '/' && src[i + 1] == '*'
    requires end == match CommentEnd(src[i + 2..]) case None => None case Some(n) => Some(i + 2 + n)
    ensures end.None? ==> Judge(From(src, i), line, stack) == UnterminatedComment(line)
    ensures end.Some? ==>
      && i < end.value && end.value + 2 <= |src|
      && Judge(From(src, i), line, stack) == Judge(From(src, end.value + 2), line + Newlines(src[i..end.value]), stack)
  {
    hide Judge, CommentEnd, Newlines;
    FromIs(src, i);
    JudgeOnce(src[i..], line, stack);
    Behind(src, i, i + 2);
    if end.Some? {
      Behind(src, i, end.value);
      Behind(src, i, end.value + 2);
    }
  }

  lemma JudgeString(src: string, i: nat, line: nat, stack: seq<Open>, j: Option<nat>)
    requires StringSkipped(src, i, j) && IsQuote(src[i])
    ensures j.None? ==> Judge(From(src, i), line, stack) == BadString(src[i], line)
    ensures j.Some? ==> i < j.value && Judge(From(src, i), line, stack) == Judge(From(src, j.value + 1), line, stack)
  {
    hide Judge, StringEnd;
    FromIs(src, i);
    JudgeOnce(src[i..], line, stack);
    Behind(src, i, i + 1);
    var e := StringEnd(src[i + 1..], src[i]);
    if e.Some? {
      Behind(src, i, i + 1 + e.value);
      FromIs(src, j.value + 1);
    }
  }

  /** A character that begins neither a comment nor a string. */
  predicate Ordinary(src: string, i: nat) {
    i < |src| && !(src[i] == '/' && i + 1 < |src| && src[i + 1] == '*') && !IsQuote(src[i])
  }

  lemma IsOrdinary(src: string, i: nat)
    requires i < |src| && !(src[i] == '/' && i + 1 < |src| && src[i + 1] == '*') && !IsQuote(src[i])
    ensures Ordinary(src, i) && !(IsOpener(src[i]) && IsCloser(src[i]))
  {
  }

  lemma JudgeNewline(src: string, i: nat, line: nat, stack: seq<Open>)
    requires i < |src| && src[i] == '\n'
    ensures Judge(From(src, i), line, stack) == Judge(From(src, i + 1), line + 1, stack)
  {
    hide Judge;
    FromIs(src, i);
    JudgeOnce(src[i..], line, stack);
    Behind(src, i, i + 1);
  }

  lemma JudgePlain(src: string, i: nat, line: nat, stack: seq<Open>)
    requires Ordinary(src, i) && src[i] != '\n' && !IsOpener(src[i]) && !IsCloser(src[i])
    ensures Judge(From(src, i), line, stack) == Judge(From(src, i + 1), line, stack)
  {
    hide Judge;
    FromIs(src, i);
    JudgeOnce(src[i..], line, stack);
    Behind(src, i, i + 1);
  }

  lemma JudgeOpener(src: string, i: nat, line: nat, stack: seq<Open>)
    requires Ordinary(src, i) && IsOpener(src[i])
    ensures Judge(From(src, i), line, stack) == Judge(From(src, i + 1), line, stack + [Open(src[i], line)])
  {
    hide Judge;
    FromIs(src, i);
    JudgeOnce(src[i..], line, stack);
    Behind(src, i, i + 1);
  }

  lemma JudgeCloser(src: string, i: nat, line: nat, stack: seq<Open>)
    requires Ordinary(src, i) && IsCloser(src[i])
    ensures Judge(From(src, i), line, stack) ==
      if stack == [] then Unbalanced(src[i], line, None)
      else if CloserOf(stack[|stack| - 1].ch) != src[i] then Unbalanced(src[i], line, Some(stack[|stack| - 1]))
      else Judge(From(src, i + 1), line, stack[..|stack| - 1])
  {
    hide Judge, CloserOf;
    FromIs(src, i);
    JudgeOnce(src[i..], line, stack);
    Behind(src, i, i + 1);
  }

  method Scan(src: string) returns (verdict: Verdict)
    ensures verdict == Judge(src, 1, [])
  {
    hide *;
    FromEnds(src, 0);
    ghost var whole := Judge(src, 1, []);
    var stack: seq<Open>, line, i := [], 1, 0;
    while i < |src|
      invariant whole == Judge(From(src, i), line, stack)
      decreases |src| - i
    {
      var ch := src[i];
      if ch == '\n' {
        JudgeNewline(src, i, line, stack);
        line := line + 1;
        assert whole == Judge(From(src, i + 1), line, stack);
      } else if ch == '/' && i + 1 < |src| && src[i + 1] == '*' {
        var end := IndexOfCommentEnd(src, i + 2);
        JudgeComment(src, i, line, stack, end);
        if end.None? {
          return UnterminatedComment(line);
        }
        var n := CountNewlines(src, i, end.value);
        line := line + n;
        i := end.value + 1;
        assert whole == Judge(From(src, i + 1), line, stack);
      } else if IsQuote(ch) {
        var j := SkipString(src, i);
        JudgeString(src, i, line, stack, j);
        if j.None? {
          return BadString(ch, line);
        }
        i := j.value;
        assert whole == Judge(From(src, i + 1), line, stack);
      } else if IsOpener(ch) {
        IsOrdinary(src, i);
        JudgeOpener(src, i, line, stack);
        stack := stack + [Open(ch, line)];
        assert whole == Judge(From(src, i + 1), line, stack);
      } else if IsCloser(ch) {
        IsOrdinary(src, i);
        JudgeCloser(src, i, line, stack);
        if stack == [] {
          return Unbalanced(ch, line, None);
        }
        var top := stack[|stack| - 1];
        stack := stack[..|stack| - 1];
        if CloserOf(top.ch) != ch {
          return Unbalanced(ch, line, Some(top));
        }
        assert whole == Judge(From(src, i + 1), line, stack);
      } else {
        IsOrdinary(src, i);
        JudgePlain(src, i, line, stack);
        assert whole == Judge(From(src, i + 1), line, stack);
      }
      i := i + 1;
    }
    FromEnds(src, i);
    JudgeEnd(line, stack);
    return if stack == [] then Clean else NeverClosed(stack[0]);
  }

  // ---------------------------------------------------------------------
  // What it accepts
  // ---------------------------------------------------------------------

  /** The brackets outside comments and strings; None if a comment or a string is malformed. */
  function Brackets(s: string): Option<string>
    decreases |s|
  {
    if s == "" then Some("")
    else if |s| >= 2 && s[0] == '/' && s[1] == '*' then
      match CommentEnd(s[2..]) case None => None case Some(e) => Brackets(s[2 + e + 2..])
    else if s[0] == '"' || s[0] == '\'' then
      match StringEnd(s[1..], s[0]) case None => None case Some(e) => Brackets(s[1 + e..])
    else
      match Brackets(s[1..])
      case None => None
      case Some(w) => Some((if s[0] in "{}()[]" then [s[0]] else []) + w)
  }

  /** A derivation in the balanced grammar: empty, or a bracketed derivation followed by another. */
  datatype Balanced =
    | Empty
    | Curly(inside: Balanced, after: Balanced)
    | Round(inside: Balanced, after: Balanced)
    | Square(inside: Balanced, after: Balanced)

  /** The word a derivation stands for: each of the three productions writes its own two brackets. */
  function Word(d: Balanced): string {
    match d
    case Empty => ""
    case Curly(inside, after) => "{" + (Word(inside) + ("}" + Word(after)))
    case Round(inside, after) => "(" + (Word(inside) + (")" + Word(after)))
    case Square(inside, after) => "[" + (Word(inside) + ("]" + Word(after)))
  }

  ghost predicate IsBalanced(w: string) {
    exists d :: Word(d) == w
  }

  /** The derivation whose first bracket is `open`. */
  function Bracketed(open: char, inside: Balanced, after: Balanced): (d: Balanced)
    requires IsOpener(open)
    ensures Word(d) == [open] + (Word(inside) + ([CloserOf(open)] + Word(after)))
  {
    if open == '{' then Curly(inside, after) else if open == '(' then Round(inside, after) else Square(inside, after)
  }

  /** The stack of open brackets after `w`, outermost first; None once a bracket does not match. */
  function Match(stack: string, w: string): Option<string>
    decreases |w|
  {
    if w == "" then Some(stack)
    else if IsOpener(w[0]) then Match(stack + [w[0]], w[1..])
    else if stack == "" || CloserOf(stack[|stack| - 1]) != w[0] then None
    else Match(stack[..|stack| - 1], w[1..])
  }

  lemma WordParts(d: Balanced)
    requires d != Empty
    ensures Word(d) != "" && IsOpener(Word(d)[0])
    ensures Word(d) == [Word(d)[0]] + (Word(d.inside) + ([CloserOf(Word(d)[0])] + Word(d.after)))
  {
  }

  /** Completeness: a balanced word leaves the stack as it was. */
  lemma {:induction false} BalancedMatches(d: Balanced, stack: string, rest: string)
    ensures Match(stack, Word(d) + rest) == Match(stack, rest)
  {
    if d == Empty {
      assert Word(d) + rest == rest;
    } else {
      WordParts(d);
      hide Word, Match, CloserOf;
      var open, close := Word(d)[0], CloserOf(Word(d)[0]);
      var inner := Word(d.after) + rest;
      assert Word(d) + rest == [open] + (Word(d.inside) + ([close] + inner));
      MatchOpener(stack, open, Word(d.inside) + ([close] + inner));
      BalancedMatches(d.inside, stack + [open], [close] + inner);
      MatchCloser(stack, open, inner);
      BalancedMatches(d.after, stack, rest);
    }
  }

  lemma MatchOpener(stack: string, open: char, w: string)
    requires IsOpener(open)
    ensures Match(stack, [open] + w) == Match(stack + [open], w)
  {
    assert ([open] + w)[1..] == w;
  }

  lemma MatchCloser(stack: string, open: char, w: string)
    requires IsOpener(open)
    ensures Match(stack + [open], [CloserOf(open)] + w) == Match(stack, w)
  {
    assert ([CloserOf(open)] + w)[1..] == w && (stack + [open])[..|stack|] == stack;
  }

  /** Words that close `stack` from the top down, with balanced words in between. */
  function Closing(stack: string, ds: seq<Balanced>): string
    requires |ds| == |stack| + 1
  {
    if stack == "" then Word(ds[0])
    else Word(ds[0]) + ([CloserOf(stack[|stack| - 1])] + Closing(stack[..|stack| - 1], ds[1..]))
  }

  /** Soundness: a word that empties the stack decomposes into balanced words and the closers due. */
  lemma {:induction false} MatchDecomposes(stack: string, w: string) returns (ds: seq<Balanced>)
    requires Match(stack, w) == Some("")
    requires forall i :: 0 <= i < |w| ==> IsOpener(w[i]) || IsCloser(w[i])
    ensures |ds| == |stack| + 1 && w == Closing(stack, ds)
    decreases |w|
  {
    if w == "" {
      return [Empty];
    }
    if IsOpener(w[0]) {
      var es := MatchDecomposes(stack + [w[0]], w[1..]);
      ds := [Bracketed(w[0], es[0], es[1])] + es[2..];
      assert (stack + [w[0]])[..|stack|] == stack;
      assert w == [w[0]] + w[1..];
      OpenedClosing(stack, w[0], es);
    } else {
      var es := MatchDecomposes(stack[..|stack| - 1], w[1..]);
      ds := [Empty] + es;
      assert w == "" + ([w[0]] + w[1..]);
      assert ds[1..] == es;
    }
  }

  lemma OpenedClosing(stack: string, open: char, es: seq<Balanced>)
    requires |es| == |stack| + 2 && IsOpener(open)
    ensures [open] + Closing(stack + [open], es) == Closing(stack, [Bracketed(open, es[0], es[1])] + es[2..])
  {
    var d := Bracketed(open, es[0], es[1]);
    var close := [CloserOf(open)];
    ClosingHead(stack + [open], es);
    assert (stack + [open])[..|stack|] == stack;
    assert Word(d) == [open] + (Word(es[0]) + (close + Word(es[1])));
    hide Word, Closing, CloserOf;
    ClosingHead(stack, es[1..]);
    ClosingHead(stack, [d] + es[2..]);
    assert es[1..][1..] == es[2..] && ([d] + es[2..])[1..] == es[2..];
    Regroup([open], Word(es[0]), close, Word(es[1]), ClosingRest(stack, es[2..]));
  }

  /** `Closing` behind its first balanced word. */
  function ClosingRest(stack: string, ds: seq<Balanced>): string
    requires |ds| == |stack|
  {
    if stack == "" then "" else [CloserOf(stack[|stack| - 1])] + Closing(stack[..|stack| - 1], ds)
  }

  lemma ClosingHead(stack: string, ds: seq<Balanced>)
    requires |ds| == |stack| + 1
    ensures Closing(stack, ds) == Word(ds[0]) + ClosingRest(stack, ds[1..])
  {
    if stack == "" {
      assert Word(ds[0]) + "" == Word(ds[0]);
    }
  }

  lemma Regroup(a: string, b: string, c: string, d: string, e: string)
    ensures a + (b + (c + (d + e))) == (a + (b + (c + d))) + e
  {
  }

  lemma MatchIffBalanced(w: string)
    requires forall i :: 0 <= i < |w| ==> IsOpener(w[i]) || IsCloser(w[i])
    ensures Match("", w) == Some("") <==> IsBalanced(w)
  {
    if Match("", w) == Some("") {
      var ds := MatchDecomposes("", w);
      assert Word(ds[0]) == w;
    }
    if IsBalanced(w) {
      var d :| Word(d) == w;
      BalancedMatches(d, "", "");
      assert w + "" == w;
    }
  }

  function Chars(stack: seq<Open>): string {
    seq(|stack|, i requires 0 <= i < |stack| => stack[i].ch)
  }

  /** The brackets still open after `s`; None if it is malformed or a bracket does not match. */
  function Left(stack: string, s: string): Option<string> {
    match Brackets(s) case None => None case Some(w) => Match(stack, w)
  }

  /** The verdict says what is left open: nothing, or first of all the bracket it names. */
  predicate Agrees(v: Verdict, left: Option<string>) {
    && (v == Clean <==> left == Some(""))
    && (v.NeverClosed? ==> left.Some? && left.value != "" && left.value[0] == v.first.ch)
  }

  /** The pass accepts from any point exactly when what it has open is closed by the rest. */
  lemma {:induction false} JudgeIsMatch(s: string, line: nat, stack: seq<Open>)
    ensures Agrees(Judge(s, line, stack), Left(Chars(stack), s))
    decreases |s|
  {
    hide Judge, CommentEnd, StringEnd, Newlines, Left, Chars;
    if s == "" {
      JudgeEnd(line, stack);
      LeftOfNothing(stack);
    } else {
      JudgeOnce(s, line, stack);
      LeftOnce(Chars(stack), s);
      if s[0] == '\n' {
        JudgeIsMatch(s[1..], line + 1, stack);
      } else if OpensComment(s) {
        var e := CommentEnd(s[2..]);
        if e.Some? {
          JudgeIsMatch(s[2 + e.value + 2..], line + Newlines(s[..2 + e.value]), stack);
        }
      } else if IsQuote(s[0]) {
        var e := StringEnd(s[1..], s[0]);
        if e.Some? {
          JudgeIsMatch(s[1 + e.value..], line, stack);
        }
      } else if IsOpener(s[0]) {
        CharsPushed(stack, Open(s[0], line));
        JudgeIsMatch(s[1..], line, stack + [Open(s[0], line)]);
      } else if IsCloser(s[0]) {
        if stack == [] {
          CharsOfNone();
        } else {
          CharsPopped(stack);
          JudgeIsMatch(s[1..], line, stack[..|stack| - 1]);
        }
      } else {
        JudgeIsMatch(s[1..], line, stack);
      }
    }
  }

  lemma CharsOfNone()
    ensures Chars([]) == ""
  {
  }

  lemma CharsPushed(stack: seq<Open>, o: Open)
    ensures Chars(stack + [o]) == Chars(stack) + [o.ch]
  {
  }

  lemma CharsPopped(stack: seq<Open>)
    requires stack != []
    ensures var n := |stack| - 1;
            Chars(stack) != "" && Chars(stack)[|Chars(stack)| - 1] == stack[n].ch
            && Chars(stack[..n]) == Chars(stack)[..|Chars(stack)| - 1]
  {
  }

  lemma LeftOfNothing(stack: seq<Open>)
    ensures var left := Left(Chars(stack), "");
            left == Some(Chars(stack)) && (stack == [] <==> left == Some(""))
    ensures stack != [] ==> Chars(stack) != "" && Chars(stack)[0] == stack[0].ch
  {
    assert |Chars(stack)| == |stack|;
  }

  /** What one character, comment or string does to what is left open. */
  lemma LeftOnce(stack: string, s: string)
    requires s != ""
    ensures Left(stack, s) ==
      if OpensComment(s) then
        (match CommentEnd(s[2..]) case None => None case Some(e) => Left(stack, s[2 + e + 2..]))
      else if IsQuote(s[0]) then
        (match StringEnd(s[1..], s[0]) case None => None case Some(e) => Left(stack, s[1 + e..]))
      else if IsOpener(s[0]) then Left(stack + [s[0]], s[1..])
      else if IsCloser(s[0]) then
        if stack == "" || CloserOf(stack[|stack| - 1]) != s[0] then None else Left(stack[..|stack| - 1], s[1..])
      else Left(stack, s[1..])
  {
    hide CommentEnd, StringEnd;
    if !OpensComment(s) && !IsQuote(s[0]) {
      if IsOpener(s[0]) || IsCloser(s[0]) {
        OneBracket(s);
        hide Brackets;
      } else {
        NoBracket(s);
      }
    }
  }

  lemma NoBracket(s: string)
    requires s != "" && !OpensComment(s) && !IsQuote(s[0]) && !IsOpener(s[0]) && !IsCloser(s[0])
    ensures Brackets(s) == Brackets(s[1..])
  {
    if Brackets(s[1..]).Some? {
      assert [] + Brackets(s[1..]).value == Brackets(s[1..]).value;
    }
  }

  lemma OneBracket(s: string)
    requires s != "" && (IsOpener(s[0]) || IsCloser(s[0]))
    ensures Brackets(s).Some? <==> Brackets(s[1..]).Some?
    ensures Brackets(s).Some? ==> Brackets(s).value != "" && Brackets(s).value[0] == s[0]
                                  && Brackets(s).value[1..] == Brackets(s[1..]).value
  {
  }

  lemma {:induction false} BracketsOnly(s: string)
    requires Brackets(s).Some?
    ensures forall i :: 0 <= i < |Brackets(s).value| ==> IsOpener(Brackets(s).value[i]) || IsCloser(Brackets(s).value[i])
    decreases |s|
  {
    if s == "" {
    } else if OpensComment(s) {
      BracketsOnly(s[2 + CommentEnd(s[2..]).value + 2..]);
    } else if IsQuote(s[0]) {
      BracketsOnly(s[1 + StringEnd(s[1..], s[0]).value..]);
    } else {
      BracketsOnly(s[1..]);
    }
  }

  /**
   A sheet is accepted if and only if its comments and strings are well formed and its remaining
   brackets are balanced.
   */
  lemma AcceptsIffBalanced(src: string)
    ensures Judge(src, 1, []) == Clean <==> Brackets(src).Some? && IsBalanced(Brackets(src).value)
  {
    hide Judge, Brackets, Match, IsBalanced;
    JudgeIsMatch(src, 1, []);
    CharsOfNone();
    if Brackets(src).Some? {
      BracketsOnly(src);
      MatchIffBalanced(Brackets(src).value);
    }
  }

  // ---------------------------------------------------------------------
  // Where comments and strings end, and the lines that are reported
  // ---------------------------------------------------------------------

  /** A comment ends at the first terminator, and nowhere if there is none. */
  lemma {:induction false} CommentEndIsFirst(s: string, e: nat)
    ensures CommentEnd(s) == Some(e)
       <==> e + 2 <= |s| && s[e] == '*' && s[e + 1] == '/' && forall k :: 0 <= k < e ==> !(s[k] == '*' && s[k + 1] == '/')
  {
    if s != "" && e > 0 {
      CommentEndIsFirst(s[1..], e - 1);
      if CommentEnd(s) == Some(e) {
        forall k | 0 <= k < e ensures !(s[k] == '*' && s[k + 1] == '/') {
          if k > 0 {
            assert s[1..][k - 1] == s[k] && s[1..][k] == s[k + 1];
          }
        }
      } else if e + 2 <= |s| && forall k :: 0 <= k < e ==> !(s[k] == '*' && s[k + 1] == '/') {
        assert s[1..][e - 1] == s[e] && s[1..][e] == s[e + 1];
        forall k | 0 <= k < e - 1 ensures !(s[1..][k] == '*' && s[1..][k + 1] == '/') {
          assert !(s[k + 1] == '*' && s[k + 2] == '/');
        }
      }
    }
  }

  /** The inside of a string: backslash pairs, and characters that neither close it nor break the line. */
  predicate StringBody(b: string, quote: char) {
    || b == ""
    || (|b| >= 2 && b[0] == '\\' && StringBody(b[2..], quote))
    || (b[0] != quote && b[0] != '\\' && b[0] != '\n' && StringBody(b[1..], quote))
  }

  /** What follows the opening quote is a body and its closing quote, or runs off the end of the sheet. */
  predicate StringTakes(s: string, quote: char, e: nat) {
    && e <= |s|
    && (|| (e > 0 && StringBody(s[..e - 1], quote) && s[e - 1] == quote)
        || (e == |s| && StringBody(s, quote))
        || (0 < e == |s| && StringBody(s[..e - 1], quote) && s[e - 1] == '\\'))
  }

  lemma {:induction false} StringEndIs(s: string, quote: char, e: nat)
    requires quote == '"' || quote == '\''
    ensures StringEnd(s, quote) == Some(e) <==> StringTakes(s, quote, e)
    decreases |s|
  {
    if s == "" || s[0] == quote || s[0] == '\n' {
      if 0 < e <= |s| {
        assert e > 1 ==> s[..e - 1][0] == s[0];
      }
    } else if s[0] == '\\' {
      if 2 <= e <= |s| {
        StringEndIs(s[2..], quote, e - 2);
        if e > 2 {
          assert s[..e - 1][2..] == s[2..][..e - 3] && s[..e - 1][0] == s[0];
        }
      }
    } else if 1 <= e <= |s| {
      StringEndIs(s[1..], quote, e - 1);
      if e > 1 {
        assert s[..e - 1][1..] == s[1..][..e - 2] && s[..e - 1][0] == s[0];
      }
    }
  }

  /** A body followed by a raw newline. */
  predicate BreaksAt(s: string, quote: char, n: nat) {
    n < |s| && s[n] == '\n' && StringBody(s[..n], quote)
  }

  /** A string is refused exactly when a body is followed by a raw newline. */
  lemma {:induction false} StringRefusedIff(s: string, quote: char)
    requires quote == '"' || quote == '\''
    ensures StringEnd(s, quote) == None <==> exists n: nat :: BreaksAt(s, quote, n)
    decreases |s|
  {
    if s == "" || s[0] == quote || s[0] == '\n' || s == "\\" {
      NoBodyBehind(s, quote);
    } else {
      var skip := if s[0] == '\\' then 2 else 1;
      StringRefusedIff(s[skip..], quote);
      StringEndTail(s, quote);
      hide StringEnd, BreaksAt;
      if n: nat :| BreaksAt(s, quote, n) {
        BreaksShift(s, quote, n);
        assert BreaksAt(s[skip..], quote, n - skip);
      }
      if n: nat :| BreaksAt(s[skip..], quote, n) {
        BreaksShift(s, quote, n + skip);
      }
    }
  }

  lemma StringEndTail(s: string, quote: char)
    requires s != "" && s != "\\" && s[0] != quote && s[0] != '\n'
    ensures StringEnd(s, quote) == None <==> StringEnd(s[if s[0] == '\\' then 2 else 1..], quote) == None
  {
  }

  /** No break lies behind a quote, a newline or a last backslash; one is at a newline itself. */
  lemma NoBodyBehind(s: string, quote: char)
    requires s == "" || s[0] == quote || s[0] == '\n' || s == "\\"
    requires quote == '"' || quote == '\''
    ensures StringEnd(s, quote) == None <==> exists n: nat :: BreaksAt(s, quote, n)
  {
    forall n: nat ensures BreaksAt(s, quote, n) <==> n == 0 && s != "" && s[0] == '\n' {
      if 0 < n < |s| {
        assert s[..n][0] == s[0];
      }
    }
    assert BreaksAt(s, quote, 0) <==> s != "" && s[0] == '\n';
  }

  lemma {:induction false} BreaksShift(s: string, quote: char, n: nat)
    requires s != "" && s[0] != quote && s[0] != '\n' && (quote == '"' || quote == '\'')
    ensures var skip := if s[0] == '\\' then 2 else 1;
            BreaksAt(s, quote, n) <==> n >= skip && skip <= |s| && BreaksAt(s[skip..], quote, n - skip)
  {
    var skip := if s[0] == '\\' then 2 else 1;
    if 0 < n < |s| {
      assert s[..n][0] == s[0];
      if n >= skip {
        assert s[..n][skip..] == s[skip..][..n - skip] && s[skip..][n - skip] == s[n];
      }
    }
  }

  lemma {:induction false} NewlinesSplit(s: string, i: nat, j: nat)
    requires i <= j <= |s|
    ensures Newlines(s[..j]) == Newlines(s[..i]) + Newlines(s[i..j])
    decreases j
  {
    if i < j {
      NewlinesSplit(s, i, j - 1);
      assert s[..j][..j - 1] == s[..j - 1] && s[i..j][..j - 1 - i] == s[i..j - 1];
    }
  }

  /** Nowhere is a newline escaped by a backslash. */
  predicate NoEscapedNewline(s: string) {
    forall k :: 0 < k < |s| && s[k] == '\n' ==> s[k - 1] != '\\'
  }

  lemma EscapedSuffix(s: string, i: nat)
    requires NoEscapedNewline(s) && i <= |s|
    ensures NoEscapedNewline(s[i..])
  {
    var t := s[i..];
    forall k | 0 < k < |t| && t[k] == '\n' ensures t[k - 1] != '\\' {
      assert t[k] == s[i + k] && t[k - 1] == s[i + k - 1];
    }
  }

  lemma {:induction false} NoNewlines(s: string)
    requires '\n' !in s
    ensures Newlines(s) == 0
  {
    if s != "" {
      NoNewlines(s[..|s| - 1]);
    }
  }

  lemma {:induction false} StringStaysOnLine(s: string, quote: char)
    requires (quote == '"' || quote == '\'') && NoEscapedNewline(s) && StringEnd(s, quote).Some?
    ensures Newlines(s[..StringEnd(s, quote).value]) == 0
    decreases |s|
  {
    var e := StringEnd(s, quote).value;
    if s == "" || s[0] == quote || e == 1 {
      assert e == 0 || s[..e] == [s[0]];
    } else {
      var skip := if s[0] == '\\' then 2 else 1;
      var t := s[skip..];
      EscapedSuffix(s, skip);
      StringStaysOnLine(t, quote);
      NewlinesSplit(s, skip, e);
      assert s[skip..e] == t[..e - skip];
      NoNewlines(s[..skip]);
    }
  }

  /** `c` stands at `j`, and `line` is the line that `j` is on. */
  predicate OnLine(src: string, j: nat, c: char, line: nat) {
    j < |src| && src[j] == c && line == 1 + Newlines(src[..j])
  }

  ghost predicate Opened(src: string, o: Open) {
    o.ch in "{([" && exists j: nat :: OnLine(src, j, o.ch, o.line)
  }

  /** The report names a place of the sheet that has the character and is on the line. */
  ghost predicate Located(src: string, v: Verdict) {
    match v
    case Clean => true
    case UnterminatedComment(line) => exists j: nat :: OnLine(src, j, '/', line) && j + 1 < |src| && src[j + 1] == '*'
    case BadString(quote, line) => quote in "\"'" && exists j: nat :: OnLine(src, j, quote, line)
    case Unbalanced(close, line, against) =>
      && close in "})]" && (exists j: nat :: OnLine(src, j, close, line))
      && (against.Some? ==> Opened(src, against.value) && [against.value.ch, close] !in ["{}", "()", "[]"])
    case NeverClosed(first) => Opened(src, first)
  }

  lemma {:induction false} ReportIsLocated(src: string, i: nat, line: nat, stack: seq<Open>)
    requires i <= |src| && line == 1 + Newlines(src[..i]) && NoEscapedNewline(src)
    requires forall o :: o in stack ==> Opened(src, o)
    ensures Located(src, Judge(src[i..], line, stack))
    decreases |src| - i
  {
    hide Judge, CommentEnd, StringEnd, Newlines, StringBody;
    var s := src[i..];
    if s == "" {
      JudgeEnd(line, stack);
      assert stack != [] ==> stack[0] in stack;
    } else {
      JudgeOnce(s, line, stack);
      var next := i + 1;
      assert s[1..] == src[i + 1..];
      NextLine(src, i);
      assert OnLine(src, i, s[0], line);
      if OpensComment(s) {
        var e := CommentEnd(s[2..]);
        assert src[i + 1] == '*';
        if e.Some? {
          next := i + 2 + e.value + 2;
          CommentEndIsFirst(s[2..], e.value);
          assert src[i + 2 + e.value..][0] == s[2..][e.value] && src[i + 2 + e.value..][1] == s[2..][e.value + 1];
          CommentLines(src, i, e.value);
          ReportIsLocated(src, next, line + Newlines(s[..2 + e.value]), stack);
          assert s[2 + e.value + 2..] == src[next..];
        }
      } else if IsQuote(s[0]) {
        var e := StringEnd(s[1..], s[0]);
        if e.Some? {
          next := i + 1 + e.value;
          EscapedSuffix(src, i + 1);
          StringStaysOnLine(src[i + 1..], s[0]);
          NewlinesSplit(src, i + 1, next);
          assert src[i + 1..next] == src[i + 1..][..e.value];
          ReportIsLocated(src, next, line, stack);
          assert s[1 + e.value..] == src[next..];
        }
      } else if IsOpener(s[0]) {
        assert Opened(src, Open(s[0], line));
        ReportIsLocated(src, next, line, stack + [Open(s[0], line)]);
      } else if IsCloser(s[0]) {
        if stack != [] {
          assert stack[|stack| - 1] in stack;
          ReportIsLocated(src, next, line, stack[..|stack| - 1]);
        }
      } else {
        ReportIsLocated(src, next, if s[0] == '\n' then line + 1 else line, stack);
      }
    }
  }

  lemma NextLine(src: string, i: nat)
    requires i < |src|
    ensures Newlines(src[..i + 1]) == Newlines(src[..i]) + if src[i] == '\n' then 1 else 0
  {
    assert src[..i + 1][..i] == src[..i];
  }

  lemma CommentLines(src: string, i: nat, e: nat)
    requires i + 2 + e + 2 <= |src| && ClosesComment(src[i + 2 + e..])
    ensures Newlines(src[..i + 2 + e + 2]) == Newlines(src[..i]) + Newlines(src[i..][..2 + e])
  {
    var end := i + 2 + e;
    NewlinesSplit(src, i, end);
    assert src[i..end] == src[i..][..2 + e];
    NextLine(src, end);
    NextLine(src, end + 1);
  }

  /**
   On a sheet without escaped newlines every report names a character of the sheet and the line it is on;
   the bracket a closer fails against is an opened one of another kind.
   */
  lemma VerdictIsLocated(src: string)
    requires NoEscapedNewline(src)
    ensures Located(src, Judge(src, 1, []))
  {
    assert src[0..] == src;
    ReportIsLocated(src, 0, 1, []);
  }

  /** The lines of strings are not counted: after a string with an escaped newline the reported line is too low. */
  lemma EscapedNewlineShiftsReports()
    ensures Judge("'\\\n'\n}", 1, []) == Unbalanced('}', 2, None)
    ensures OnLine("'\\\n'\n}", 5, '}', 3)
  {
    var s := "'\\\n'\n}";
    assert s[1..] == "\\\n'\n}" && s[1..][2..] == "'\n}" && s[4..] == "\n}" && s[4..][1..] == "}";
    assert StringEnd(s[1..][2..], '\'') == Some(1);
    assert StringEnd(s[1..], '\'') == Some(3);
    NextLine(s, 0);
    NextLine(s, 1);
    NextLine(s, 2);
    NextLine(s, 3);
    NextLine(s, 4);
  }
}
