/**
 What an interview leaves in the transcript: the batch as it was shown, the answers against it, and
 what a round adds when nothing is pending. The planner reads the operator's decisions from here.
 */
module InterviewTranscript {
  import opened Prelude
  import opened Text
  import opened Interview

  // ---------------------------------------------------------------------
  // Lists as text
  // ---------------------------------------------------------------------

  /** A list is written part by part, with the separator in front of every part but the first. */
  lemma {:induction false} JoinWithSnoc(sep: string, parts: seq<string>, x: string)
    ensures JoinWith(sep, parts + [x]) == if parts == [] then x else JoinWith(sep, parts) + sep + x
    ensures JoinWith(sep, []) == ""
  {
    if parts == [] {
      assert parts + [x] == [x];
    } else {
      var all := parts + [x];
      assert all[0] == parts[0] && all[1..] == parts[1..] + [x];
      JoinWithSnoc(sep, parts[1..], x);
      if |parts| > 1 {
        Regroup(parts[0], sep, JoinWith(sep, parts[1..]), sep, x);
      }
    }
  }

  lemma Regroup(a: string, b: string, c: string, d: string, e: string)
    ensures a + b + (c + d + e) == a + b + c + d + e
  {
  }

  lemma JoinWithNonempty(sep: string, parts: seq<string>)
    requires parts != [] && parts[0] != ""
    ensures JoinWith(sep, parts) != ""
  {
  }

  // ---------------------------------------------------------------------
  // An exchange
  // ---------------------------------------------------------------------

  /** The text lists the questions of the batch, a line each. */
  ghost predicate Asks(text: string, batch: Batch) {
    exists lines: seq<string> :: |lines| == |batch| && text == JoinWith("\n", lines)
      && forall i :: 0 <= i < |batch| ==> lines[i] == "- " + batch[i].header + ": " + batch[i].question
  }

  /** The header of the question with this id, the last one if ids repeat; the id if there is no such question. */
  ghost predicate Titles(title: string, batch: Batch, id: string) {
    || (exists k :: 0 <= k < |batch| && batch[k].id == id && batch[k].header == title
          && forall j :: k < j < |batch| ==> batch[j].id != id)
    || (title == id && forall k :: 0 <= k < |batch| ==> batch[k].id != id)
  }

  /** The labels the operator picked, else what was typed, else a note that nothing was. */
  predicate Says(text: string, a: Answer) {
    var picked := JoinWith(", ", a.labels);
    && (picked != "" ==> text == picked)
    && (picked == "" && a.freeText != "" ==> text == a.freeText)
    && (picked == "" && a.freeText == "" ==> text == "(no answer)")
  }

  ghost predicate RepliesTo(line: string, batch: Batch, a: Answer) {
    exists title, said :: Titles(title, batch, a.id) && Says(said, a) && line == title + ": " + said
  }

  /** The text holds the answers in order, each under the title of the question it answers. */
  ghost predicate Replies(text: string, batch: Batch, answers: seq<Answer>) {
    if answers == [] then text == "(the operator gave no answer)"
    else exists lines: seq<string> :: text == JoinWith("; ", lines) && EachReplies(lines, batch, answers)
  }

  ghost predicate EachReplies(lines: seq<string>, batch: Batch, answers: seq<Answer>) {
    |lines| == |answers| && forall i :: 0 <= i < |answers| ==> RepliesTo(lines[i], batch, answers[i])
  }

  lemma RenderedAsks(batch: Batch)
    ensures Asks(Rendered(batch), batch)
  {
    var lines := seq(|batch|, i requires 0 <= i < |batch| => "- " + batch[i].header + ": " + batch[i].question);
    assert Rendered(batch) == JoinWith("\n", lines);
  }

  lemma {:induction false} HeaderTitles(batch: Batch, id: string)
    ensures Titles(HeaderOf(batch, id), batch, id)
  {
    if batch != [] {
      var n := |batch| - 1;
      if batch[n].id != id {
        HeaderTitles(batch[..n], id);
        assert forall k :: 0 <= k < n ==> batch[..n][k] == batch[k];
      }
    }
  }

  lemma FoldedReplies(batch: Batch, answers: seq<Answer>)
    ensures Replies(Folded(batch, answers), batch, answers)
  {
    var lines := seq(|answers|, i requires 0 <= i < |answers| =>
      HeaderOf(batch, answers[i].id) + ": " + AnswerText(answers[i]));
    if answers == [] {
      assert lines == [] && JoinWith("; ", lines) == "";
    } else {
      forall i | 0 <= i < |answers| ensures RepliesTo(lines[i], batch, answers[i]) {
        HeaderTitles(batch, answers[i].id);
        assert Says(AnswerText(answers[i]), answers[i]);
      }
      JoinWithNonempty("; ", lines);
      assert EachReplies(lines, batch, answers);
    }
  }

  /**
   Over a whole session: the answers to a batch put exactly two messages on record, what the batch just shown
   asked and the operator's answers under the headers of that batch, whatever the model would say now.
   */
  lemma {:induction false} ResumeRecordsTheExchange(
    g: Graph, es: seq<Event>, agrees: string -> bool, answers: seq<Answer>, gen: Generation)
    requires Starts(g) && Run(g, es, agrees).phase.Waiting?
    ensures var s := Run(g, es, agrees);
            var t := Next(s, Resume(answers, gen), agrees);
            && s.log != [] && s.log[|s.log| - 1] == Shown(s.phase.shown)
            && t.state.pending == [] && t.log == s.log + [Answered(s.phase.shown, answers)]
            && |t.state.messages| == |s.state.messages| + 2 && s.state.messages <= t.state.messages
            && var asked, said := t.state.messages[|s.state.messages|], t.state.messages[|s.state.messages| + 1];
               && asked.role == Assistant && Asks(asked.content, s.phase.shown)
               && said.role == User && Replies(said.content, s.phase.shown, answers)
  {
    StartKeeps(g);
    RunKeeps(g, es, agrees);
    hide Run, CoverageSettled, LogInOrder, Outstanding, Known, Asks, Replies, Rendered, Folded, HasPrior;
    var s := Run(g, es, agrees);
    RenderedAsks(s.state.pending);
    FoldedReplies(s.state.pending, answers);
    assert s.log + [Answered(s.state.pending, answers)] + [] == s.log + [Answered(s.state.pending, answers)];
  }

  // ---------------------------------------------------------------------
  // A round
  // ---------------------------------------------------------------------

  /** The first round of a turn that continues a dialogue. */
  ghost predicate Continues(s: State) {
    s.round == 0 && exists i :: 0 <= i < |s.messages| && s.messages[i].role == Assistant
  }

  /** A round is generated below three of them, unless the request just agrees with the dialogue. */
  ghost predicate Generates(s: State, agrees: string -> bool) {
    s.round < 3 && !(Continues(s) && agrees(s.userInput))
  }

  /**
   What entering the node with nothing pending does: the request goes on record exactly when it continues a
   dialogue, the notice exactly when generation failed; the interview is over without a batch and, with one,
   exactly when the axes on record are all settled.
   */
  lemma RoundOutcome(g: Graph, gen: Generation, agrees: string -> bool)
    requires g.phase == Ready && g.state.pending == []
    ensures var s, t := g.state, Next(g, Enter(gen), agrees);
            var made, failed := Generates(s, agrees), Generates(s, agrees) && gen.batch == None;
            && t.state.messages
                 == s.messages
                    + (if Continues(s) && s.userInput != "" then [Message(User, s.userInput)] else [])
                    + (if failed then [Message(Assistant, gen.notice)] else [])
            && t.state.round == s.round + (if made then 1 else 0)
            && t.generations == g.generations + (if made then 1 else 0)
            && t.state.axes == (if made && gen.axes != [] then gen.axes else s.axes)
            && t.state.pending == (if made && gen.batch.Some? then gen.batch.value else [])
            && (t.state.hitlPending <==> failed)
            && (t.state.understood <==> !made || gen.batch == Some([]))
            && (t.phase == End <==> failed)
            && (t.phase == Ready <==> t.state.pending != [] && !CoverageSettled(t.state.axes))
            && (t.phase == Synthesis <==> !failed && (t.state.pending == [] || CoverageSettled(t.state.axes)))
  {
    hide CoverageSettled;
  }

  // ---------------------------------------------------------------------
  // Settled axes
  // ---------------------------------------------------------------------

  /** `word` in any mixture of capitals; `word` itself is written without them. */
  predicate IsCased(text: string, word: string) {
    |text| == |word| && forall i :: 0 <= i < |text| ==>
      text[i] == word[i] || ('A' <= text[i] <= 'Z' && text[i] as int + 32 == word[i] as int)
  }

  /** One of the four words, in any case, between space. */
  ghost predicate SaysNothingIsOpen(axis: string) {
    exists a, text, b, word :: AllSpace(a) && AllSpace(b) && axis == a + text + b && IsCased(text, word)
      && word in ["none", "nothing", "n/a", "-"]
  }

  lemma CasedIffLower(text: string, word: string)
    requires forall i :: 0 <= i < |word| ==> !('A' <= word[i] <= 'Z')
    ensures IsCased(text, word) <==> Lower(text) == word
  {
    if IsCased(text, word) {
      assert forall i :: 0 <= i < |text| ==> LowerChar(text[i]) == word[i];
    }
    if Lower(text) == word {
      assert forall i :: 0 <= i < |text| ==> LowerChar(text[i]) == word[i];
    }
  }

  lemma CasedWord(text: string, word: string)
    requires word in ["none", "nothing", "n/a", "-"]
    ensures IsCased(text, word) <==> Lower(text) == word
    ensures IsCased(text, word) ==> text != "" && !IsSpace(text[0]) && !IsSpace(text[|text| - 1])
  {
    CasedIffLower(text, word);
  }

  /** The coverage stop: some axis is on record, and each of them says that nothing is open. */
  lemma CoverageSettledIff(axes: seq<string>)
    ensures CoverageSettled(axes) <==> axes != [] && forall i :: 0 <= i < |axes| ==> SaysNothingIsOpen(axes[i])
  {
    hide IsSettledAxis, SaysNothingIsOpen;
    forall i | 0 <= i < |axes| ensures IsSettledAxis(axes[i]) <==> SaysNothingIsOpen(axes[i]) {
      SettledIff(axes[i]);
    }
  }

  lemma SettledIff(axis: string)
    ensures IsSettledAxis(axis) <==> SaysNothingIsOpen(axis)
  {
    hide IsSpace, StripLeft, StripRight, Strip, Lower, IsCased, AllSpace;
    if IsSettledAxis(axis) {
      var a, b := StripParts(axis);
      CasedWord(Strip(axis), Lower(Strip(axis)));
    }
    if SaysNothingIsOpen(axis) {
      var a, text, b, word :| AllSpace(a) && AllSpace(b) && axis == a + text + b && IsCased(text, word)
        && word in ["none", "nothing", "n/a", "-"];
      CasedWord(text, word);
      StripExact(a, text, b);
    }
  }
}
