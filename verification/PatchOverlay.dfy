/**
 One coder step applied to an in-memory overlay, and the union reducer that carries its output
 to the next step, while proposals are approved, changed by the operator or declined in between.

 A step reads a file as its own last write, else the content earlier steps produced, else the
 workspace text, while every diff and base hash it emits is anchored to the workspace text.
 */
module PatchOverlay {
  import opened Prelude
  import opened Text
  import EditParser

  type Path = string
  type Edit = EditParser.Edit
  type Contents = map<Path, string>

  /** The workspace text the steps read: "" for a missing file. */
  type Disk = Path -> string

  const MIN_ANCHOR: nat := 10

  /** The text functions a step is given. */
  datatype World = World(
    patch: (Path, string, string, string) -> Option<string>,  // path, content, search, replace; None is a patch error
    diff: (string, string, Path) -> string,
    hash: string -> string)

  /** A unified diff is empty exactly when nothing changed. */
  ghost predicate DiffExact(w: World) {
    forall a, b, p :: w.diff(a, b, p) == "" <==> a == b
  }

  /** Empty or too short an anchor: the replacement is the whole new file. */
  predicate WholeFile(e: Edit) {
    |Strip(e.search)| < MIN_ANCHOR
  }

  /** The edit's effect on the content it reads; None if it fails. */
  function Effect(w: World, p: Path, content: string, e: Edit): Option<string> {
    if WholeFile(e) then Some(e.replace) else w.patch(p, content, e.search, e.replace)
  }

  /** One more edit: a failing one, or one to another path, leaves what was written before. */
  function WrittenNext(w: World, p: Path, base: string, before: Option<string>, e: Edit): Option<string> {
    if p == "" || Strip(e.path) != p then before
    else
      match Effect(w, p, if before.Some? then before.value else base, e)
      case Some(c) => Some(c)
      case None => before
  }

  /** The edits of one path in order, each applied to the result of the one before; None if none succeeds. */
  function Written(w: World, p: Path, base: string, edits: seq<Edit>): Option<string> {
    if edits == [] then None
    else WrittenNext(w, p, base, Written(w, p, base, edits[..|edits| - 1]), edits[|edits| - 1])
  }

  /** What a path reads as, given the content earlier steps produced. */
  function View(disk: Disk, pending: Contents, p: Path): string {
    if p in pending then pending[p] else disk(p)
  }

  datatype Output = Output(contents: Contents, patches: Contents, baseHash: Contents)

  /** What a step must emit: the paths whose final text differs from the workspace. */
  ghost predicate EmitsFor(w: World, disk: Disk, out: Output, p: Path, final: Option<string>) {
    if final.Some? && final.value != disk(p) then
      && p in out.contents && out.contents[p] == final.value
      && p in out.patches && out.patches[p] == w.diff(disk(p), final.value, p)
      && p in out.baseHash && out.baseHash[p] == w.hash(disk(p))
    else p !in out.contents && p !in out.patches && p !in out.baseHash
  }

  function Lookup(local: Contents, p: Path): Option<string> {
    if p in local then Some(local[p]) else None
  }

  lemma WrittenSnoc(w: World, p: Path, base: string, edits: seq<Edit>, i: nat)
    requires i < |edits|
    ensures Written(w, p, base, edits[..i + 1]) == WrittenNext(w, p, base, Written(w, p, base, edits[..i]), edits[i])
  {
    assert edits[..i + 1][..i] == edits[..i];
  }

  /** The loops of `run_coder_node` behind the model's answer. */
  method RunStep(w: World, disk: Disk, pending: Contents, edits: seq<Edit>) returns (out: Output)
    requires DiffExact(w)
    ensures forall p :: EmitsFor(w, disk, out, p, Written(w, p, View(disk, pending, p), edits))
    ensures out.contents == Emitted(w, State(disk, pending), edits)
    ensures out.patches.Keys == out.contents.Keys == out.baseHash.Keys
    ensures forall p :: p in out.contents ==>
              out.patches[p] == w.diff(disk(p), out.contents[p], p) && out.baseHash[p] == w.hash(disk(p))
  {
    hide EmitsFor, WrittenNext, View, Emitted;
    var local: Contents, originals: Contents := map[], map[];
    assert edits[..0] == [];
    for i := 0 to |edits|
      invariant forall p :: Lookup(local, p) == Written(w, p, View(disk, pending, p), edits[..i])
      invariant Anchored(disk, local, originals)
    {
      local, originals := ApplyEdit(w, disk, pending, local, originals, edits[i]);
      forall p
        ensures Lookup(local, p) == Written(w, p, View(disk, pending, p), edits[..i + 1])
      {
        WrittenSnoc(w, p, View(disk, pending, p), edits, i);
      }
    }
    assert edits[..|edits|] == edits;
    out := Emit(w, disk, local, originals);
    OutputIsEmitted(w, State(disk, pending), edits, out);
    AnchoredToWorkspace(w, disk, pending, edits, out);
  }

  /** Each emission carries its diff and base hash against the workspace text, whatever earlier steps produced. */
  lemma AnchoredToWorkspace(w: World, disk: Disk, pending: Contents, edits: seq<Edit>, out: Output)
    requires forall p :: EmitsFor(w, disk, out, p, Written(w, p, View(disk, pending, p), edits))
    ensures out.patches.Keys == out.contents.Keys == out.baseHash.Keys
    ensures forall p :: p in out.contents ==>
              out.patches[p] == w.diff(disk(p), out.contents[p], p) && out.baseHash[p] == w.hash(disk(p))
  {
    hide Written, View;
    forall p
      ensures p in out.contents <==> p in out.patches
      ensures p in out.contents <==> p in out.baseHash
      ensures p in out.contents ==>
                out.patches[p] == w.diff(disk(p), out.contents[p], p) && out.baseHash[p] == w.hash(disk(p))
    {
      assert EmitsFor(w, disk, out, p, Written(w, p, View(disk, pending, p), edits));
    }
  }

  /** Every written path has its workspace text on record, and nothing else is on record. */
  ghost predicate Anchored(disk: Disk, local: Contents, originals: Contents) {
    && (forall p :: p in local ==> p in originals)
    && (forall p :: p in originals ==> originals[p] == disk(p))
  }

  /** One edit: read through the overlay, then write if it succeeds. */
  method ApplyEdit(w: World, disk: Disk, pending: Contents, local: Contents, originals: Contents, e: Edit)
    returns (local': Contents, originals': Contents)
    requires Anchored(disk, local, originals)
    ensures Anchored(disk, local', originals')
    ensures forall p :: Lookup(local', p) == WrittenNext(w, p, View(disk, pending, p), Lookup(local, p), e)
  {
    hide Strip, WholeFile;
    local', originals' := local, originals;
    var fp := Strip(e.path);
    if fp == "" {
      return;
    }
    var content;
    if fp in local {
      content := local[fp];
    } else {
      var vfs := disk(fp);
      if fp !in originals {
        originals' := originals[fp := vfs];
      }
      content := if fp in pending then pending[fp] else vfs;
    }
    if WholeFile(e) {
      local' := local[fp := e.replace];
    } else {
      var patched := w.patch(fp, content, e.search, e.replace);
      if patched.Some? {
        local' := local[fp := patched.value];
      }
    }
  }

  method Emit(w: World, disk: Disk, local: Contents, originals: Contents) returns (out: Output)
    requires DiffExact(w)
    requires Anchored(disk, local, originals)
    ensures forall p :: EmitsFor(w, disk, out, p, Lookup(local, p))
  {
    out := Output(map[], map[], map[]);
    var rest := local.Keys;
    assert forall p :: Lookup(local - rest, p) == None;
    while rest != {}
      invariant rest <= local.Keys
      invariant forall p :: EmitsFor(w, disk, out, p, Lookup(local - rest, p))
      decreases rest
    {
      var p :| p in rest;
      ghost var done, before := local - rest, out;
      rest := rest - {p};
      var orig := if p in originals then originals[p] else "";
      var diff := w.diff(orig, local[p], p);
      if diff != "" {
        out := Output(out.contents[p := local[p]], out.patches[p := diff], out.baseHash[p := w.hash(orig)]);
      }
      forall q
        ensures EmitsFor(w, disk, out, q, Lookup(local - rest, q))
      {
        assert EmitsFor(w, disk, before, q, Lookup(done, q));
        assert Lookup(local - rest, q) == if q == p then Some(local[p]) else Lookup(done, q);
      }
    }
    assert local - rest == local;
  }

  // ---------------------------------------------------------------------
  // Steps, approvals and saves in sequence
  // ---------------------------------------------------------------------

  /** The workspace, and the content the steps of this run have produced so far. */
  datatype State = State(disk: Disk, pending: Contents)

  datatype Event =
    | Generate(edits: seq<Edit>)            // a coder step
    | Commit(path: Path, text: string)      // text reaches the workspace: a proposal, the operator's version, any save
    | Discard(path: Path)                   // a proposal is declined, vetoed or does not apply

  function PathsOf(edits: seq<Edit>): set<Path> {
    set i | 0 <= i < |edits| :: Strip(edits[i].path)
  }

  /** The text an edit list leaves a path with; None if it does not write it. */
  function Final(w: World, s: State, p: Path, edits: seq<Edit>): Option<string> {
    Written(w, p, View(s.disk, s.pending, p), edits)
  }

  /** The contents a step adds to the run. */
  function Emitted(w: World, s: State, edits: seq<Edit>): Contents {
    map p | p in PathsOf(edits) && Final(w, s, p, edits).Some? && Final(w, s, p, edits).value != s.disk(p)
      :: Final(w, s, p, edits).value
  }

  lemma {:induction false} WrittenIsNamed(w: World, p: Path, base: string, edits: seq<Edit>)
    requires Written(w, p, base, edits).Some?
    ensures p in PathsOf(edits)
  {
    hide Strip, Effect;
    var n := |edits| - 1;
    if Strip(edits[n].path) != p {
      WrittenIsNamed(w, p, base, edits[..n]);
      var i :| 0 <= i < n && Strip(edits[..n][i].path) == p;
      assert Strip(edits[i].path) == p;
    }
  }

  lemma EmittedFor(w: World, s: State, edits: seq<Edit>, p: Path)
    ensures var final := Final(w, s, p, edits);
            && (p in Emitted(w, s, edits) <==> final.Some? && final.value != s.disk(p))
            && (p in Emitted(w, s, edits) ==> Emitted(w, s, edits)[p] == final.value)
  {
    hide Written, View, PathsOf;
    if Final(w, s, p, edits).Some? {
      WrittenIsNamed(w, p, View(s.disk, s.pending, p), edits);
    }
  }

  lemma OutputIsEmitted(w: World, s: State, edits: seq<Edit>, out: Output)
    requires forall p :: EmitsFor(w, s.disk, out, p, Final(w, s, p, edits))
    ensures out.contents == Emitted(w, s, edits)
  {
    hide Final, Emitted;
    forall p
      ensures p in out.contents <==> p in Emitted(w, s, edits)
      ensures p in out.contents ==> out.contents[p] == Emitted(w, s, edits)[p]
    {
      EmittedFor(w, s, edits, p);
      assert EmitsFor(w, s.disk, out, p, Final(w, s, p, edits));
    }
  }

  // ---------------------------------------------------------------------
  // What a step makes of its edits
  // ---------------------------------------------------------------------

  /** `search` stands in the text between `pre` and `post`, and nowhere else. */
  ghost predicate OccursOnce(pre: string, search: string, post: string) {
    forall i: nat :: OccursAt(pre + search + post, search, i) ==> i == |pre|
  }

  predicate OccursAt(text: string, search: string, i: nat) {
    i + |search| <= |text| && text[i..i + |search|] == search
  }

  /** The patch function replaces the only occurrence of its search. */
  ghost predicate ReplacesSole(w: World) {
    forall p, pre, search, post, replace :: OccursOnce(pre, search, post) ==>
      w.patch(p, pre + search + post, search, replace) == Some(pre + replace + post)
  }

  /** The emission for a path that ends up as `text`: nothing if that is what the workspace has. */
  function EmittedAs(disk: Disk, p: Path, text: string): Contents {
    if text == disk(p) then map[] else map[p := text]
  }

  lemma EmittedOnly(w: World, s: State, edits: seq<Edit>, p: Path)
    requires forall i :: 0 <= i < |edits| ==> Strip(edits[i].path) == p
    ensures var final := Final(w, s, p, edits);
            Emitted(w, s, edits) == if final.Some? then EmittedAs(s.disk, p, final.value) else map[]
  {
    hide Strip, Final;
    var out, final := Emitted(w, s, edits), Final(w, s, p, edits);
    forall q | q in out ensures q == p {
      assert q in PathsOf(edits);
    }
    EmittedFor(w, s, edits, p);
    hide Emitted;
    var expected := if final.Some? then EmittedAs(s.disk, p, final.value) else map[];
    assert out.Keys == expected.Keys;
  }

  /**
   A step with one edit: an anchor of less than ten characters makes the replacement the whole file, any other
   is searched in the file's latest text, and without a path or a match nothing is emitted.
   */
  lemma OneEdit(w: World, s: State, e: Edit)
    ensures var p := Strip(e.path);
            var patched := w.patch(p, if p in s.pending then s.pending[p] else s.disk(p), e.search, e.replace);
            Emitted(w, s, [e]) ==
              if p == "" then map[]
              else if |Strip(e.search)| < 10 then EmittedAs(s.disk, p, e.replace)
              else if patched == None then map[]
              else EmittedAs(s.disk, p, patched.value)
  {
    var p := Strip(e.path);
    hide Strip, Emitted, EmittedAs;
    WrittenOne(w, p, View(s.disk, s.pending, p), e);
    EmittedOnly(w, s, [e], p);
  }

  /** An anchor that occurs once is replaced, and the text around it stays. */
  lemma AnchoredEdit(w: World, s: State, e: Edit, pre: string, post: string)
    requires ReplacesSole(w) && Strip(e.path) != "" && |Strip(e.search)| >= 10 && OccursOnce(pre, e.search, post)
    requires var p := Strip(e.path);
             (if p in s.pending then s.pending[p] else s.disk(p)) == pre + e.search + post
    ensures Emitted(w, s, [e]) == EmittedAs(s.disk, Strip(e.path), pre + e.replace + post)
  {
    hide Strip, Emitted, EmittedAs, OccursOnce, ReplacesSole;
    OneEdit(w, s, e);
    SolePatched(w, Strip(e.path), pre, e, post);
  }

  lemma SolePatched(w: World, p: Path, pre: string, e: Edit, post: string)
    requires ReplacesSole(w) && OccursOnce(pre, e.search, post)
    ensures w.patch(p, pre + e.search + post, e.search, e.replace) == Some(pre + e.replace + post)
  {
    hide OccursOnce;
  }

  /** A second edit of the same file finds its anchor in what the first one made of it. */
  lemma TwoEditsOfOneFile(
    w: World, s: State, p: Path, a: Edit, b: Edit, pre: string, post: string, pre': string, post': string)
    requires ReplacesSole(w) && p != "" && Strip(a.path) == p && Strip(b.path) == p
    requires |Strip(a.search)| >= 10 && |Strip(b.search)| >= 10
    requires (if p in s.pending then s.pending[p] else s.disk(p)) == pre + a.search + post
    requires pre + a.replace + post == pre' + b.search + post'
    requires OccursOnce(pre, a.search, post) && OccursOnce(pre', b.search, post')
    ensures Emitted(w, s, [a, b]) == EmittedAs(s.disk, p, pre' + b.replace + post')
  {
    hide Strip, Emitted, OccursOnce, ReplacesSole, EmittedAs;
    var text := if p in s.pending then s.pending[p] else s.disk(p);
    SolePatched(w, p, pre, a, post);
    SolePatched(w, p, pre', b, post');
    WrittenOne(w, p, text, a);
    assert [a, b][..1] == [a];
    WrittenSnoc(w, p, text, [a, b], 1);
    assert [a, b][..2] == [a, b];
    EmittedOnly(w, s, [a, b], p);
  }

  /** Edits of different files do not see each other. */
  lemma TwoFiles(w: World, s: State, a: Edit, b: Edit)
    requires Strip(a.path) != Strip(b.path)
    ensures Emitted(w, s, [a, b]) == Emitted(w, s, [a]) + Emitted(w, s, [b])
  {
    hide Strip, Emitted, Effect, View;
    var both, ea, eb := Emitted(w, s, [a, b]), Emitted(w, s, [a]), Emitted(w, s, [b]);
    forall p
      ensures p in both <==> p in ea || p in eb
      ensures p in both ==> both[p] == if p in eb then eb[p] else ea[p]
    {
      var base := View(s.disk, s.pending, p);
      EmittedFor(w, s, [a, b], p);
      EmittedFor(w, s, [a], p);
      EmittedFor(w, s, [b], p);
      WrittenOne(w, p, base, a);
      WrittenOne(w, p, base, b);
      assert [a, b][..1] == [a] && [a, b][..2] == [a, b];
      WrittenSnoc(w, p, base, [a, b], 1);
    }
    assert both.Keys == (ea + eb).Keys;
  }

  /** The union reducer lets the newer content of a path win and never forgets one. */
  function Next(w: World, s: State, e: Event): State {
    match e
    case Generate(edits) => s.(pending := s.pending + Emitted(w, s, edits))
    case Commit(path, text) => s.(disk := (p: Path) => if p == path then text else s.disk(p))
    case Discard(_) => s
  }

  /** The state after a run that starts with nothing produced. */
  function Run(w: World, disk: Disk, es: seq<Event>): State {
    if es == [] then State(disk, map[]) else Next(w, Run(w, disk, es[..|es| - 1]), es[|es| - 1])
  }

  /** What the next step should read: edits apply in order, saves replace, a discarded proposal is gone. */
  function LatestNext(w: World, s: State, latest: string, e: Event, p: Path): string {
    match e
    case Generate(edits) =>
      var final := Written(w, p, latest, edits);
      if final.Some? then final.value else latest
    case Commit(path, text) => if path == p then text else latest
    case Discard(path) => if path == p then s.disk(p) else latest
  }

  function Latest(w: World, disk: Disk, es: seq<Event>, p: Path): string {
    if es == [] then disk(p)
    else
      var init := es[..|es| - 1];
      LatestNext(w, Run(w, disk, init), Latest(w, disk, init, p), es[|es| - 1], p)
  }

  /**
   What makes the run lose track of a path it carries content for: a step takes the path back to the
   workspace text, or other text than the carried one reaches the workspace or remains there.
   */
  predicate Loses(w: World, s: State, e: Event, p: Path) {
    p in s.pending && s.pending[p] != Next(w, s, e).disk(p) &&
    match e
    case Generate(edits) => Final(w, s, p, edits) == Some(s.disk(p))
    case Commit(path, _) => path == p
    case Discard(path) => path == p
  }

  /** Two edit lists in a row are their concatenation. */
  lemma {:induction false} WrittenAppend(w: World, p: Path, base: string, a: seq<Edit>, b: seq<Edit>)
    ensures var mid := Written(w, p, base, a);
            var next := Written(w, p, if mid.Some? then mid.value else base, b);
            Written(w, p, base, a + b) == if next.Some? then next else mid
    decreases |b|
  {
    hide Effect, Strip;
    if b == [] {
      assert a + b == a;
    } else {
      assert (a + b)[..|a + b| - 1] == a + b[..|b| - 1];
      WrittenAppend(w, p, base, a, b[..|b| - 1]);
    }
  }

  /** The edits of all steps of a run, in order. */
  function AllEdits(es: seq<Event>): seq<Edit> {
    if es == [] then []
    else AllEdits(es[..|es| - 1]) + if es[|es| - 1].Generate? then es[|es| - 1].edits else []
  }

  /** With steps only, what should be read is the workspace text after all edits, one after the other. */
  lemma {:induction false} LatestOfSteps(w: World, disk: Disk, es: seq<Event>, p: Path)
    requires forall e :: e in es ==> e.Generate?
    ensures var final := Written(w, p, disk(p), AllEdits(es));
            Latest(w, disk, es, p) == if final.Some? then final.value else disk(p)
  {
    hide Written, Next;
    if es == [] {
      NothingWritten(w, disk, p);
    } else {
      var init, e := es[..|es| - 1], es[|es| - 1];
      assert e in es && forall x :: x in init ==> x in es;
      LatestOfSteps(w, disk, init, p);
      WrittenAppend(w, p, disk(p), AllEdits(init), e.edits);
    }
  }

  lemma NothingWritten(w: World, disk: Disk, p: Path)
    ensures Written(w, p, disk(p), AllEdits([])) == None && Latest(w, disk, [], p) == disk(p)
  {
  }

  /** One event, one path: what the next step reads stays right unless the event loses the path. */
  lemma StepAgrees(w: World, s: State, e: Event, p: Path)
    ensures var latest, t := View(s.disk, s.pending, p), Next(w, s, e);
            View(t.disk, t.pending, p) == LatestNext(w, s, latest, e, p) <==> !Loses(w, s, e, p)
  {
    hide Written, Emitted;
    match e
    case Generate(edits) => EmittedFor(w, s, edits, p);
    case _ =>
  }

  /** After the run, the next step would read the path as it should. */
  predicate ReadsLatest(w: World, disk: Disk, es: seq<Event>, p: Path) {
    var s := Run(w, disk, es);
    View(s.disk, s.pending, p) == Latest(w, disk, es, p)
  }

  predicate LosesAt(w: World, disk: Disk, es: seq<Event>, k: nat, p: Path)
    requires k < |es|
  {
    Loses(w, Run(w, disk, es[..k]), es[k], p)
  }

  ghost predicate AlwaysReadsLatest(w: World, disk: Disk, es: seq<Event>, p: Path) {
    forall k :: 0 <= k <= |es| ==> ReadsLatest(w, disk, es[..k], p)
  }

  ghost predicate NeverLoses(w: World, disk: Disk, es: seq<Event>, p: Path) {
    forall k :: 0 <= k < |es| ==> !LosesAt(w, disk, es, k, p)
  }

  /**
   Carrying content through the union reducer is editing in order, at every point of the run, if and
   only if no event loses the path.
   */
  lemma {:induction false} OverlayIsSequentialIff(w: World, disk: Disk, es: seq<Event>, p: Path)
    ensures AlwaysReadsLatest(w, disk, es, p) <==> NeverLoses(w, disk, es, p)
  {
    hide ReadsLatest, LosesAt;
    if es == [] {
      NothingLost(w, disk, p);
      assert es[..0] == [];
    } else {
      var init := es[..|es| - 1];
      OverlayIsSequentialIff(w, disk, init, p);
      OneMoreEvent(w, disk, es, p);
      assert es[..|es|] == es;
      assert forall k :: 0 <= k <= |init| ==> init[..k] == es[..k];
      assert forall k :: 0 <= k < |init| ==> LosesAt(w, disk, init, k, p) == LosesAt(w, disk, es, k, p) by {
        LosesInPrefix(w, disk, es, p);
      }
    }
  }

  lemma NothingLost(w: World, disk: Disk, p: Path)
    ensures ReadsLatest(w, disk, [], p)
  {
  }

  lemma OneMoreEvent(w: World, disk: Disk, es: seq<Event>, p: Path)
    requires es != []
    ensures var n := |es| - 1;
            ReadsLatest(w, disk, es[..n], p) ==> (ReadsLatest(w, disk, es, p) <==> !LosesAt(w, disk, es, n, p))
  {
    hide LatestNext, Loses, Next, View;
    var n := |es| - 1;
    StepAgrees(w, Run(w, disk, es[..n]), es[n], p);
  }

  lemma LosesInPrefix(w: World, disk: Disk, es: seq<Event>, p: Path)
    requires es != []
    ensures var init := es[..|es| - 1];
            forall k :: 0 <= k < |init| ==> LosesAt(w, disk, init, k, p) == LosesAt(w, disk, es, k, p)
  {
    hide Loses, Run;
    var init := es[..|es| - 1];
    forall k | 0 <= k < |init|
      ensures LosesAt(w, disk, init, k, p) == LosesAt(w, disk, es, k, p)
    {
      assert init[..k] == es[..k];
    }
  }

  // ---------------------------------------------------------------------
  // The events that lose a path, at their smallest
  // ---------------------------------------------------------------------

  /** A whole-file edit of a path. */
  function Replace(p: Path, text: string): Event {
    Generate([EditParser.Edit.Edit(p, "", text)])
  }

  /** What a whole-file edit does to what is carried and to what should be read. */
  lemma ReplaceStep(w: World, s: State, latest: string, p: Path, text: string)
    requires p != "" && Strip(p) == p
    ensures LatestNext(w, s, latest, Replace(p, text), p) == text
    ensures var t := Next(w, s, Replace(p, text));
            && t.disk == s.disk
            && (p in t.pending <==> p in s.pending || text != s.disk(p))
            && (text != s.disk(p) ==> t.pending[p] == text)
            && (text == s.disk(p) && p in s.pending ==> t.pending[p] == s.pending[p])
  {
    hide Written, View, Emitted;
    var edits := [EditParser.Edit.Edit(p, "", text)];
    WrittenWhole(w, p, latest, text);
    WrittenWhole(w, p, View(s.disk, s.pending, p), text);
    EmittedFor(w, s, edits, p);
  }

  lemma WrittenWhole(w: World, p: Path, base: string, text: string)
    requires p != "" && Strip(p) == p
    ensures Written(w, p, base, [EditParser.Edit.Edit(p, "", text)]) == Some(text)
  {
    hide Strip, Effect, Written;
    var e := EditParser.Edit.Edit(p, "", text);
    EmptyAnchor(w, p, base, e);
    WrittenOne(w, p, base, e);
  }

  lemma EmptyAnchor(w: World, p: Path, base: string, e: Edit)
    requires e.search == ""
    ensures Effect(w, p, base, e) == Some(e.replace)
  {
  }

  lemma WrittenOne(w: World, p: Path, base: string, e: Edit)
    ensures Written(w, p, base, [e]) == WrittenNext(w, p, base, None, e)
  {
    hide Strip, Effect, WrittenNext;
    assert [e][..0] == [];
  }

  /** What the run carries and what the next step should read, after two events. */
  lemma RunOfTwo(w: World, disk: Disk, e1: Event, e2: Event, p: Path)
    ensures var s1 := Next(w, State(disk, map[]), e1);
            var l1 := LatestNext(w, State(disk, map[]), disk(p), e1, p);
            && Run(w, disk, [e1]) == s1 && Latest(w, disk, [e1], p) == l1
            && Run(w, disk, [e1, e2]) == Next(w, s1, e2)
            && Latest(w, disk, [e1, e2], p) == LatestNext(w, s1, l1, e2, p)
  {
    hide Next, LatestNext;
    assert [e1][..0] == [] && [e1, e2][..1] == [e1];
    assert Run(w, disk, []) == State(disk, map[]) && Latest(w, disk, [], p) == disk(p);
  }

  /** A step that takes a file back to its workspace text emits nothing: the next one reads the old change. */
  lemma RevertIsLost(w: World, disk: Disk, p: Path, b: string)
    requires p != "" && Strip(p) == p && b != disk(p)
    ensures var es := [Replace(p, b), Replace(p, disk(p))];
            var s := Run(w, disk, es);
            View(s.disk, s.pending, p) == b && Latest(w, disk, es, p) == disk(p)
  {
    hide Next, LatestNext, Replace;
    RunOfTwo(w, disk, Replace(p, b), Replace(p, disk(p)), p);
    ReplaceStep(w, State(disk, map[]), disk(p), p, b);
    ReplaceStep(w, Next(w, State(disk, map[]), Replace(p, b)), b, p, disk(p));
  }

  /** Once the change has been applied, taking it back is a change like any other and is emitted. */
  lemma AppliedRevertIsKept(w: World, disk: Disk, p: Path, b: string)
    requires p != "" && Strip(p) == p && b != disk(p)
    ensures var es := [Replace(p, b), Commit(p, b), Replace(p, disk(p))];
            var s := Run(w, disk, es);
            View(s.disk, s.pending, p) == disk(p) == Latest(w, disk, es, p) && p in s.pending
  {
    hide LatestNext, Replace;
    var es := [Replace(p, b), Commit(p, b), Replace(p, disk(p))];
    assert es[..2] == [Replace(p, b), Commit(p, b)];
    RunOfTwo(w, disk, Replace(p, b), Commit(p, b), p);
    ReplaceStep(w, State(disk, map[]), disk(p), p, b);
    var s := Run(w, disk, es[..2]);
    ReplaceStep(w, s, Latest(w, disk, es[..2], p), p, disk(p));
  }

  /** The operator's version of a proposal reaches the workspace, but the next step reads the coder's. */
  lemma ModifiedApprovalIsLost(w: World, disk: Disk, p: Path, b: string, c: string)
    requires p != "" && Strip(p) == p && b != disk(p) && c != b
    ensures var es := [Replace(p, b), Commit(p, c)];
            var s := Run(w, disk, es);
            s.disk(p) == c && View(s.disk, s.pending, p) == b && Latest(w, disk, es, p) == c
  {
    hide Replace;
    RunOfTwo(w, disk, Replace(p, b), Commit(p, c), p);
    ReplaceStep(w, State(disk, map[]), disk(p), p, b);
  }

  /** A declined proposal is what the next step reads. */
  lemma DeclinedProposalStays(w: World, disk: Disk, p: Path, b: string)
    requires p != "" && Strip(p) == p && b != disk(p)
    ensures var es := [Replace(p, b), Discard(p)];
            var s := Run(w, disk, es);
            View(s.disk, s.pending, p) == b && Latest(w, disk, es, p) == disk(p)
  {
    hide Replace;
    RunOfTwo(w, disk, Replace(p, b), Discard(p), p);
    ReplaceStep(w, State(disk, map[]), disk(p), p, b);
  }
}
