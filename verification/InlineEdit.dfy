/**
 The inline-edit stream: one DELETE that clears the selection, then INSERTs that land one behind
 the other, then possibly one ABORT. Replaying the deltas rebuilds the edited file.
 */
module InlineEdit {

  datatype Delta =
    | Delete(offset: int, length: int)
    | Insert(offset: int, text: string)
    | Abort(offset: int, reason: string)

  /** A coalesced model chunk, and whether the user had cancelled when it arrived. */
  datatype Arrival = Arrival(text: string, cancelSet: bool)

  /** How the model's stream ends. */
  datatype Ending = Exhausted | Fault(message: string) | TaskCancelled

  /** A selection as the editor sends it, and as the stream uses it. */
  datatype Range = Range(start: int, end: int)

  function Normalised(content: string, sel: Range): Range {
    var start := if sel.start < 0 then 0 else sel.start;
    var end := if sel.end < start then start else sel.end;
    Range(start, if end < |content| then end else |content|)
  }

  function Opening(content: string, sel: Range): Delta {
    var r := Normalised(content, sel);
    Delete(r.start, r.end - r.start)
  }

  /** What follows the opening: `sofar` is what the validator has seen, `cursor` where the next chunk lands. */
  function Tail(valid: seq<Delta> -> bool, cursor: int, sofar: seq<Delta>, arrivals: seq<Arrival>, ending: Ending)
    : seq<Delta>
    decreases |arrivals|
  {
    if arrivals == [] then
      match ending
      case Exhausted => []
      case Fault(message) => [Abort(0, "error: " + message)]
      case TaskCancelled => [Abort(0, "user_cancel")]
    else
      var a := arrivals[0];
      var candidate := Insert(cursor, a.text);
      if a.cancelSet then [Abort(0, "user_cancel")]
      else if a.text == "" then Tail(valid, cursor, sofar, arrivals[1..], ending)
      else if !valid(sofar + [candidate]) then [Abort(cursor, "syntax_break")]
      else [candidate] + Tail(valid, cursor + |a.text|, sofar + [candidate], arrivals[1..], ending)
  }

  function Stream(content: string, sel: Range, valid: seq<Delta> -> bool, cancelledAtStart: bool,
                  arrivals: seq<Arrival>, ending: Ending): seq<Delta>
  {
    var opening := Opening(content, sel);
    [opening] + if cancelledAtStart then [Abort(0, "user_cancel")]
                else Tail(valid, opening.offset, [opening], arrivals, ending)
  }

  /** The generator, with every yield appended to `deltas`. */
  method StreamInlineEdit(content: string, sel: Range, valid: seq<Delta> -> bool, cancelledAtStart: bool,
                          arrivals: seq<Arrival>, ending: Ending) returns (deltas: seq<Delta>)
    ensures deltas == Stream(content, sel, valid, cancelledAtStart, arrivals, ending)
  {
    var start, end := sel.start, sel.end;
    if start < 0 {
      start := 0;
    }
    if end < start {
      end := start;
    }
    if |content| < end {
      end := |content|;
    }
    var initialDelete := Delete(start, end - start);
    deltas := [initialDelete];
    if cancelledAtStart {
      return deltas + [Abort(0, "user_cancel")];
    }
    var sofar, insertCursor, i := [initialDelete], start, 0;
    assert arrivals[0..] == arrivals;
    while i < |arrivals|
      invariant i <= |arrivals|
      invariant deltas + Tail(valid, insertCursor, sofar, arrivals[i..], ending)
             == [initialDelete] + Tail(valid, start, [initialDelete], arrivals, ending)
    {
      var a := arrivals[i];
      assert arrivals[i..][1..] == arrivals[i + 1..];
      i := i + 1;
      if a.cancelSet {
        return deltas + [Abort(0, "user_cancel")];
      }
      if a.text == "" {
        continue;
      }
      var candidate := Insert(insertCursor, a.text);
      if !valid(sofar + [candidate]) {
        return deltas + [Abort(insertCursor, "syntax_break")];
      }
      ghost var rest := Tail(valid, insertCursor + |a.text|, sofar + [candidate], arrivals[i..], ending);
      assert deltas + ([candidate] + rest) == (deltas + [candidate]) + rest;
      sofar := sofar + [candidate];
      insertCursor := insertCursor + |a.text|;
      deltas := deltas + [candidate];
    }
    assert arrivals[i..] == [];
    match ending
    case Exhausted =>
    case Fault(message) => deltas := deltas + [Abort(0, "error: " + message)];
    case TaskCancelled => deltas := deltas + [Abort(0, "user_cancel")];
  }

  // ---------------------------------------------------------------------
  // Replay
  // ---------------------------------------------------------------------

  function Clamp(x: int, lo: int, hi: int): int
    requires lo <= hi
  {
    if x < lo then lo else if hi < x then hi else x
  }

  /** How the validator and the editor apply a delta; an ABORT changes nothing. */
  function Apply(buf: string, d: Delta): string {
    match d
    case Insert(offset, text) => var o := Clamp(offset, 0, |buf|); buf[..o] + text + buf[o..]
    case Delete(offset, length) =>
      var o := Clamp(offset, 0, |buf|);
      buf[..o] + buf[Clamp(o + (if length < 0 then 0 else length), o, |buf|)..]
    case Abort(_, _) => buf
  }

  function Replay(buf: string, ds: seq<Delta>): string {
    if ds == [] then buf else Apply(Replay(buf, ds[..|ds| - 1]), ds[|ds| - 1])
  }

  /** A delta that lies inside the buffer it is applied to. */
  predicate InRange(buf: string, d: Delta) {
    match d
    case Insert(offset, _) => 0 <= offset <= |buf|
    case Delete(offset, length) => 0 <= offset && 0 <= length && offset + length <= |buf|
    case Abort(_, _) => true
  }

  /** The chunks among the deltas, in order. */
  function Inserted(ds: seq<Delta>): string {
    if ds == [] then "" else Inserted(ds[..|ds| - 1]) + if ds[|ds| - 1].Insert? then ds[|ds| - 1].text else ""
  }

  /** Inserts land one behind the other from `cursor` on, and only the last delta may be an abort. */
  ghost predicate Contiguous(ds: seq<Delta>, cursor: int) {
    ds != [] ==>
      match ds[0]
      case Insert(offset, text) => offset == cursor && text != "" && Contiguous(ds[1..], cursor + |text|)
      case Abort(_, _) => |ds| == 1
      case Delete(_, _) => false
  }

  lemma {:induction false} TailContiguous(valid: seq<Delta> -> bool, cursor: int, sofar: seq<Delta>,
                                          arrivals: seq<Arrival>, ending: Ending)
    ensures Contiguous(Tail(valid, cursor, sofar, arrivals, ending), cursor)
    decreases |arrivals|
  {
    if arrivals != [] {
      var a := arrivals[0];
      var next := sofar + [Insert(cursor, a.text)];
      TailContiguous(valid, cursor, sofar, arrivals[1..], ending);
      TailContiguous(valid, cursor + |a.text|, next, arrivals[1..], ending);
      var rest := Tail(valid, cursor + |a.text|, next, arrivals[1..], ending);
      assert ([Insert(cursor, a.text)] + rest)[1..] == rest;
    }
  }

  /** Shape: one leading DELETE, contiguous inserts, nothing behind an ABORT. */
  lemma StreamShape(content: string, sel: Range, valid: seq<Delta> -> bool, cancelledAtStart: bool,
                    arrivals: seq<Arrival>, ending: Ending)
    ensures var ds := Stream(content, sel, valid, cancelledAtStart, arrivals, ending);
            && ds != [] && ds[0] == Opening(content, sel)
            && Contiguous(ds[1..], Opening(content, sel).offset)
  {
    var opening := Opening(content, sel);
    TailContiguous(valid, opening.offset, [opening], arrivals, ending);
    var ds := Stream(content, sel, valid, cancelledAtStart, arrivals, ending);
    assert ds[1..] == if cancelledAtStart then [Abort(0, "user_cancel")]
                      else Tail(valid, opening.offset, [opening], arrivals, ending);
  }

  /** Where delta `k` of a contiguous run lands. */
  lemma {:induction false} ContiguousOffset(ds: seq<Delta>, cursor: int, k: nat)
    requires Contiguous(ds, cursor) && k < |ds|
    ensures !ds[k].Delete?
    ensures ds[k].Insert? ==> ds[k].offset == cursor + |Inserted(ds[..k])|
    decreases |ds|
  {
    if k > 0 && ds[0].Insert? {
      ContiguousOffset(ds[1..], cursor + |ds[0].text|, k - 1);
      assert ds[1..][..k - 1] == ds[1..k];
      assert ds[..k] == [ds[0]] + ds[1..k];
      InsertedCons(ds[0], ds[1..k]);
    }
  }

  lemma {:induction false} InsertedCons(d: Delta, ds: seq<Delta>)
    ensures Inserted([d] + ds) == (if d.Insert? then d.text else "") + Inserted(ds)
  {
    if ds == [] {
      assert ([d] + ds)[..0] == [];
    } else {
      assert ([d] + ds)[..|ds|] == [d] + ds[..|ds| - 1];
      InsertedCons(d, ds[..|ds| - 1]);
    }
  }

  lemma OpeningLength(content: string, opening: Delta)
    requires opening.Delete?
    ensures var at := Clamp(opening.offset, 0, |content|);
            at <= |Apply(content, opening)| <= |content|
    ensures opening.offset >= |content| ==> |Apply(content, opening)| == |content|
  {
  }

  /** The file with the first deltas of a contiguous run behind the opening one. */
  lemma {:induction false} ReplayInserts(content: string, opening: Delta, ds: seq<Delta>, k: nat, at: nat)
    requires opening.Delete? && at <= |content| && at == Clamp(opening.offset, 0, |content|)
    requires opening.offset == at || (opening.offset > at == |content|)
    requires Contiguous(ds, opening.offset) && k <= |ds|
    ensures var cut := Apply(content, opening);
            at <= |cut| && Replay(content, [opening] + ds[..k]) == cut[..at] + Inserted(ds[..k]) + cut[at..]
  {
    hide Apply, Contiguous, Replay, Inserted;
    OpeningLength(content, opening);
    var cut := Apply(content, opening);
    if k == 0 {
      assert [opening] + ds[..0] == [] + [opening];
      ReplaySnoc(content, [], opening);
      NothingReplayed(content);
      assert cut[..at] + "" + cut[at..] == cut;
    } else {
      var d := ds[k - 1];
      assert [opening] + ds[..k] == ([opening] + ds[..k - 1]) + [d] && ds[..k] == ds[..k - 1] + [d];
      ReplaySnoc(content, [opening] + ds[..k - 1], d);
      ReplaySnoc(content, ds[..k - 1], d);
      ReplayInserts(content, opening, ds, k - 1, at);
      ContiguousOffset(ds, opening.offset, k - 1);
      if d.Insert? {
        InsertLands(cut, at, Inserted(ds[..k - 1]), d);
      }
    }
  }

  lemma NothingReplayed(buf: string)
    ensures Replay(buf, []) == buf && Inserted([]) == ""
  {
  }

  lemma ReplaySnoc(buf: string, ds: seq<Delta>, d: Delta)
    ensures Replay(buf, ds + [d]) == Apply(Replay(buf, ds), d)
    ensures d.Abort? ==> Replay(buf, ds + [d]) == Replay(buf, ds)
    ensures Inserted(ds + [d]) == Inserted(ds) + if d.Insert? then d.text else ""
  {
    assert (ds + [d])[..|ds|] == ds;
  }

  /** One more insert behind what has been inserted at `at` so far. */
  lemma InsertLands(cut: string, at: nat, ins: string, d: Delta)
    requires d.Insert? && at <= |cut|
    requires d.offset == at + |ins| || (at == |cut| && d.offset >= at + |ins|)
    ensures Apply(cut[..at] + ins + cut[at..], d) == cut[..at] + (ins + d.text) + cut[at..]
  {
    var before, o := cut[..at] + ins + cut[at..], at + |ins|;
    assert Clamp(d.offset, 0, |before|) == o;
    assert before[..o] == cut[..at] + ins && before[o..] == cut[at..];
  }

  function AtMost(x: int, n: nat): (r: int)
    ensures x >= 0 ==> 0 <= r <= n
  {
    if x < n then x else n
  }

  /**
   Replay: after any number of deltas the buffer is the file with the selection replaced by the
   chunks so far; a selection that starts behind the end of the file counts as empty, at the end.
   */
  lemma ReplayIsReplacement(content: string, sel: Range, valid: seq<Delta> -> bool, cancelledAtStart: bool,
                            arrivals: seq<Arrival>, ending: Ending, k: nat)
    requires 0 < k <= |Stream(content, sel, valid, cancelledAtStart, arrivals, ending)|
    ensures var ds := Stream(content, sel, valid, cancelledAtStart, arrivals, ending)[..k];
            var lo := if sel.start < 0 then 0 else sel.start;
            var hi := if sel.end < lo then lo else sel.end;
            Replay(content, ds) == content[..AtMost(lo, |content|)] + Inserted(ds) + content[AtMost(hi, |content|)..]
  {
    hide Stream, Tail, Replay, Contiguous, Apply, Inserted;
    var ds := Stream(content, sel, valid, cancelledAtStart, arrivals, ending);
    var opening := Opening(content, sel);
    var at := OpeningCut(content, sel);
    StreamShape(content, sel, valid, cancelledAtStart, arrivals, ending);
    ReplayInserts(content, opening, ds[1..], k - 1, at);
    assert ds[..k] == [opening] + ds[1..][..k - 1];
    InsertedCons(opening, ds[1..][..k - 1]);
    assert "" + Inserted(ds[1..][..k - 1]) == Inserted(ds[1..][..k - 1]);
  }

  /** What the opening DELETE leaves of the file. */
  lemma OpeningCut(content: string, sel: Range) returns (at: nat)
    ensures var r, opening := Normalised(content, sel), Opening(content, sel);
            && at == (if r.start <= |content| then r.start else |content|) <= r.end <= |content|
            && at == Clamp(opening.offset, 0, |content|)
            && at <= |Apply(content, opening)|
            && Apply(content, opening)[..at] == content[..at]
            && Apply(content, opening)[at..] == content[r.end..]
  {
    var r := Normalised(content, sel);
    at := if r.start <= |content| then r.start else |content|;
  }

  /** Every delta lies inside the buffer it is applied to iff the selection starts inside the file. */
  lemma DeltasInRangeIff(content: string, sel: Range, valid: seq<Delta> -> bool, cancelledAtStart: bool,
                         arrivals: seq<Arrival>, ending: Ending)
    ensures var ds := Stream(content, sel, valid, cancelledAtStart, arrivals, ending);
            (forall k :: 0 <= k < |ds| ==> InRange(Replay(content, ds[..k]), ds[k])) <==> sel.start <= |content|
  {
    var ds := Stream(content, sel, valid, cancelledAtStart, arrivals, ending);
    var r := Normalised(content, sel);
    StreamShape(content, sel, valid, cancelledAtStart, arrivals, ending);
    assert Replay(content, ds[..0]) == content;
    if sel.start <= |content| {
      forall k | 0 <= k < |ds|
        ensures InRange(Replay(content, ds[..k]), ds[k])
      {
        if k > 0 {
          ReplayIsReplacement(content, sel, valid, cancelledAtStart, arrivals, ending, k);
          ContiguousOffset(ds[1..], r.start, k - 1);
          assert ds[..k] == [ds[0]] + ds[1..][..k - 1];
          InsertedCons(ds[0], ds[1..][..k - 1]);
        }
      }
    } else {
      assert !InRange(Replay(content, ds[..0]), ds[0]);
    }
  }

  // ---------------------------------------------------------------------
  // What is emitted, and why it stops
  // ---------------------------------------------------------------------

  /** The chunks that hold text. */
  function Texts(arrivals: seq<Arrival>): seq<string> {
    if arrivals == [] then []
    else (if arrivals[0].text == "" then [] else [arrivals[0].text]) + Texts(arrivals[1..])
  }

  /** The deltas without the abort that may end them. */
  function Kept(ds: seq<Delta>): seq<Delta> {
    if ds != [] && ds[|ds| - 1].Abort? then ds[..|ds| - 1] else ds
  }

  /** The inserts carry the texts one for one, and the validator accepted each of them behind `sofar`. */
  ghost predicate Carry(inserts: seq<Delta>, texts: seq<string>, valid: seq<Delta> -> bool, sofar: seq<Delta>) {
    && |inserts| == |texts|
    && forall m :: 0 <= m < |inserts| ==>
         inserts[m].Insert? && inserts[m].text == texts[m] && valid(sofar + inserts[..m + 1])
  }

  /** Why a stream whose inserts are `sofar` ends with `ds`, having taken `k` arrivals. */
  ghost predicate StopsBecause(ds: seq<Delta>, cursor: int, sofar: seq<Delta>, valid: seq<Delta> -> bool,
                               arrivals: seq<Arrival>, ending: Ending, k: nat)
  {
    && k <= |arrivals|
    && (forall i :: 0 <= i < k ==> !arrivals[i].cancelSet)
    && var last := if ds != [] && ds[|ds| - 1].Abort? then [ds[|ds| - 1]] else [];
       if k < |arrivals| then
         if arrivals[k].cancelSet then last == [Abort(0, "user_cancel")]
         else
           && arrivals[k].text != "" && !valid(sofar + [Insert(cursor, arrivals[k].text)])
           && last == [Abort(cursor, "syntax_break")]
       else
         match ending
         case Exhausted => last == []
         case Fault(message) => last == [Abort(0, "error: " + message)]
         case TaskCancelled => last == [Abort(0, "user_cancel")]
  }

  lemma {:induction false} TailOutcome(
    valid: seq<Delta> -> bool, cursor: int, sofar: seq<Delta>, arrivals: seq<Arrival>, ending: Ending) returns (k: nat)
    ensures var ds := Tail(valid, cursor, sofar, arrivals, ending);
            && k <= |arrivals|
            && Carry(Kept(ds), Texts(arrivals[..k]), valid, sofar)
            && StopsBecause(ds, cursor + |Inserted(Kept(ds))|, sofar + Kept(ds), valid, arrivals, ending, k)
    decreases |arrivals|
  {
    hide Carry, StopsBecause, Tail, Kept, Texts, Inserted;
    k := 0;
    var ds := Tail(valid, cursor, sofar, arrivals, ending);
    if arrivals == [] || arrivals[0].cancelSet
       || (arrivals[0].text != "" && !valid(sofar + [Insert(cursor, arrivals[0].text)])) {
      StopsAtOnce(valid, cursor, sofar, arrivals, ending);
    } else {
      var a, later := arrivals[0], arrivals[1..];
      var d := Insert(cursor, a.text);
      if a.text == "" {
        var j := TailOutcome(valid, cursor, sofar, later, ending);
        k := j + 1;
        TailOfEmpty(valid, cursor, sofar, arrivals, ending);
        TextsCons(arrivals, j);
        LaterStop(ds, cursor + |Inserted(Kept(ds))|, sofar + Kept(ds), valid, arrivals, ending, j);
      } else {
        var j := TailOutcome(valid, cursor + |a.text|, sofar + [d], later, ending);
        k := j + 1;
        TailOfText(valid, cursor, sofar, arrivals, ending);
        var rest := Tail(valid, cursor + |a.text|, sofar + [d], later, ending);
        TextTaken(valid, cursor, sofar, arrivals, ending, j, d, rest, Kept(rest));
      }
    }
  }

  lemma {:induction false} StopsAtOnce(valid: seq<Delta> -> bool, cursor: int, sofar: seq<Delta>,
                                       arrivals: seq<Arrival>, ending: Ending)
    requires arrivals == [] || arrivals[0].cancelSet
             || (arrivals[0].text != "" && !valid(sofar + [Insert(cursor, arrivals[0].text)]))
    ensures var ds := Tail(valid, cursor, sofar, arrivals, ending);
            && Carry(Kept(ds), Texts(arrivals[..0]), valid, sofar)
            && StopsBecause(ds, cursor + |Inserted(Kept(ds))|, sofar + Kept(ds), valid, arrivals, ending, 0)
  {
    assert sofar + [] == sofar && arrivals[..0] == [];
  }

  lemma {:induction false} TextsCons(arrivals: seq<Arrival>, j: nat)
    requires j < |arrivals|
    ensures var later := Texts(arrivals[1..][..j]);
            Texts(arrivals[..j + 1]) == if arrivals[0].text == "" then later else [arrivals[0].text] + later
  {
    assert arrivals[..j + 1][1..] == arrivals[1..][..j];
  }

  lemma {:induction false} TailOfEmpty(valid: seq<Delta> -> bool, cursor: int, sofar: seq<Delta>,
                                       arrivals: seq<Arrival>, ending: Ending)
    requires arrivals != [] && !arrivals[0].cancelSet && arrivals[0].text == ""
    ensures Tail(valid, cursor, sofar, arrivals, ending) == Tail(valid, cursor, sofar, arrivals[1..], ending)
  {
  }

  /** A stop among the later arrivals is a stop among all. */
  lemma {:induction false} LaterStop(ds: seq<Delta>, cursor: int, sofar: seq<Delta>, valid: seq<Delta> -> bool,
                  arrivals: seq<Arrival>, ending: Ending, j: nat)
    requires arrivals != [] && !arrivals[0].cancelSet
    requires StopsBecause(ds, cursor, sofar, valid, arrivals[1..], ending, j)
    ensures StopsBecause(ds, cursor, sofar, valid, arrivals, ending, j + 1)
  {
    forall i | 0 <= i < j + 1 ensures !arrivals[i].cancelSet {
      if i > 0 {
        assert !arrivals[1..][i - 1].cancelSet;
      }
    }
  }

  lemma {:induction false} TextTaken(
    valid: seq<Delta> -> bool, cursor: int, sofar: seq<Delta>, arrivals: seq<Arrival>, ending: Ending,
    j: nat, d: Delta, rest: seq<Delta>, inserts: seq<Delta>)
    requires arrivals != [] && !arrivals[0].cancelSet && arrivals[0].text != "" && j < |arrivals|
    requires d == Insert(cursor, arrivals[0].text) && valid(sofar + [d]) && inserts == Kept(rest)
    requires Carry(inserts, Texts(arrivals[1..][..j]), valid, sofar + [d])
    requires StopsBecause(rest, cursor + |d.text| + |Inserted(inserts)|, sofar + [d] + inserts, valid,
                          arrivals[1..], ending, j)
    ensures Kept([d] + rest) == [d] + inserts && |Inserted([d] + inserts)| == |d.text| + |Inserted(inserts)|
    ensures Carry([d] + inserts, Texts(arrivals[..j + 1]), valid, sofar)
    ensures StopsBecause([d] + rest, cursor + (|d.text| + |Inserted(inserts)|), sofar + ([d] + inserts), valid,
                         arrivals, ending, j + 1)
  {
    hide *;
    var at, all := cursor + |d.text| + |Inserted(inserts)|, sofar + ([d] + inserts);
    TextsCons(arrivals, j);
    KeptCons(d, rest);
    CarryCons(d, inserts, Texts(arrivals[1..][..j]), valid, sofar);
    InsertedCons(d, inserts);
    Regroup(sofar, d, inserts);
    TakenStop(d, rest, at, all, valid, arrivals, ending, j);
  }

  lemma {:induction false} TakenStop(d: Delta, rest: seq<Delta>, at: int, all: seq<Delta>, valid: seq<Delta> -> bool,
                                     arrivals: seq<Arrival>, ending: Ending, j: nat)
    requires arrivals != [] && !arrivals[0].cancelSet && d.Insert?
    requires StopsBecause(rest, at, all, valid, arrivals[1..], ending, j)
    ensures StopsBecause([d] + rest, at, all, valid, arrivals, ending, j + 1)
  {
    hide *;
    LaterStop(rest, at, all, valid, arrivals, ending, j);
    SameLast(d, rest, at, all, valid, arrivals, ending, j + 1);
  }

  lemma {:induction false} TailOfText(valid: seq<Delta> -> bool, cursor: int, sofar: seq<Delta>,
                                      arrivals: seq<Arrival>, ending: Ending)
    requires arrivals != [] && !arrivals[0].cancelSet && arrivals[0].text != ""
    requires valid(sofar + [Insert(cursor, arrivals[0].text)])
    ensures var d := Insert(cursor, arrivals[0].text);
            Tail(valid, cursor, sofar, arrivals, ending)
            == [d] + Tail(valid, cursor + |d.text|, sofar + [d], arrivals[1..], ending)
  {
  }

  lemma Regroup(sofar: seq<Delta>, d: Delta, inserts: seq<Delta>)
    ensures sofar + [d] + inserts == sofar + ([d] + inserts)
  {
  }

  lemma {:induction false} SameLast(d: Delta, rest: seq<Delta>, cursor: int, sofar: seq<Delta>, valid: seq<Delta> -> bool,
                 arrivals: seq<Arrival>, ending: Ending, k: nat)
    requires d.Insert? && StopsBecause(rest, cursor, sofar, valid, arrivals, ending, k)
    ensures StopsBecause([d] + rest, cursor, sofar, valid, arrivals, ending, k)
  {
    assert rest != [] ==> ([d] + rest)[|rest|] == rest[|rest| - 1];
  }

  lemma KeptCons(d: Delta, rest: seq<Delta>)
    requires d.Insert?
    ensures Kept([d] + rest) == [d] + Kept(rest)
  {
  }

  lemma {:induction false} CarryCons(d: Delta, inserts: seq<Delta>, texts: seq<string>, valid: seq<Delta> -> bool,
                                     sofar: seq<Delta>)
    requires d.Insert? && valid(sofar + [d]) && Carry(inserts, texts, valid, sofar + [d])
    ensures Carry([d] + inserts, [d.text] + texts, valid, sofar)
  {
    var all := [d] + inserts;
    forall m | 0 <= m < |all|
      ensures all[m].Insert? && all[m].text == ([d.text] + texts)[m] && valid(sofar + all[..m + 1])
    {
      if m > 0 {
        assert all[m] == inserts[m - 1] && ([d.text] + texts)[m] == texts[m - 1];
        assert sofar + all[..m + 1] == sofar + [d] + inserts[..m - 1 + 1];
      } else {
        assert all[..1] == [d];
      }
    }
  }

  /**
   The stream, said without its loop: behind the opening DELETE it emits the chunks that hold text, in order,
   each one accepted by the validator together with all before it, up to the first arrival that finds the user
   has cancelled or whose text the validator rejects; the abort names the reason, and there is none when the
   model's answer simply ends.
   */
  lemma {:induction false} StreamOutcome(
    content: string, sel: Range, valid: seq<Delta> -> bool, arrivals: seq<Arrival>, ending: Ending)
    returns (k: nat)
    ensures var ds := Stream(content, sel, valid, false, arrivals, ending);
            && ds != [] && k <= |arrivals|
            && Carry(Kept(ds[1..]), Texts(arrivals[..k]), valid, [ds[0]])
            && StopsBecause(ds[1..], ds[0].offset + |Inserted(Kept(ds[1..]))|, [ds[0]] + Kept(ds[1..]), valid,
                            arrivals, ending, k)
    ensures Stream(content, sel, valid, true, arrivals, ending)
         == [Stream(content, sel, valid, false, arrivals, ending)[0], Abort(0, "user_cancel")]
  {
    var opening := Opening(content, sel);
    k := TailOutcome(valid, opening.offset, [opening], arrivals, ending);
    hide Tail, Kept, Carry, StopsBecause, Inserted, Texts;
    assert Stream(content, sel, valid, false, arrivals, ending)[1..]
        == Tail(valid, opening.offset, [opening], arrivals, ending);
  }
}
