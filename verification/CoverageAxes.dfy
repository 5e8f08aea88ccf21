/**
 Reading the coverage axes off the closing line of the analyst's free-form reasoning. An absent
 or malformed line is meant to degrade to no axes; a reasoning cut off right behind the marker
 does not.
 */
module CoverageAxes {
  import opened Prelude
  import opened Text

  const AXES_MARKER := "AXES:"
  const MAX_AXIS_CHARS: nat := 60
  const MAX_AXES: nat := 8

  datatype Parsed = Axes(axes: seq<string>) | IndexError

  /** Where the last occurrence of `m` starts. */
  function LastIndexOf(s: string, m: string): (r: Option<nat>)
    ensures r.Some? ==> r.value + |m| <= |s| && s[r.value..r.value + |m|] == m
  {
    if |s| < |m| then None
    else if s[|s| - |m|..] == m then Some(|s| - |m|)
    else if s == "" then None
    else LastIndexOf(s[..|s| - 1], m)
  }

  predicate IsDecoration(c: char) {
    c in ".;-*[]"
  }

  function StripDecorationLeft(s: string): string {
    if s != "" && IsDecoration(s[0]) then StripDecorationLeft(s[1..]) else s
  }

  function StripDecorationRight(s: string): string {
    if s != "" && IsDecoration(s[|s| - 1]) then StripDecorationRight(s[..|s| - 1]) else s
  }

  function CleanAxis(raw: string): string {
    Strip(StripDecorationRight(StripDecorationLeft(Strip(raw))))
  }

  /** Index of the first comma, or the length. */
  function Comma(s: string): (p: nat)
    ensures p <= |s|
  {
    if s == "" || s[0] == ',' then 0 else 1 + Comma(s[1..])
  }

  function SplitCommas(s: string): seq<string>
    decreases |s|
  {
    var p := Comma(s);
    if p == |s| then [s] else [s[..p]] + SplitCommas(s[p + 1..])
  }

  /** The usable axes among the fields, each once, in the order they first appear. */
  function Collected(fields: seq<string>): seq<string> {
    if fields == [] then []
    else
      var before, axis := Collected(fields[..|fields| - 1]), CleanAxis(fields[|fields| - 1]);
      if axis != "" && |axis| <= MAX_AXIS_CHARS && axis !in before then before + [axis] else before
  }

  lemma NothingBehindIff(s: string)
    ensures var at := LastIndexOf(s, AXES_MARKER);
            (at.Some? && SplitLines(s[at.value + |AXES_MARKER|..]) == []) <==> EndsWith(s, AXES_MARKER)
  {
  }

  method ParseCoverageAxes(reasoning: string) returns (r: Parsed)
    ensures r.IndexError? <==> EndsWith(reasoning, "AXES:")
    ensures r.Axes? ==>
      match LastIndexOf(reasoning, "AXES:")
      case None => r.axes == []
      case Some(at) =>
        var lines := SplitLines(reasoning[at + |"AXES:"|..]);
        && lines != []
        && var all := Collected(SplitCommas(lines[0]));
           r.axes == if |all| <= 8 then all else all[..8]
  {
    hide LastIndexOf, SplitLines, CleanAxis, EndsWith, SplitCommas;
    NothingBehindIff(reasoning);
    var marker := LastIndexOf(reasoning, AXES_MARKER);
    if marker.None? {
      return Axes([]);
    }
    var lines := SplitLines(reasoning[marker.value + |AXES_MARKER|..]);
    if lines == [] {
      return IndexError;
    }
    var axes, fields := [], SplitCommas(lines[0]);
    for i := 0 to |fields|
      invariant axes == Collected(fields[..i])
    {
      assert fields[..i + 1][..i] == fields[..i];
      var axis := CleanAxis(fields[i]);
      if axis != "" && |axis| <= MAX_AXIS_CHARS && axis !in axes {
        axes := axes + [axis];
      }
    }
    assert fields[..|fields|] == fields;
    return Axes(if |axes| <= MAX_AXES then axes else axes[..MAX_AXES]);
  }

  /** Some field reads as this axis once cleaned. */
  ghost predicate Named(fields: seq<string>, axis: string) {
    exists f :: f in fields && CleanAxis(f) == axis
  }

  /** What is collected is distinct, nonempty and short, and every short cleaned field is in it. */
  lemma {:induction false} CollectedShape(fields: seq<string>)
    ensures var axes := Collected(fields);
            && (forall i, j :: 0 <= i < j < |axes| ==> axes[i] != axes[j])
            && (forall axis :: axis in axes <==> axis != "" && |axis| <= 60 && Named(fields, axis))
  {
    hide CleanAxis;
    if fields != [] {
      var init, last := fields[..|fields| - 1], fields[|fields| - 1];
      CollectedShape(init);
      assert fields == init + [last];
      forall axis: string
        ensures Named(fields, axis) <==> Named(init, axis) || CleanAxis(last) == axis
      {
        assert last in fields;
        if Named(init, axis) {
          var f :| f in init && CleanAxis(f) == axis;
          assert f in fields;
        }
      }
    }
  }

  /** Position of the first field that reads as this axis. */
  function FirstNamed(fields: seq<string>, axis: string): nat {
    if fields == [] || CleanAxis(fields[0]) == axis then 0 else 1 + FirstNamed(fields[1..], axis)
  }

  lemma {:induction false} FirstNamedSnoc(init: seq<string>, last: string, axis: string)
    ensures Named(init, axis) ==> FirstNamed(init + [last], axis) == FirstNamed(init, axis) < |init|
    ensures !Named(init, axis) ==> FirstNamed(init + [last], axis) >= |init|
    ensures !Named(init, axis) && CleanAxis(last) == axis ==> FirstNamed(init + [last], axis) == |init|
  {
    hide CleanAxis;
    var all := init + [last];
    if init != [] && CleanAxis(init[0]) != axis {
      assert all[1..] == init[1..] + [last];
      FirstNamedSnoc(init[1..], last, axis);
      if Named(init, axis) {
        var f :| f in init && CleanAxis(f) == axis;
        assert init == [init[0]] + init[1..] && f in init[1..];
      }
    } else if init == [] {
      assert all == [last] && [last][1..] == [];
    } else {
      assert init[0] in init;
    }
  }

  /** Each axis is first named in front of the fields that first name the later ones. */
  ghost predicate InOrderOfNaming(fields: seq<string>, axes: seq<string>) {
    forall i, j :: 0 <= i < j < |axes| ==> FirstNamed(fields, axes[i]) < FirstNamed(fields, axes[j])
  }

  /** The axes come in the order in which the analyst first names them. */
  lemma {:induction false} CollectedInOrder(fields: seq<string>)
    ensures InOrderOfNaming(fields, Collected(fields))
  {
    hide *;
    if fields == [] {
      NothingNamed();
    } else {
      var init, last := fields[..|fields| - 1], fields[|fields| - 1];
      CollectedInOrder(init);
      CollectedSnoc(init, last);
      AllNamed(init);
      OrderSnoc(init, last, Collected(init), Collected(init + [last]));
      assert fields == init + [last];
    }
  }

  lemma NothingNamed()
    ensures InOrderOfNaming([], Collected([]))
  {
  }

  lemma AllNamed(fields: seq<string>)
    ensures forall i :: 0 <= i < |Collected(fields)| ==> Named(fields, Collected(fields)[i])
  {
    hide Named, Collected, CleanAxis;
    CollectedShape(fields);
    forall i | 0 <= i < |Collected(fields)| ensures Named(fields, Collected(fields)[i]) {
      assert Collected(fields)[i] in Collected(fields);
    }
  }

  lemma {:induction false} OrderSnoc(init: seq<string>, last: string, before: seq<string>, axes: seq<string>)
    requires InOrderOfNaming(init, before) && before <= axes && |axes| <= |before| + 1
    requires forall i :: 0 <= i < |before| ==> Named(init, before[i])
    requires |axes| > |before| ==> axes[|before|] == CleanAxis(last) && !Named(init, axes[|before|])
    ensures InOrderOfNaming(init + [last], axes)
  {
    hide CleanAxis, FirstNamed, Named;
    forall i, j | 0 <= i < j < |axes| ensures FirstNamed(init + [last], axes[i]) < FirstNamed(init + [last], axes[j]) {
      FirstNamedSnoc(init, last, axes[i]);
      FirstNamedSnoc(init, last, axes[j]);
    }
  }

  /** One more field adds its axis behind the others, if it is new. */
  lemma {:induction false} CollectedSnoc(init: seq<string>, last: string)
    ensures var axes, before, axis := Collected(init + [last]), Collected(init), CleanAxis(last);
            && before <= axes && |axes| <= |before| + 1
            && (|axes| > |before| ==> axes[|before|] == axis && !Named(init, axis))
  {
    hide CleanAxis;
    assert (init + [last])[..|init|] == init;
    CollectedShape(init);
  }

  // ---------------------------------------------------------------------
  // What the text functions do
  // ---------------------------------------------------------------------

  predicate OccursAt(s: string, m: string, i: nat) {
    i + |m| <= |s| && s[i..i + |m|] == m
  }

  lemma {:induction false} LastIndexIsLast(s: string, m: string, i: nat)
    requires m != ""
    ensures LastIndexOf(s, m) == Some(i) <==> OccursAt(s, m, i) && forall j: nat :: j > i ==> !OccursAt(s, m, j)
  {
    if |s| >= |m| {
      var n := |s| - |m|;
      if s[n..] == m {
        assert OccursAt(s, m, n);
      } else {
        var init := s[..|s| - 1];
        LastIndexIsLast(init, m, i);
        forall j: nat ensures OccursAt(s, m, j) <==> OccursAt(init, m, j) {
          if j + |m| <= |init| {
            assert init[j..j + |m|] == s[j..j + |m|];
          } else if j == n {
            assert s[n..n + |m|] == s[n..];
          }
        }
      }
    }
  }

  /** Commas separate the fields, and nothing else does. */
  lemma {:induction false} CommasSeparate(field: string, rest: string)
    requires ',' !in field
    ensures SplitCommas(field) == [field]
    ensures SplitCommas(field + "," + rest) == [field] + SplitCommas(rest)
  {
    CommaAfter(field, "");
    assert field + "" == field;
    CommaAfter(field, "," + rest);
    var s := field + "," + rest;
    assert s == field + ("," + rest);
    assert s[..|field|] == field && s[|field| + 1..] == rest;
  }

  lemma {:induction false} CommaAfter(field: string, rest: string)
    requires ',' !in field && (rest != "" ==> rest[0] == ',')
    ensures Comma(field + rest) == |field|
  {
    if field == "" {
      assert field + rest == rest;
    } else {
      assert (field + rest)[1..] == field[1..] + rest;
      CommaAfter(field[1..], rest);
    }
  }

  predicate AllDecoration(s: string) {
    forall i :: 0 <= i < |s| ==> s[i] in ".;-*[]"
  }

  predicate Undecorated(s: string) {
    s != "" ==> s[0] !in ".;-*[]" && s[|s| - 1] !in ".;-*[]"
  }

  /** A field is stripped of space, of decoration inside it, and of space inside that. */
  lemma {:induction false} CleanAxisExact(a: string, d: string, mid: string, d': string, b: string)
    requires AllSpace(a) && AllSpace(b) && AllDecoration(d) && AllDecoration(d') && Undecorated(mid)
    requires mid != "" && d == "" ==> !IsSpace(mid[0])
    requires mid != "" && d' == "" ==> !IsSpace(mid[|mid| - 1])
    ensures CleanAxis(a + (d + mid + d') + b) == Strip(mid)
  {
    DecorationIsNoSpace(d, mid, d');
    DecorationGoes(d, mid, d');
    hide IsSpace, Strip, AllSpace, StripDecorationLeft, StripDecorationRight;
    StripExact(a, d + mid + d', b);
  }

  lemma {:induction false} DecorationGoes(d: string, mid: string, d': string)
    requires AllDecoration(d) && AllDecoration(d') && Undecorated(mid)
    ensures StripDecorationRight(StripDecorationLeft(d + mid + d')) == mid
  {
    hide StripDecorationLeft, StripDecorationRight;
    assert d + mid + d' == d + (mid + d');
    if mid == "" {
      assert mid + d' == d' && d + d' + "" == d + d';
      DecorationLeft(d + d', "");
      DecorationRight("", "");
      assert "" + "" == "";
    } else {
      DecorationLeft(d, mid + d');
      DecorationRight(mid, d');
    }
  }

  lemma {:induction false} DecorationIsNoSpace(d: string, mid: string, d': string)
    requires AllDecoration(d) && AllDecoration(d') && Undecorated(mid)
    requires mid != "" && d == "" ==> !IsSpace(mid[0])
    requires mid != "" && d' == "" ==> !IsSpace(mid[|mid| - 1])
    ensures var inner := d + mid + d'; inner != "" ==> !IsSpace(inner[0]) && !IsSpace(inner[|inner| - 1])
  {
  }

  lemma {:induction false} DecorationLeft(d: string, rest: string)
    requires AllDecoration(d) && (rest != "" ==> rest[0] !in ".;-*[]")
    ensures StripDecorationLeft(d + rest) == rest
  {
    if d == "" {
      assert d + rest == rest;
    } else {
      assert (d + rest)[1..] == d[1..] + rest;
      DecorationLeft(d[1..], rest);
    }
  }

  lemma {:induction false} DecorationRight(rest: string, d: string)
    requires AllDecoration(d) && (rest != "" ==> rest[|rest| - 1] !in ".;-*[]")
    ensures StripDecorationRight(rest + d) == rest
  {
    if d == "" {
      assert rest + d == rest;
    } else {
      assert (rest + d)[..|rest + d| - 1] == rest + d[..|d| - 1];
      DecorationRight(rest, d[..|d| - 1]);
    }
  }
}
