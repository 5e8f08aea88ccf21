/**
 Sentinel-marker framing of a shell's byte stream: a marker, the exit code in decimal and
 a line end are cut out of the output and turned into a resolved code.

 The stream arrives in chunks. The framer keeps a partial marker for the next chunk, but not
 a marker already followed by digits, so the theorem about chunking is an exact condition:
 framing chunk by chunk equals framing the whole stream if and only if no chunk boundary
 falls between the first digit of a sentinel and its line end. A sentinel cut that way is not
 resolved but output as it stands, and everything else comes out as it should.
 */
module CommandBoundary {
  import opened Prelude

  const LF: byte := 10
  const CR: byte := 13

  predicate IsDigit(b: byte) {
    48 <= b <= 57
  }

  /** Markers start with the control byte 1, which occurs nowhere else in them. */
  ghost predicate ValidMarker(m: Bytes) {
    && m != [] && m[0] == 1
    && forall i :: 0 < i < |m| ==> m[i] != 1
  }

  /** Length of the leading run of digits. */
  function Digits(u: Bytes): (d: nat)
    ensures d <= |u|
    ensures forall i :: 0 <= i < d ==> IsDigit(u[i])
    ensures d < |u| ==> !IsDigit(u[d])
  {
    if u == [] || !IsDigit(u[0]) then 0 else 1 + Digits(u[1..])
  }

  function Decimal(ds: Bytes): nat
    requires forall i :: 0 <= i < |ds| ==> IsDigit(ds[i])
  {
    if ds == [] then 0
    else assert IsDigit(ds[|ds| - 1]); 10 * Decimal(ds[..|ds| - 1]) + (ds[|ds| - 1] as int - 48)
  }

  /** Length of the line end `t` starts with: LF, or CR LF, or none. */
  function LineEnd(t: Bytes): nat {
    if |t| >= 1 && t[0] == LF then 1 else if |t| >= 2 && t[0] == CR && t[1] == LF then 2 else 0
  }

  /** Length of the sentinel `t` starts with, 0 if it starts with none. */
  function SentinelLen(m: Bytes, t: Bytes): (n: nat)
    ensures n <= |t| && (n > 0 ==> n > |m| && m <= t)
  {
    if !(m <= t) then 0 else
    var d := Digits(t[|m|..]);
    var e := LineEnd(t[|m| + d..]);
    if d == 0 || e == 0 then 0 else |m| + d + e
  }

  function Code(m: Bytes, t: Bytes): nat
    requires SentinelLen(m, t) > 0
  {
    Decimal(t[|m|..][..Digits(t[|m|..])])
  }

  /** Where the first sentinel of `s` starts; `|s|` if there is none. */
  function Find(m: Bytes, s: Bytes): (p: nat)
    ensures p <= |s|
    ensures p < |s| ==> SentinelLen(m, s[p..]) > 0
  {
    if s == [] then 0
    else if SentinelLen(m, s) > 0 then assert s[0..] == s; 0
    else
      var p := Find(m, s[1..]);
      assert s[1 + p..] == s[1..][p..];
      1 + p
  }

  lemma {:induction false} FindIsFirst(m: Bytes, s: Bytes, i: nat)
    requires i < Find(m, s)
    ensures SentinelLen(m, s[i..]) == 0
  {
    if i == 0 {
      assert s[0..] == s;
    } else {
      FindIsFirst(m, s[1..], i - 1);
      assert s[i..] == s[1..][i - 1..];
    }
  }

  /** `k` bytes at the end of `s` could be the beginning of a marker. */
  predicate IsPartial(m: Bytes, s: Bytes, k: nat) {
    k <= |m| && k <= |s| && s[|s| - k..] == m[..k]
  }

  /** `k` is the length of the longest suffix of `s` that is a prefix of the marker. */
  ghost predicate IsKeep(m: Bytes, s: Bytes, k: nat) {
    IsPartial(m, s, k) && forall j :: k < j <= |s| ==> !IsPartial(m, s, j)
  }

  /** What one pass produces: output, retained bytes and resolved codes. */
  datatype Frame = Frame(emit: Bytes, rest: Bytes, codes: seq<nat>)

  /** The frame `f`, behind output and codes produced before it. */
  function After(emit: Bytes, codes: seq<nat>, f: Frame): Frame {
    Frame(emit + f.emit, f.rest, codes + f.codes)
  }

  lemma AfterTwice(e: Bytes, cs: seq<nat>, e': Bytes, cs': seq<nat>, f: Frame)
    ensures After(e, cs, After(e', cs', f)) == After(e + e', cs + cs', f)
  {
    assert e + (e' + f.emit) == e + e' + f.emit;
    assert cs + (cs' + f.codes) == cs + cs' + f.codes;
  }

  function Keep(m: Bytes, s: Bytes, k: nat): (r: nat)
    requires k <= |m| && k <= |s| && forall j :: k < j <= |s| ==> !IsPartial(m, s, j)
    ensures IsKeep(m, s, r)
  {
    if IsPartial(m, s, k) then k else Keep(m, s, k - 1)
  }

  function MaxKeep(m: Bytes, s: Bytes): nat {
    if |s| < |m| then |s| else |m|
  }

  /** No sentinel left: all but a possible beginning of a marker goes out. */
  function DrainTail(m: Bytes, s: Bytes): Frame {
    var cut := |s| - Keep(m, s, MaxKeep(m, s));
    Frame(s[..cut], s[cut..], [])
  }

  function Drain(m: Bytes, s: Bytes): Frame
    decreases |s|
  {
    var p := Find(m, s);
    if p == |s| then DrainTail(m, s)
    else
      var t := s[p..];
      After(s[..p], [Code(m, t)], Drain(m, t[SentinelLen(m, t)..]))
  }

  /** The last pass over a buffer without a sentinel. */
  lemma DrainLast(m: Bytes, s: Bytes, k: nat, emit: Bytes, codes: seq<nat>)
    requires Find(m, s) == |s| && IsKeep(m, s, k)
    ensures After(emit, codes, Drain(m, s)) == Frame(emit + s[..|s| - k], s[|s| - k..], codes)
  {
    KeepIsUnique(m, s, MaxKeep(m, s), k);
    var f := DrainTail(m, s);
    assert codes + f.codes == codes;
  }

  lemma KeepIsUnique(m: Bytes, s: Bytes, top: nat, k: nat)
    requires top <= |m| && top <= |s| && forall j :: top < j <= |s| ==> !IsPartial(m, s, j)
    requires IsKeep(m, s, k)
    ensures Keep(m, s, top) == k
  {
    var r := Keep(m, s, top);
    assert r <= k <= r;
  }

  /** One pass over a buffer that holds a sentinel. */
  lemma DrainOne(m: Bytes, s: Bytes, emit: Bytes, codes: seq<nat>)
    requires Find(m, s) < |s|
    ensures var p := Find(m, s);
            var t := s[p..];
            After(emit, codes, Drain(m, s))
            == After(emit + s[..p], codes + [Code(m, t)], Drain(m, t[SentinelLen(m, t)..]))
  {
    var p := Find(m, s);
    var t := s[p..];
    AfterTwice(emit, codes, s[..p], [Code(m, t)], Drain(m, t[SentinelLen(m, t)..]));
  }

  method PartialSuffixLen(buf: Bytes, m: Bytes) returns (k: nat)
    ensures IsKeep(m, buf, k)
  {
    k := MaxKeep(m, buf);
    while k > 0 && buf[|buf| - k..] != m[..k]
      invariant k <= |m| && k <= |buf|
      invariant forall j :: k < j <= |buf| ==> !IsPartial(m, buf, j)
    {
      k := k - 1;
    }
  }

  method DrainBoundaries(m: Bytes, input: Bytes) returns (emit: Bytes, rest: Bytes, codes: seq<nat>)
    ensures Frame(emit, rest, codes) == Drain(m, input)
  {
    emit, codes := [], [];
    var buf := input;
    while true
      invariant Drain(m, input) == After(emit, codes, Drain(m, buf))
      decreases |buf|
    {
      var p := Find(m, buf);
      if p == |buf| {
        var keep := PartialSuffixLen(buf, m);
        var cut := |buf| - keep;
        DrainLast(m, buf, keep, emit, codes);
        return emit + buf[..cut], buf[cut..], codes;
      }
      var t := buf[p..];
      DrainOne(m, buf, emit, codes);
      emit := emit + buf[..p];
      codes := codes + [Code(m, t)];
      buf := t[SentinelLen(m, t)..];
    }
  }

  // ---------------------------------------------------------------------
  // Sentinels are local and never overlap
  // ---------------------------------------------------------------------

  lemma {:induction false} DigitsExtend(u: Bytes, x: Bytes)
    requires Digits(u) < |u|
    ensures Digits(u + x) == Digits(u)
  {
    if IsDigit(u[0]) {
      assert (u + x)[1..] == u[1..] + x;
      DigitsExtend(u[1..], x);
    }
  }

  /** More bytes behind a complete sentinel do not change it. */
  lemma SentinelExtend(m: Bytes, t: Bytes, x: Bytes)
    requires SentinelLen(m, t) > 0
    ensures SentinelLen(m, t + x) == SentinelLen(m, t)
    ensures Code(m, t + x) == Code(m, t)
  {
    var u := t[|m|..];
    assert (t + x)[|m|..] == u + x;
    DigitsExtend(u, x);
    var d := Digits(u);
    assert (u + x)[..d] == u[..d];
    assert t[|m| + d..] == u[d..] && (t + x)[|m| + d..] == u[d..] + x;
  }

  lemma {:induction false} DigitsShrink(u: Bytes, k: nat)
    requires Digits(u) < k <= |u|
    ensures Digits(u[..k]) == Digits(u)
  {
    if IsDigit(u[0]) {
      assert u[..k][1..] == u[1..][..k - 1];
      DigitsShrink(u[1..], k - 1);
    }
  }

  /** A sentinel is recognised from its own bytes alone. */
  lemma SentinelShrink(m: Bytes, t: Bytes, k: nat)
    requires 0 < SentinelLen(m, t) <= k <= |t|
    ensures SentinelLen(m, t[..k]) == SentinelLen(m, t)
  {
    var u := t[|m|..];
    assert t[..k][|m|..] == u[..k - |m|];
    DigitsShrink(u, k - |m|);
    var d := Digits(u);
    assert t[|m| + d..] == u[d..] && t[..k][|m| + d..] == u[d..k - |m|];
  }

  /** The control byte marks the start of a sentinel and occurs nowhere else in it. */
  lemma ControlByteOnlyAtStart(m: Bytes, t: Bytes, i: nat)
    requires ValidMarker(m) && i < SentinelLen(m, t)
    ensures t[i] == 1 <==> i == 0
  {
    var u := t[|m|..];
    var d := Digits(u);
    assert t[|m| + d..] == u[d..];
    if i < |m| {
      assert t[i] == m[i];
    } else {
      assert t[i] == u[i - |m|];
    }
  }

  lemma {:induction false} FindUnique(m: Bytes, s: Bytes, p: nat)
    requires p <= |s| && (p < |s| ==> SentinelLen(m, s[p..]) > 0)
    requires forall i :: 0 <= i < p ==> SentinelLen(m, s[i..]) == 0
    ensures Find(m, s) == p
  {
    var q := Find(m, s);
    if p < q {
      FindIsFirst(m, s, p);
    }
  }

  /** A sentinel that ends inside `a` is already a sentinel of `a`. */
  lemma SentinelWithin(m: Bytes, a: Bytes, b: Bytes, i: nat)
    requires i <= |a| && 0 < SentinelLen(m, (a + b)[i..]) && i + SentinelLen(m, (a + b)[i..]) <= |a|
    ensures SentinelLen(m, a[i..]) > 0
  {
    SentinelShrink(m, (a + b)[i..], |a| - i);
    assert (a + b)[i..][..|a| - i] == a[i..];
  }

  lemma NotInsideSentinel(m: Bytes, s: Bytes, i: nat, j: nat)
    requires ValidMarker(m) && i < j < |s| && j < i + SentinelLen(m, s[i..])
    ensures s[j] != 1
  {
    ControlByteOnlyAtStart(m, s[i..], j - i);
  }

  /** The first sentinel of `a` stays the first when more bytes follow. */
  lemma FindExtend(m: Bytes, a: Bytes, b: Bytes)
    requires ValidMarker(m) && Find(m, a) < |a|
    ensures var p := Find(m, a);
            && Find(m, a + b) == p
            && SentinelLen(m, (a + b)[p..]) == SentinelLen(m, a[p..])
            && Code(m, (a + b)[p..]) == Code(m, a[p..])
  {
    hide SentinelLen, Code, Find;
    var p, s := Find(m, a), a + b;
    assert s[p..] == a[p..] + b;
    SentinelExtend(m, a[p..], b);
    assert a[p] == 1;
    forall i | 0 <= i < p
      ensures SentinelLen(m, s[i..]) == 0
    {
      if SentinelLen(m, s[i..]) > 0 {
        if i + SentinelLen(m, s[i..]) <= |a| {
          SentinelWithin(m, a, b, i);
          FindIsFirst(m, a, i);
        } else {
          NotInsideSentinel(m, s, i, p);
        }
      }
    }
    FindUnique(m, s, p);
  }

  /** `x` holds no beginning of a sentinel of `x + y`, complete or not. */
  ghost predicate Plain(m: Bytes, x: Bytes, y: Bytes) {
    forall i :: 0 <= i < |x| ==> SentinelLen(m, (x + y)[i..]) == 0 && !((x + y)[i..] <= m)
  }

  lemma FindSkips(m: Bytes, x: Bytes, y: Bytes)
    requires Plain(m, x, y)
    ensures Find(m, x + y) == |x| + Find(m, y)
  {
    hide SentinelLen, Code, Find;
    var q := Find(m, y);
    assert (x + y)[|x| + q..] == y[q..];
    forall i | 0 <= i < |x| + q
      ensures SentinelLen(m, (x + y)[i..]) == 0
    {
      if |x| <= i {
        assert (x + y)[i..] == y[i - |x|..];
        FindIsFirst(m, y, i - |x|);
      }
    }
    FindUnique(m, x + y, |x| + q);
  }

  lemma KeepSkips(m: Bytes, x: Bytes, y: Bytes, k: nat)
    requires Plain(m, x, y) && IsKeep(m, y, k)
    ensures IsKeep(m, x + y, k)
  {
    var s := x + y;
    assert s[|s| - k..] == y[|y| - k..];
    forall j | k < j <= |s|
      ensures !IsPartial(m, s, j)
    {
      if j <= |y| {
        assert s[|s| - j..] == y[|y| - j..];
        assert !IsPartial(m, y, j);
      } else {
        assert !(s[|s| - j..] <= m);
      }
    }
  }

  lemma DrainSkipsInTail(m: Bytes, x: Bytes, y: Bytes)
    requires Plain(m, x, y) && Find(m, y) == |y|
    ensures Drain(m, x + y) == After(x, [], Drain(m, y))
  {
    hide SentinelLen, Code, Find, Keep, Drain, DrainTail;
    var k := Keep(m, y, MaxKeep(m, y));
    FindSkips(m, x, y);
    KeepSkips(m, x, y, k);
    DrainLast(m, x + y, k, [], []);
    DrainLast(m, y, k, x, []);
    AfterNothing(Drain(m, x + y));
    assert (x + y)[..|x + y| - k] == x + y[..|y| - k];
    assert (x + y)[|x + y| - k..] == y[|y| - k..];
  }

  lemma AfterNothing(f: Frame)
    ensures After([], [], f) == f
  {
  }

  /** Plain bytes go straight to the output. */
  lemma DrainSkips(m: Bytes, x: Bytes, y: Bytes)
    requires Plain(m, x, y)
    ensures Drain(m, x + y) == After(x, [], Drain(m, y))
  {
    hide SentinelLen, Code, Find, Keep, Drain, DrainTail;
    var q := Find(m, y);
    if q == |y| {
      DrainSkipsInTail(m, x, y);
    } else {
      FindSkips(m, x, y);
      DrainOne(m, x + y, [], []);
      DrainOne(m, y, x, []);
      AfterNothing(Drain(m, x + y));
      assert (x + y)[|x| + q..] == y[q..];
      assert (x + y)[..|x| + q] == x + y[..q];
    }
  }

  // ---------------------------------------------------------------------
  // Framing chunk by chunk
  // ---------------------------------------------------------------------

  /** The boundary between `a` and `b` falls behind the first digit of this sentinel's code. */
  ghost predicate CutsAt(m: Bytes, a: Bytes, b: Bytes, i: int) {
    && 0 <= i < |a|
    && SentinelLen(m, (a + b)[i..]) > 0
    && i + |m| < |a| < i + SentinelLen(m, (a + b)[i..])
  }

  ghost predicate CutsCode(m: Bytes, a: Bytes, b: Bytes) {
    exists i :: CutsAt(m, a, b, i)
  }

  /** Dropping everything up to the first complete sentinel leaves the same cut. */
  lemma CutBehindFirst(m: Bytes, a: Bytes, b: Bytes)
    requires ValidMarker(m) && Find(m, a) < |a|
    ensures var t := a[Find(m, a)..];
            CutsCode(m, a, b) <==> CutsCode(m, t[SentinelLen(m, t)..], b)
  {
    hide SentinelLen, Code, Find;
    var p := Find(m, a);
    FindExtend(m, a, b);
    var q := p + SentinelLen(m, a[p..]);
    var a' := a[p..][SentinelLen(m, a[p..])..];
    assert a' == a[q..];
    forall i | CutsAt(m, a, b, i)
      ensures CutsAt(m, a', b, i - q)
    {
      assert (a + b)[i..][0] == (a + b)[i];
      if i < p {
        FindIsFirst(m, a + b, i);
      } else if p < i < q {
        NotInsideSentinel(m, a + b, p, i);
      }
      assert (a' + b)[i - q..] == (a + b)[i..];
    }
    forall i | CutsAt(m, a', b, i)
      ensures CutsAt(m, a, b, i + q)
    {
      assert (a' + b)[i..] == (a + b)[i + q..];
    }
    if CutsCode(m, a, b) {
      var i :| CutsAt(m, a, b, i);
      assert CutsAt(m, a', b, i - q);
    }
    if CutsCode(m, a', b) {
      var i :| CutsAt(m, a', b, i);
      assert CutsAt(m, a, b, i + q);
    }
  }

  /** If `a + b` goes on at `i` like the marker, the end of `a` is a partial marker. */
  lemma PartialBeginning(m: Bytes, a: Bytes, b: Bytes, i: nat)
    requires i <= |a|
    ensures var t := (a + b)[i..];
            |a| - i <= |m| && (m <= t || t <= m) ==> IsPartial(m, a, |a| - i)
  {
    assert (a + b)[i..][..|a| - i] == a[i..];
  }

  /** With no complete sentinel in `a` and a harmless cut, all but the kept bytes is plain. */
  lemma TailIsPlain(m: Bytes, a: Bytes, b: Bytes, k: nat)
    requires Find(m, a) == |a| && IsKeep(m, a, k) && !CutsCode(m, a, b)
    ensures Plain(m, a[..|a| - k], a[|a| - k..] + b)
  {
    hide SentinelLen, Code, Find;
    var cut := |a| - k;
    assert a[..cut] + (a[cut..] + b) == a + b;
    forall i | 0 <= i < cut
      ensures SentinelLen(m, (a + b)[i..]) == 0 && !((a + b)[i..] <= m)
    {
      var t := (a + b)[i..];
      PartialBeginning(m, a, b, i);
      assert !IsPartial(m, a, |a| - i) && !CutsAt(m, a, b, i);
      if SentinelLen(m, t) > 0 && i + SentinelLen(m, t) <= |a| {
        SentinelWithin(m, a, b, i);
        FindIsFirst(m, a, i);
      }
    }
  }

  /** A cut inside a code: the digits so far are already output, the code is never resolved. */
  lemma CutLosesCode(m: Bytes, a: Bytes, b: Bytes, i: nat)
    requires ValidMarker(m) && Find(m, a) == |a| && CutsAt(m, a, b, i)
    ensures var f1, f := Drain(m, a), Drain(m, a + b);
            var f2 := Drain(m, f1.rest + b);
            f2.rest == f.rest && |f.codes| == |f1.codes| + |f2.codes| + 1
  {
    hide SentinelLen, Code, Find, Drain;
    var s := a + b;
    var n := SentinelLen(m, s[i..]);
    CutKeepsNothing(m, a, b, i);
    assert [] + b == b && Drain(m, a).codes == [];
    CutFirst(m, a, b, i);
    var z := i + n - |a|;
    var x, y := b[..z], b[z..];
    assert b == x + y;
    CutIsPlain(m, a, b, i, z);
    DrainSkips(m, x, y);
    assert s[i..][n..] == y;
    DrainOne(m, s, [], []);
    AfterNothing(Drain(m, s));
  }

  /** The rest of a sentinel that is cut holds no beginning of another. */
  lemma CutIsPlain(m: Bytes, a: Bytes, b: Bytes, i: nat, z: nat)
    requires ValidMarker(m) && CutsAt(m, a, b, i) && z == i + SentinelLen(m, (a + b)[i..]) - |a| <= |b|
    ensures Plain(m, b[..z], b[z..])
  {
    hide SentinelLen, Code;
    var s := a + b;
    assert b[..z] + b[z..] == b;
    forall j | 0 <= j < z
      ensures SentinelLen(m, b[j..]) == 0 && !(b[j..] <= m)
    {
      NotInsideSentinel(m, s, i, |a| + j);
      assert b[j..][0] == s[|a| + j];
    }
  }

  /** Digits behind a whole marker are no partial marker: nothing is kept. */
  lemma CutKeepsNothing(m: Bytes, a: Bytes, b: Bytes, i: nat)
    requires ValidMarker(m) && Find(m, a) == |a| && CutsAt(m, a, b, i)
    ensures Drain(m, a).rest == [] && Drain(m, a).codes == []
  {
    hide SentinelLen, Code, Find;
    var s := a + b;
    var k := Keep(m, a, MaxKeep(m, a));
    if k > 0 {
      assert a[|a| - k] == m[0] == s[|a| - k];
      NotInsideSentinel(m, s, i, |a| - k);
    }
  }

  /** The sentinel that is cut is the first one of the unsplit bytes. */
  lemma CutFirst(m: Bytes, a: Bytes, b: Bytes, i: nat)
    requires ValidMarker(m) && Find(m, a) == |a| && CutsAt(m, a, b, i)
    ensures Find(m, a + b) == i
  {
    hide SentinelLen, Code, Find;
    var s := a + b;
    assert s[i] == 1;
    forall j | 0 <= j < i
      ensures SentinelLen(m, s[j..]) == 0
    {
      if SentinelLen(m, s[j..]) > 0 {
        if j + SentinelLen(m, s[j..]) <= |a| {
          SentinelWithin(m, a, b, j);
          FindIsFirst(m, a, j);
        } else {
          NotInsideSentinel(m, s, j, i);
        }
      }
    }
    FindUnique(m, s, i);
  }

  /** One more chunk: what the kept bytes and the chunk give, against the unsplit bytes. */
  lemma {:induction false} OneMoreChunk(m: Bytes, a: Bytes, b: Bytes)
    requires ValidMarker(m)
    ensures var f1, f := Drain(m, a), Drain(m, a + b);
            var f2 := Drain(m, f1.rest + b);
            && f2.rest == f.rest
            && (!CutsCode(m, a, b) ==> f == After(f1.emit, f1.codes, f2))
            && (CutsCode(m, a, b) ==> |f.codes| == |f1.codes| + |f2.codes| + 1)
    decreases |a|
  {
    hide SentinelLen, Code, Find;
    var p := Find(m, a);
    if p < |a| {
      var t := a[p..];
      var a' := t[SentinelLen(m, t)..];
      FindExtend(m, a, b);
      CutBehindFirst(m, a, b);
      assert (a + b)[p..][SentinelLen(m, t)..] == a' + b;
      assert (a + b)[..p] == a[..p];
      OneMoreChunk(m, a', b);
      var f1 := Drain(m, a');
      var f2 := Drain(m, f1.rest + b);
      AfterTwice(a[..p], [Code(m, t)], f1.emit, f1.codes, f2);
    } else if CutsCode(m, a, b) {
      var i :| CutsAt(m, a, b, i);
      CutLosesCode(m, a, b, i);
    } else {
      var k := Keep(m, a, MaxKeep(m, a));
      TailIsPlain(m, a, b, k);
      var x, y := a[..|a| - k], a[|a| - k..];
      assert x + (y + b) == a + b;
      DrainSkips(m, x, y + b);
    }
  }

  function Concat(cs: seq<Bytes>): Bytes {
    if cs == [] then [] else Concat(cs[..|cs| - 1]) + cs[|cs| - 1]
  }

  /** The demux loop: each chunk is appended to what the previous pass kept. */
  function Feed(m: Bytes, cs: seq<Bytes>): Frame {
    if cs == [] then Frame([], [], [])
    else
      var f := Feed(m, cs[..|cs| - 1]);
      After(f.emit, f.codes, Drain(m, f.rest + cs[|cs| - 1]))
  }

  /** How many exit codes are cut by a boundary, each counted when the chunk arrives that ends its line. */
  ghost function CodeCuts(m: Bytes, cs: seq<Bytes>): nat {
    if cs == [] then 0
    else CodeCuts(m, cs[..|cs| - 1]) + if CutsCode(m, Concat(cs[..|cs| - 1]), cs[|cs| - 1]) then 1 else 0
  }

  /** Chunked framing loses exactly the codes that are cut, and nothing otherwise. */
  lemma {:induction false} ChunkedFraming(m: Bytes, cs: seq<Bytes>)
    requires ValidMarker(m)
    ensures Feed(m, cs).rest == Drain(m, Concat(cs)).rest
    ensures |Feed(m, cs).codes| + CodeCuts(m, cs) == |Drain(m, Concat(cs)).codes|
    ensures CodeCuts(m, cs) == 0 ==> Feed(m, cs) == Drain(m, Concat(cs))
  {
    if cs != [] {
      var a, b := Concat(cs[..|cs| - 1]), cs[|cs| - 1];
      ChunkedFraming(m, cs[..|cs| - 1]);
      OneMoreChunk(m, a, b);
    }
  }

  /** Framing chunk by chunk is framing the whole stream iff no boundary falls inside a code. */
  lemma {:induction false} ChunkedIffNoCodeCut(m: Bytes, cs: seq<Bytes>)
    requires ValidMarker(m)
    ensures Feed(m, cs) == Drain(m, Concat(cs)) <==> CodeCuts(m, cs) == 0
  {
    ChunkedFraming(m, cs);
  }

  // ---------------------------------------------------------------------
  // What chunked framing does instead
  // ---------------------------------------------------------------------

  /** A position lies strictly between the two. */
  ghost predicate Hits(cuts: set<int>, from: int, to: int) {
    exists c :: c in cuts && from < c < to
  }

  function Shifted(cuts: set<int>, q: int): set<int> {
    set c | c in cuts :: c - q
  }

  /** The framing of `s` in which a sentinel whose code is cut at some position is output as it stands. */
  ghost function DrainCut(m: Bytes, s: Bytes, cuts: set<int>): Frame
    decreases |s|
  {
    var p := Find(m, s);
    if p == |s| then DrainTail(m, s)
    else
      var t := s[p..];
      var n := SentinelLen(m, t);
      var f := DrainCut(m, t[n..], Shifted(cuts, p + n));
      if Hits(cuts, p + |m|, p + n) then After(s[..p + n], [], f) else After(s[..p], [Code(m, t)], f)
  }

  /** Where the chunks meet. */
  function Boundaries(cs: seq<Bytes>): set<int> {
    if cs == [] then {} else Boundaries(cs[..|cs| - 1]) + {|Concat(cs[..|cs| - 1])|}
  }

  /** None of the positions lies inside the code of a sentinel of `s`. */
  ghost predicate Harmless(m: Bytes, s: Bytes, cuts: set<int>) {
    forall i, c :: 0 <= i < |s| && SentinelLen(m, s[i..]) > 0 && c in cuts
      ==> !(i + |m| < c < i + SentinelLen(m, s[i..]))
  }

  lemma {:induction false} HarmlessDrain(m: Bytes, s: Bytes, cuts: set<int>)
    requires Harmless(m, s, cuts)
    ensures DrainCut(m, s, cuts) == Drain(m, s)
    decreases |s|
  {
    hide SentinelLen, Code, Find;
    var p := Find(m, s);
    if p < |s| {
      var q := p + SentinelLen(m, s[p..]);
      assert s[p..][SentinelLen(m, s[p..])..] == s[q..];
      forall i, c | 0 <= i < |s[q..]| && SentinelLen(m, s[q..][i..]) > 0 && c in Shifted(cuts, q)
        ensures !(i + |m| < c < i + SentinelLen(m, s[q..][i..]))
      {
        assert s[q..][i..] == s[i + q..] && c + q in cuts;
      }
      HarmlessDrain(m, s[q..], Shifted(cuts, q));
    }
  }

  /** Positions at or before the first byte cut nothing. */
  lemma PassedIsHarmless(m: Bytes, s: Bytes, cuts: set<int>)
    requires forall c :: c in cuts ==> c <= 0
    ensures Harmless(m, s, cuts)
  {
  }

  lemma ShiftedUnion(cuts: set<int>, c: int, q: int)
    ensures Shifted(cuts + {c}, q) == Shifted(cuts, q) + {c - q}
  {
    forall x
      ensures x in Shifted(cuts + {c}, q) <==> x in Shifted(cuts, q) + {c - q}
    {
      if x == c - q {
        assert c in cuts + {c};
      }
      if x in Shifted(cuts, q) {
        assert x + q in cuts + {c};
      }
    }
  }

  /** One more chunk, against the unsplit bytes, with all boundaries so far in view. */
  lemma {:induction false} OneMoreCut(m: Bytes, a: Bytes, b: Bytes, cuts: set<int>)
    requires ValidMarker(m) && forall c :: c in cuts ==> c <= |a|
    ensures var f := DrainCut(m, a, cuts);
            DrainCut(m, a + b, cuts + {|a|}) == After(f.emit, f.codes, Drain(m, f.rest + b))
    decreases |a|
  {
    hide SentinelLen, Code, Find, Drain, Hits, Shifted, DrainCut;
    if Find(m, a) < |a| {
      var q := Find(m, a) + SentinelLen(m, a[Find(m, a)..]);
      ShiftedBound(cuts, q, |a|);
      OneMoreCut(m, a[q..], b, Shifted(cuts, q));
      BehindFirst(m, a, b, cuts);
    } else if CutsCode(m, a, b) {
      var i :| CutsAt(m, a, b, i);
      LastCut(m, a, b, i, cuts);
    } else {
      LastUncut(m, a, b, cuts);
    }
  }

  lemma {:induction false} DrainCutOne(m: Bytes, s: Bytes, cuts: set<int>)
    requires Find(m, s) < |s|
    ensures var p := Find(m, s);
            var q := p + SentinelLen(m, s[p..]);
            var f := DrainCut(m, s[q..], Shifted(cuts, q));
            DrainCut(m, s, cuts)
            == if Hits(cuts, p + |m|, q) then After(s[..q], [], f) else After(s[..p], [Code(m, s[p..])], f)
  {
    hide SentinelLen, Code, Find, Hits, Shifted;
    var p := Find(m, s);
    assert s[p..][SentinelLen(m, s[p..])..] == s[p + SentinelLen(m, s[p..])..];
  }

  /** A first sentinel that is complete in `a` comes out the same with and without more bytes. */
  lemma {:induction false} BehindFirst(m: Bytes, a: Bytes, b: Bytes, cuts: set<int>)
    requires ValidMarker(m) && Find(m, a) < |a|
    requires var q := Find(m, a) + SentinelLen(m, a[Find(m, a)..]);
             var f := DrainCut(m, a[q..], Shifted(cuts, q));
             DrainCut(m, a[q..] + b, Shifted(cuts, q) + {|a[q..]|}) == After(f.emit, f.codes, Drain(m, f.rest + b))
    ensures var f := DrainCut(m, a, cuts);
            DrainCut(m, a + b, cuts + {|a|}) == After(f.emit, f.codes, Drain(m, f.rest + b))
  {
    hide SentinelLen, Code, Find, Drain, Hits, Shifted, DrainCut;
    var p := Find(m, a);
    var q := p + SentinelLen(m, a[p..]);
    FindExtend(m, a, b);
    assert (a + b)[q..] == a[q..] + b && (a + b)[..p] == a[..p] && (a + b)[..q] == a[..q];
    ShiftedUnion(cuts, |a|, q);
    HitsBefore(cuts, |a|, p + |m|, q);
    DrainCutOne(m, a, cuts);
    DrainCutOne(m, a + b, cuts + {|a|});
    var f := DrainCut(m, a[q..], Shifted(cuts, q));
    var g := Drain(m, f.rest + b);
    AfterTwice(a[..p], [Code(m, a[p..])], f.emit, f.codes, g);
    AfterTwice(a[..q], [], f.emit, f.codes, g);
  }

  lemma ShiftedBound(cuts: set<int>, q: int, bound: int)
    requires forall c :: c in cuts ==> c <= bound
    ensures forall c :: c in Shifted(cuts, q) ==> c <= bound - q
  {
  }

  /** A boundary at or behind the end of a sentinel does not cut it. */
  lemma HitsBefore(cuts: set<int>, c: int, from: int, to: int)
    requires c >= to
    ensures Hits(cuts + {c}, from, to) == Hits(cuts, from, to)
  {
    if Hits(cuts, from, to) {
      var x :| x in cuts && from < x < to;
      assert x in cuts + {c};
    }
  }

  /** With no complete sentinel before the boundary and none cut by it, every position is harmless. */
  lemma {:induction false} LastUncut(m: Bytes, a: Bytes, b: Bytes, cuts: set<int>)
    requires ValidMarker(m) && Find(m, a) == |a| && !CutsCode(m, a, b) && forall c :: c in cuts ==> c <= |a|
    ensures var f := DrainCut(m, a, cuts);
            DrainCut(m, a + b, cuts + {|a|}) == After(f.emit, f.codes, Drain(m, f.rest + b))
  {
    hide SentinelLen, Code, Find;
    var s := a + b;
    forall i | 0 <= i < |s| && SentinelLen(m, s[i..]) > 0
      ensures |a| <= i + |m|
    {
      assert !CutsAt(m, a, b, i);
      if i + SentinelLen(m, s[i..]) <= |a| {
        SentinelWithin(m, a, b, i);
        FindIsFirst(m, a, i);
      }
    }
    HarmlessDrain(m, s, cuts + {|a|});
    OneMoreChunk(m, a, b);
    DrainTailOnly(m, a, cuts);
  }

  lemma DrainTailOnly(m: Bytes, a: Bytes, cuts: set<int>)
    requires Find(m, a) == |a|
    ensures DrainCut(m, a, cuts) == Drain(m, a) == DrainTail(m, a)
  {
  }

  /** The boundary cuts the first sentinel: all its bytes are output. */
  lemma {:induction false} LastCut(m: Bytes, a: Bytes, b: Bytes, i: nat, cuts: set<int>)
    requires ValidMarker(m) && Find(m, a) == |a| && CutsAt(m, a, b, i) && forall c :: c in cuts ==> c <= |a|
    ensures var f := DrainCut(m, a, cuts);
            DrainCut(m, a + b, cuts + {|a|}) == After(f.emit, f.codes, Drain(m, f.rest + b))
  {
    hide SentinelLen, Code, Find, Drain, DrainCut, DrainTail, Plain;
    var z := i + SentinelLen(m, (a + b)[i..]) - |a|;
    CutKeepsNothing(m, a, b, i);
    DrainTailOnly(m, a, cuts);
    TailEmitsAll(m, a);
    assert [] + b == b;
    CutIsPlain(m, a, b, i, z);
    CutOutput(m, a, b, i, z, cuts);
    DrainSkips(m, b[..z], b[z..]);
    assert b == b[..z] + b[z..];
    AfterTwice(a, [], b[..z], [], Drain(m, b[z..]));
    NoCodes();
  }

  lemma NoCodes()
    ensures var none: seq<nat> := []; none + none == none
  {
  }

  /** What the whole stream frames to in that case. */
  lemma {:induction false} CutOutput(m: Bytes, a: Bytes, b: Bytes, i: nat, z: nat, cuts: set<int>)
    requires ValidMarker(m) && Find(m, a) == |a| && CutsAt(m, a, b, i) && forall c :: c in cuts ==> c <= |a|
    requires z == i + SentinelLen(m, (a + b)[i..]) - |a| <= |b|
    ensures DrainCut(m, a + b, cuts + {|a|}) == After(a + b[..z], [], Drain(m, b[z..]))
  {
    hide SentinelLen, Code, Find, Drain, DrainCut, Shifted, Hits, Harmless, After;
    var q := |a| + z;
    CutFirst(m, a, b, i);
    HitsAt(cuts, |a|, i + |m|, q);
    ShiftedBound(cuts + {|a|}, q, |a|);
    PassedIsHarmless(m, (a + b)[q..], Shifted(cuts + {|a|}, q));
    CutOnly(m, a + b, cuts + {|a|}, i, q);
    SlicesBehind(a, b, z);
  }

  /** A first sentinel that is cut, with nothing cut behind it. */
  lemma {:induction false} CutOnly(m: Bytes, s: Bytes, cuts: set<int>, p: nat, q: nat)
    requires Find(m, s) == p < |s| && q == p + SentinelLen(m, s[p..]) && Hits(cuts, p + |m|, q)
    requires Harmless(m, s[q..], Shifted(cuts, q))
    ensures DrainCut(m, s, cuts) == After(s[..q], [], Drain(m, s[q..]))
  {
    hide SentinelLen, Code, Find, Drain, DrainCut, Shifted, Hits, Harmless, After;
    DrainCutOne(m, s, cuts);
    HarmlessDrain(m, s[q..], Shifted(cuts, q));
  }

  lemma SlicesBehind(a: Bytes, b: Bytes, z: nat)
    requires z <= |b|
    ensures (a + b)[|a| + z..] == b[z..] && (a + b)[..|a| + z] == a + b[..z]
  {
  }

  lemma HitsAt(cuts: set<int>, c: int, from: int, to: int)
    requires from < c < to
    ensures Hits(cuts + {c}, from, to)
  {
    assert c in cuts + {c};
  }

  /** With nothing kept, a buffer without a sentinel is output whole. */
  lemma TailEmitsAll(m: Bytes, a: Bytes)
    requires DrainTail(m, a).rest == []
    ensures DrainTail(m, a) == Frame(a, [], [])
  {
    hide Keep;
    var f := DrainTail(m, a);
    assert a == f.emit + f.rest;
  }

  lemma {:induction false} BoundariesBound(cs: seq<Bytes>)
    ensures forall c :: c in Boundaries(cs) ==> 0 <= c <= |Concat(cs)|
  {
    if cs != [] {
      BoundariesBound(cs[..|cs| - 1]);
    }
  }

  /**
   Exactly what chunking does: framing chunk by chunk is framing the whole stream, except that a sentinel
   with a boundary inside its code is resolved to nothing and output as it stands.
   */
  lemma {:induction false} ChunkedIsCutFraming(m: Bytes, cs: seq<Bytes>)
    requires ValidMarker(m)
    ensures Feed(m, cs) == DrainCut(m, Concat(cs), Boundaries(cs))
  {
    if cs == [] {
      assert Find(m, []) == 0;
    } else {
      var init := cs[..|cs| - 1];
      ChunkedIsCutFraming(m, init);
      BoundariesBound(init);
      OneMoreCut(m, Concat(init), cs[|cs| - 1], Boundaries(init));
    }
  }

  // ---------------------------------------------------------------------
  // The stream a shell produces
  // ---------------------------------------------------------------------

  function ToDecimal(n: nat): (ds: Bytes)
    ensures ds != [] && forall i :: 0 <= i < |ds| ==> IsDigit(ds[i])
  {
    if n < 10 then [(48 + n) as byte] else ToDecimal(n / 10) + [(48 + n % 10) as byte]
  }

  lemma {:induction false} DecimalRoundTrip(n: nat)
    ensures Decimal(ToDecimal(n)) == n
  {
    if n >= 10 {
      DecimalRoundTrip(n / 10);
      var ds := ToDecimal(n);
      assert ds[..|ds| - 1] == ToDecimal(n / 10);
    }
  }

  /** The shape of a sentinel: the marker, digits, and LF or CR LF. */
  ghost predicate IsSentinel(m: Bytes, t: Bytes, ds: Bytes, e: Bytes) {
    && ds != [] && (forall i :: 0 <= i < |ds| ==> 48 <= ds[i] <= 57)
    && (e == [10] || e == [13, 10])
    && m + (ds + e) <= t
  }

  /** A sentinel is recognised exactly where one stands, in its whole length and with its code. */
  lemma {:induction false} SentinelIff(m: Bytes, t: Bytes)
    ensures SentinelLen(m, t) > 0 <==> exists ds, e :: IsSentinel(m, t, ds, e)
    ensures forall ds, e :: IsSentinel(m, t, ds, e) ==> SentinelLen(m, t) == |m| + |ds| + |e| && Code(m, t) == Decimal(ds)
  {
    forall ds, e | IsSentinel(m, t, ds, e)
      ensures SentinelLen(m, t) == |m| + |ds| + |e| > 0 && Code(m, t) == Decimal(ds)
    {
      SentinelHere(m, t, ds, e);
    }
    if SentinelLen(m, t) > 0 {
      SentinelParts(m, t);
    }
  }

  lemma {:induction false} SentinelHere(m: Bytes, t: Bytes, ds: Bytes, e: Bytes)
    requires IsSentinel(m, t, ds, e)
    ensures SentinelLen(m, t) == |m| + |ds| + |e| > 0 && Code(m, t) == Decimal(ds)
  {
    hide Digits, Decimal, SentinelLen, Code, LineEnd;
    var x := t[|m| + |ds| + |e|..];
    SentinelSlices(m, ds, e, t);
    assert forall i :: 0 <= i < |ds| ==> IsDigit(ds[i]);
    EndsThere(e, x);
    DigitsOfRun(ds, e + x);
    SentinelOf(m, t, ds, e, x);
  }

  lemma {:induction false} SentinelSlices(m: Bytes, ds: Bytes, e: Bytes, t: Bytes)
    requires m + (ds + e) <= t
    ensures var x := t[|m| + |ds| + |e|..];
            m <= t && t[|m|..] == ds + (e + x) && t[|m| + |ds|..] == e + x && t[|m|..][..|ds|] == ds
  {
  }

  lemma EndsThere(e: Bytes, x: Bytes)
    requires e == [10] || e == [13, 10]
    ensures LineEnd(e + x) == |e| && !IsDigit((e + x)[0])
  {
  }

  lemma {:induction false} SentinelOf(m: Bytes, t: Bytes, ds: Bytes, e: Bytes, x: Bytes)
    requires m <= t && t[|m|..] == ds + (e + x) && t[|m| + |ds|..] == e + x && t[|m|..][..|ds|] == ds
    requires Digits(ds + (e + x)) == |ds| > 0 && LineEnd(e + x) == |e| > 0
    ensures SentinelLen(m, t) == |m| + |ds| + |e|
    ensures (forall i :: 0 <= i < |ds| ==> IsDigit(ds[i])) ==> Code(m, t) == Decimal(ds)
  {
    hide Digits, Decimal, LineEnd;
  }

  lemma {:induction false} SentinelParts(m: Bytes, t: Bytes)
    requires SentinelLen(m, t) > 0
    ensures exists ds, e :: IsSentinel(m, t, ds, e)
  {
    hide Digits;
    var u := t[|m|..];
    var ds := u[..Digits(u)];
    var end := t[|m| + |ds|..];
    var e := end[..LineEnd(end)];
    assert forall i :: 0 <= i < |ds| ==> IsDigit(u[i]);
    assert m + (ds + e) == t[..|m| + |ds| + |e|];
    assert IsSentinel(m, t, ds, e);
  }

  /** Leading zeros do not count; with the round trip this fixes the code of every run of digits. */
  lemma {:induction false} LeadingZero(ds: Bytes)
    requires forall i :: 0 <= i < |ds| ==> IsDigit(ds[i])
    ensures Decimal([48] + ds) == Decimal(ds)
  {
    if ds == [] {
      assert [48] + ds == [48] && [48 as byte][..0] == [];
    } else {
      assert ([48] + ds)[..|ds|] == [48] + ds[..|ds| - 1];
      LeadingZero(ds[..|ds| - 1]);
    }
  }

  /** One finished command: what it printed and the code it exited with. */
  datatype Finished = Finished(text: Bytes, code: nat)

  function SentinelLine(m: Bytes, code: nat): Bytes {
    m + (ToDecimal(code) + [LF])
  }

  function Transcript(m: Bytes, commands: seq<Finished>, tail: Bytes): Bytes {
    if commands == [] then tail
    else commands[0].text + (SentinelLine(m, commands[0].code) + Transcript(m, commands[1..], tail))
  }

  function Texts(commands: seq<Finished>): Bytes {
    if commands == [] then [] else commands[0].text + Texts(commands[1..])
  }

  function Codes(commands: seq<Finished>): seq<nat> {
    if commands == [] then [] else [commands[0].code] + Codes(commands[1..])
  }

  lemma {:induction false} DigitsOfRun(ds: Bytes, x: Bytes)
    requires forall i :: 0 <= i < |ds| ==> IsDigit(ds[i])
    requires x != [] && !IsDigit(x[0])
    ensures Digits(ds + x) == |ds|
  {
    if ds != [] {
      assert (ds + x)[1..] == ds[1..] + x;
      DigitsOfRun(ds[1..], x);
    } else {
      assert ds + x == x;
    }
  }

  lemma SentinelLineRecognised(m: Bytes, code: nat, x: Bytes)
    requires ValidMarker(m)
    ensures SentinelLen(m, SentinelLine(m, code) + x) == |SentinelLine(m, code)| > 0
    ensures Code(m, SentinelLine(m, code) + x) == code
  {
    var ds := ToDecimal(code);
    var t := SentinelLine(m, code) + x;
    assert t[|m|..] == ds + ([LF] + x);
    DigitsOfRun(ds, [LF] + x);
    assert t[|m|..][..|ds|] == ds;
    assert t[|m| + |ds|..] == [LF] + x;
    DecimalRoundTrip(code);
  }

  /** Bytes free of the control byte begin no sentinel. */
  lemma QuietIsPlain(m: Bytes, x: Bytes, y: Bytes)
    requires ValidMarker(m) && 1 !in x
    ensures Plain(m, x, y)
  {
    forall i | 0 <= i < |x|
      ensures SentinelLen(m, (x + y)[i..]) == 0 && !((x + y)[i..] <= m)
    {
      assert (x + y)[i..][0] == x[i];
    }
  }

  lemma DrainsLine(m: Bytes, code: nat, rest: Bytes)
    requires ValidMarker(m)
    ensures Drain(m, SentinelLine(m, code) + rest) == After([], [code], Drain(m, rest))
  {
    hide SentinelLen, Code, SentinelLine, Find, Drain;
    var s := SentinelLine(m, code) + rest;
    SentinelLineRecognised(m, code, rest);
    assert s[0..] == s && s[..0] == [] && s[|SentinelLine(m, code)|..] == rest;
    FindUnique(m, s, 0);
    DrainOne(m, s, [], []);
    AfterNothing(Drain(m, s));
    assert [] + [code] == [code];
  }

  lemma QuietDrains(m: Bytes, x: Bytes)
    requires ValidMarker(m) && 1 !in x
    ensures Drain(m, x) == Frame(x, [], [])
  {
    assert Drain(m, []) == Frame([], [], []);
    hide SentinelLen, Code, SentinelLine, Find, Drain;
    assert x + [] == x;
    QuietIsPlain(m, x, []);
    DrainSkips(m, x, []);
  }

  /** Framing inverts the shell: output and exit codes come back exactly. */
  lemma {:induction false} TranscriptRoundTrip(m: Bytes, commands: seq<Finished>, tail: Bytes)
    requires ValidMarker(m) && 1 !in tail && forall c :: c in commands ==> 1 !in c.text
    ensures Drain(m, Transcript(m, commands, tail)) == Frame(Texts(commands) + tail, [], Codes(commands))
  {
    hide SentinelLen, Code, SentinelLine, Find, Drain;
    if commands == [] {
      QuietDrains(m, tail);
    } else {
      var c, rest := commands[0], Transcript(m, commands[1..], tail);
      QuietIsPlain(m, c.text, SentinelLine(m, c.code) + rest);
      DrainSkips(m, c.text, SentinelLine(m, c.code) + rest);
      DrainsLine(m, c.code, rest);
      TranscriptRoundTrip(m, commands[1..], tail);
      AfterTwice(c.text, [], [], [c.code], Drain(m, rest));
      assert c.text + [] == c.text && [] + [c.code] == [c.code];
      assert c.text + (Texts(commands[1..]) + tail) == Texts(commands) + tail;
    }
  }

  /** The failing family at its smallest: the line end of a sentinel arrives one chunk late. */
  lemma LateLineEndLosesCode(m: Bytes, code: nat)
    requires ValidMarker(m)
    ensures |Feed(m, [m + ToDecimal(code), [LF]]).codes| == 0
    ensures Drain(m, Concat([m + ToDecimal(code), [LF]])).codes == [code]
  {
    hide SentinelLen, Code, Drain, Feed, Find;
    var a, b: Bytes := m + ToDecimal(code), [LF];
    var cs := [a, b];
    assert cs[..1] == [a] && [a][..0] == [];
    assert Concat([a]) == [] + a == a;
    assert Concat(cs) == a + b == SentinelLine(m, code) + [] == Transcript(m, [Finished([], code)], []) by {
      assert Transcript(m, [Finished([], code)], []) == [] + (SentinelLine(m, code) + []);
    }
    SentinelLineRecognised(m, code, []);
    assert (a + b)[0..] == a + b;
    assert CutsAt(m, a, b, 0);
    assert CodeCuts(m, cs) >= 1;
    ChunkedFraming(m, cs);
    TranscriptRoundTrip(m, [Finished([], code)], []);
    assert Codes([Finished([], code)]) == [code];
  }
}
