/**
 The submit-idempotency cache: an insertion-ordered map of recently recorded request ids,
 pruned by age on every call and capped in size. It answers as if it remembered every
 recording ever made.
 */
module RequestDedup {

  const TTL_S: real := 120.0
  const CAP: nat := 256

  datatype Entry = Entry(id: string, at: real)

  /** A call of `_is_duplicate_request`: the id and the clock it reads. */
  datatype Call = Call(id: string, now: real)

  predicate Expired(e: Entry, now: real) {
    now - e.at > TTL_S
  }

  /** Drop expired entries from the old end, stopping at the first live one. */
  function Pruned(entries: seq<Entry>, now: real): seq<Entry> {
    if entries != [] && Expired(entries[0], now) then Pruned(entries[1..], now) else entries
  }

  predicate Holds(entries: seq<Entry>, id: string) {
    exists i :: 0 <= i < |entries| && entries[i].id == id
  }

  /** The newest entries, as many as the cap allows. */
  function Capped(entries: seq<Entry>): seq<Entry> {
    if |entries| > CAP then entries[|entries| - CAP..] else entries
  }

  function After(entries: seq<Entry>, c: Call): seq<Entry> {
    var live := Pruned(entries, c.now);
    if Holds(live, c.id) then live else Capped(live + [Entry(c.id, c.now)])
  }

  /** `OrderedDict` of ids to the time they were recorded, oldest first. */
  class RecentRequests {
    var entries: seq<Entry>

    constructor ()
      ensures entries == []
    {
      entries := [];
    }

    method IsDuplicate(c: Call) returns (duplicate: bool)
      modifies this
      ensures duplicate == Holds(Pruned(old(entries), c.now), c.id)
      ensures entries == After(old(entries), c)
    {
      while entries != []
        invariant Pruned(entries, c.now) == Pruned(old(entries), c.now)
        decreases |entries|
      {
        if c.now - entries[0].at > TTL_S {
          entries := entries[1..];
        } else {
          break;
        }
      }
      assert entries == Pruned(old(entries), c.now);
      if Holds(entries, c.id) {
        return true;
      }
      entries := entries + [Entry(c.id, c.now)];
      ghost var full := entries;
      while |entries| > CAP
        invariant Capped(entries) == Capped(full)
        decreases |entries|
      {
        entries := entries[1..];
      }
      return false;
    }
  }

  function Run(cs: seq<Call>): seq<Entry> {
    if cs == [] then [] else After(Run(cs[..|cs| - 1]), cs[|cs| - 1])
  }

  /** The answer the cache gives to call `c` after the calls `cs`. */
  predicate Answers(cs: seq<Call>, c: Call) {
    Holds(Pruned(Run(cs), c.now), c.id)
  }

  // ---------------------------------------------------------------------
  // The history it stands for
  // ---------------------------------------------------------------------

  /** The id has a recording at most 120 s old with fewer than 256 later ones. */
  predicate Remembered(history: seq<Entry>, c: Call) {
    exists j :: 0 <= j < |history| && history[j].id == c.id && c.now - history[j].at <= 120.0
                && |history| - 1 - j < 256
  }

  /** Every recording ever made, in order: a remembered id is not recorded again. */
  function History(cs: seq<Call>): seq<Entry> {
    if cs == [] then []
    else
      var h, c := History(cs[..|cs| - 1]), cs[|cs| - 1];
      if Remembered(h, c) then h else h + [Entry(c.id, c.now)]
  }

  ghost predicate Monotonic(cs: seq<Call>) {
    forall i, j :: 0 <= i < j < |cs| ==> cs[i].now <= cs[j].now
  }

  ghost predicate TimeSorted(entries: seq<Entry>) {
    forall i, j :: 0 <= i < j < |entries| ==> entries[i].at <= entries[j].at
  }

  ghost predicate DistinctIds(entries: seq<Entry>) {
    forall i, j :: 0 <= i < j < |entries| ==> entries[i].id != entries[j].id
  }

  /** `entries` is the part of the history from `d` on, and nothing before `d` can matter again. */
  ghost predicate Retains(entries: seq<Entry>, h: seq<Entry>, d: nat, now: real) {
    && d <= |h| && entries == h[d..] && |entries| <= CAP
    && TimeSorted(h) && (forall j :: 0 <= j < |h| ==> h[j].at <= now)
    && (forall j :: 0 <= j < d ==> Expired(h[j], now) || |h| - j > CAP)
  }

  lemma {:induction false} PruneRetains(h: seq<Entry>, d: nat, now: real) returns (d': nat)
    requires d <= |h| && TimeSorted(h) && |h| - d <= CAP
    requires forall j :: 0 <= j < |h| ==> h[j].at <= now
    requires forall j :: 0 <= j < d ==> Expired(h[j], now) || |h| - j > CAP
    ensures Retains(Pruned(h[d..], now), h, d', now)
    ensures d <= d' && forall j :: d' <= j < |h| ==> !Expired(h[j], now)
    decreases |h| - d
  {
    if d < |h| && Expired(h[d], now) {
      assert h[d..][1..] == h[d + 1..];
      d' := PruneRetains(h, d + 1, now);
    } else {
      d' := d;
    }
  }

  /** What is live in the retained part is exactly what the history remembers. */
  lemma HoldsIffRemembered(h: seq<Entry>, d: nat, c: Call)
    requires d <= |h| && Retains(h[d..], h, d, c.now) && forall j :: d <= j < |h| ==> !Expired(h[j], c.now)
    ensures Holds(h[d..], c.id) <==> Remembered(h, c)
  {
    if Holds(h[d..], c.id) {
      var i :| 0 <= i < |h[d..]| && h[d..][i].id == c.id;
      assert h[d + i].id == c.id;
    }
    if Remembered(h, c) {
      var j :| 0 <= j < |h| && h[j].id == c.id && !Expired(h[j], c.now) && |h| - 1 - j < CAP;
      assert h[d..][j - d].id == c.id;
    }
  }

  /** One call, against the history: the same answer, and the part retained stays right. */
  lemma CallRefines(h: seq<Entry>, d: nat, before: real, c: Call) returns (d': nat)
    requires d <= |h| && Retains(h[d..], h, d, before) && before <= c.now
    ensures Holds(Pruned(h[d..], c.now), c.id) <==> Remembered(h, c)
    ensures var h' := if Remembered(h, c) then h else h + [Entry(c.id, c.now)];
            Retains(After(h[d..], c), h', d', c.now)
  {
    hide Holds, Pruned;
    var p := PruneRetains(h, d, c.now);
    HoldsIffRemembered(h, p, c);
    if Remembered(h, c) {
      d' := p;
    } else {
      var h' := h + [Entry(c.id, c.now)];
      assert h'[p..] == h[p..] + [Entry(c.id, c.now)];
      if |h'| - p > CAP {
        d' := |h'| - CAP;
        assert h'[p..][|h'| - p - CAP..] == h'[d'..];
      } else {
        d' := p;
      }
    }
  }

  lemma {:induction false} RunRetains(cs: seq<Call>, now: real) returns (d: nat)
    requires Monotonic(cs) && forall i :: 0 <= i < |cs| ==> cs[i].now <= now
    ensures Retains(Run(cs), History(cs), d, if cs == [] then now else cs[|cs| - 1].now)
  {
    if cs == [] {
      return 0;
    }
    var init, c := cs[..|cs| - 1], cs[|cs| - 1];
    var e := RunRetains(init, c.now);
    d := CallRefines(History(init), e, if init == [] then c.now else init[|init| - 1].now, c);
  }

  /** Refinement: the cache answers yes if and only if the full history remembers the id. */
  lemma AnswersFromHistory(cs: seq<Call>, c: Call)
    requires Monotonic(cs + [c])
    ensures Answers(cs, c) <==> Remembered(History(cs), c)
  {
    assert forall i :: 0 <= i < |cs| ==> cs[i] == (cs + [c])[i];
    assert (cs + [c])[|cs|] == c;
    var d := RunRetains(cs, c.now);
    var _ := CallRefines(History(cs), d, if cs == [] then c.now else cs[|cs| - 1].now, c);
  }

  lemma {:induction false} PruneKeepsDistinct(entries: seq<Entry>, now: real)
    requires DistinctIds(entries)
    ensures DistinctIds(Pruned(entries, now))
  {
    if entries != [] && Expired(entries[0], now) {
      PruneKeepsDistinct(entries[1..], now);
    }
  }

  lemma {:induction false} RunKeepsDistinct(cs: seq<Call>)
    ensures DistinctIds(Run(cs))
  {
    if cs != [] {
      RunKeepsDistinct(cs[..|cs| - 1]);
      PruneKeepsDistinct(Run(cs[..|cs| - 1]), cs[|cs| - 1].now);
    }
  }

  /** The map stays bounded, sorted by time and free of duplicate keys. */
  lemma CacheShape(cs: seq<Call>)
    requires Monotonic(cs)
    ensures |Run(cs)| <= 256 && TimeSorted(Run(cs)) && DistinctIds(Run(cs))
  {
    RunKeepsDistinct(cs);
    if cs != [] {
      var d := RunRetains(cs, cs[|cs| - 1].now);
    }
  }

  /** A repeat does not renew the recording: seen 30 s ago, the third call is taken for a new request. */
  lemma RepeatDoesNotRenew(id: string)
    ensures var cs := [Call(id, 0.0), Call(id, 100.0)];
            Answers([Call(id, 0.0)], cs[1]) && !Answers(cs, Call(id, 130.0))
  {
    var first := Call(id, 0.0);
    var e := [Entry(id, 0.0)];
    assert [first][..0] == [] && [first, Call(id, 100.0)][..1] == [first];
    assert Run([first]) == e;
    assert e[0].id == id && Holds(Pruned(e, 100.0), id);
    assert Run([first, Call(id, 100.0)]) == e;
    assert Pruned(e, 130.0) == [];
  }
}
