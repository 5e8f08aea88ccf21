/**
 The inbound flood guard of the connection manager: one token bucket per client,
 lazily created full, refilled by the clock and dropped on disconnect.

 The main result is exactness: over every interleaving of calls of all clients and
 disconnects, a call is refused precisely when some earlier call of the same bucket
 lifetime opens a window that has already used up its allowance.
 */
module InboundGuard {

  type ClientId = string

  const CAPACITY: real := 100.0

  /** Tokens gained in `dt` seconds, at 50 a second. */
  function Refill(dt: real): real {
    50.0 * dt
  }

  datatype Bucket = Bucket(tokens: real, refillAt: real)

  type Table = map<ClientId, Bucket>

  datatype Event =
    | Call(client: ClientId, now: real)
    | Reap(client: ClientId)

  /** Tokens the client can spend at `now`, after the refill and before spending. */
  function Available(table: Table, client: ClientId, now: real): real {
    var last := if client in table then table[client].refillAt else now;
    var tokens := (if client in table then table[client].tokens else CAPACITY) + Refill(now - last);
    if tokens < CAPACITY then tokens else CAPACITY
  }

  predicate Allows(table: Table, client: ClientId, now: real) {
    Available(table, client, now) >= 1.0
  }

  function Apply(table: Table, e: Event): Table {
    match e
    case Call(client, now) =>
      var tokens := Available(table, client, now);
      table[client := Bucket(if Allows(table, client, now) then tokens - 1.0 else tokens, now)]
    case Reap(client) => table - {client}
  }

  /** The two dictionaries the manager keeps, updated in place. */
  class RateLimiter {
    var inboundTokens: map<ClientId, real>
    var inboundRefillAt: map<ClientId, real>

    ghost predicate Valid()
      reads this
    {
      inboundTokens.Keys == inboundRefillAt.Keys
    }

    ghost function Buckets(): Table
      requires Valid()
      reads this
    {
      map c | c in inboundTokens :: Bucket(inboundTokens[c], inboundRefillAt[c])
    }

    constructor ()
      ensures Valid() && Buckets() == map[]
    {
      inboundTokens, inboundRefillAt := map[], map[];
    }

    method AllowInbound(client: ClientId, now: real) returns (ok: bool)
      requires Valid()
      modifies this
      ensures Valid()
      ensures ok == Allows(old(Buckets()), client, now)
      ensures Buckets() == Apply(old(Buckets()), Call(client, now))
    {
      var last := if client in inboundRefillAt then inboundRefillAt[client] else now;
      var held := if client in inboundTokens then inboundTokens[client] else CAPACITY;
      var tokens := held + Refill(now - last);
      if CAPACITY < tokens {
        tokens := CAPACITY;
      }
      inboundRefillAt := inboundRefillAt[client := now];
      if tokens < 1.0 {
        inboundTokens := inboundTokens[client := tokens];
        return false;
      }
      inboundTokens := inboundTokens[client := tokens - 1.0];
      return true;
    }

    method Drop(client: ClientId)
      requires Valid()
      modifies this
      ensures Valid()
      ensures Buckets() == Apply(old(Buckets()), Reap(client))
    {
      inboundTokens := inboundTokens - {client};
      inboundRefillAt := inboundRefillAt - {client};
    }
  }

  // ---------------------------------------------------------------------
  // Whole runs
  // ---------------------------------------------------------------------

  /** The table after a run that starts with no bucket at all. */
  function Run(es: seq<Event>): Table {
    if es == [] then map[] else Apply(Run(es[..|es| - 1]), es[|es| - 1])
  }

  /** Whether event `k` of the run is a call the guard lets through. */
  predicate Accepted(es: seq<Event>, k: nat)
    requires k < |es|
  {
    es[k].Call? && Allows(Run(es[..k]), es[k].client, es[k].now)
  }

  /** How many calls of `c` among events `j..k` were let through. */
  function AcceptedIn(es: seq<Event>, c: ClientId, j: nat, k: nat): nat
    requires j <= k <= |es|
  {
    if j == k then 0
    else AcceptedIn(es, c, j, k - 1) + (if es[k - 1].client == c && Accepted(es, k - 1) then 1 else 0)
  }

  /** A monotonic clock: call times never go back, whoever calls. */
  ghost predicate Monotonic(es: seq<Event>) {
    forall i, j :: 0 <= i < j < |es| && es[i].Call? && es[j].Call? ==> es[i].now <= es[j].now
  }

  /** Event `j` is a call of `c` and its bucket is not dropped before event `k`. */
  ghost predicate SameLifetime(es: seq<Event>, c: ClientId, j: int, k: int)
    requires k <= |es|
  {
    && 0 <= j < |es|
    && es[j].Call? && es[j].client == c
    && forall i :: j < i < k ==> es[i] != Reap(c)
  }

  /** What a window opened by call `j` still allows at `now`. */
  function Allowance(es: seq<Event>, c: ClientId, j: nat, k: nat, now: real): real
    requires j <= k <= |es| && j < |es| && es[j].Call?
  {
    CAPACITY + Refill(now - es[j].now) - AcceptedIn(es, c, j, k) as real
  }

  lemma RunSnoc(es: seq<Event>, k: nat)
    requires k < |es|
    ensures Run(es[..k + 1]) == Apply(Run(es[..k]), es[k])
  {
    assert es[..k + 1][..k] == es[..k];
  }

  /** A dropped bucket is full again, whatever the clock says. */
  lemma ReapedIsFull(es: seq<Event>, c: ClientId, now: real)
    ensures Allows(Run(es + [Reap(c)]), c, now)
  {
    assert (es + [Reap(c)])[..|es|] == es;
  }

  /** The bucket never holds a negative balance. */
  lemma {:induction false} BalanceNonNegative(es: seq<Event>, k: nat, c: ClientId, now: real)
    requires k <= |es| && Monotonic(es)
    requires forall i :: 0 <= i < k && es[i].Call? ==> es[i].now <= now
    ensures Available(Run(es[..k]), c, now) >= 0.0
  {
    if k > 0 {
      RunSnoc(es, k - 1);
      if es[k - 1].Call? && es[k - 1].client == c {
        BalanceNonNegative(es, k - 1, c, es[k - 1].now);
      } else {
        BalanceNonNegative(es, k - 1, c, now);
      }
    }
  }

  /**
   The bucket holds exactly the tightest allowance of its lifetime: no open window
   allows less, and the returned window `w` allows just that (`w == k` stands for the
   capacity itself).
   */
  lemma {:induction false} BalanceIsTightestWindow(es: seq<Event>, k: nat, c: ClientId, now: real) returns (w: nat)
    requires k <= |es| && Monotonic(es)
    requires forall i :: 0 <= i < k && es[i].Call? ==> es[i].now <= now
    ensures forall j :: 0 <= j < k && SameLifetime(es, c, j, k) ==>
      Available(Run(es[..k]), c, now) <= Allowance(es, c, j, k, now)
    ensures w == k ==> Available(Run(es[..k]), c, now) == 100.0
    ensures w != k ==> w < k && SameLifetime(es, c, w, k)
                       && Available(Run(es[..k]), c, now) == Allowance(es, c, w, k, now)
  {
    if k == 0 {
      return 0;
    }
    var e := es[k - 1];
    RunSnoc(es, k - 1);
    var before := Run(es[..k - 1]);
    if e.client != c {
      w := BalanceIsTightestWindow(es, k - 1, c, now);
      assert Available(Run(es[..k]), c, now) == Available(before, c, now);
      forall j | 0 <= j < k && SameLifetime(es, c, j, k)
        ensures Available(Run(es[..k]), c, now) <= Allowance(es, c, j, k, now)
      {
        assert j < k - 1 && SameLifetime(es, c, j, k - 1);
      }
      w := if w == k - 1 then k else w;
    } else if e.Reap? {
      assert forall j :: 0 <= j < k ==> !SameLifetime(es, c, j, k) by {
        assert es[k - 1] == Reap(c);
      }
      w := k;
    } else {
      w := BalanceIsTightestWindow(es, k - 1, c, e.now);
      forall j | 0 <= j < k && SameLifetime(es, c, j, k)
        ensures Available(Run(es[..k]), c, now) <= Allowance(es, c, j, k, now)
      {
        AllowanceAfterCall(es, k, c, j, now);
        if j < k - 1 {
          assert SameLifetime(es, c, j, k - 1);
        }
      }
      if Available(Run(es[..k]), c, now) == CAPACITY {
        w := k;
      } else {
        AllowanceAfterCall(es, k, c, w, now);
      }
    }
  }

  /** How call `k - 1` moves the balance and every open allowance alike. */
  lemma AllowanceAfterCall(es: seq<Event>, k: nat, c: ClientId, j: nat, now: real)
    requires 0 < k <= |es| && es[k - 1].Call? && es[k - 1].client == c
    requires j < k && es[j].Call?
    ensures var e := es[k - 1];
            var moved := Refill(now - e.now) - if Accepted(es, k - 1) then 1.0 else 0.0;
            var balance := Available(Run(es[..k - 1]), c, e.now) + moved;
            && Available(Run(es[..k]), c, now) == (if balance < CAPACITY then balance else CAPACITY)
            && Allowance(es, c, j, k, now)
               == moved + if j < k - 1 then Allowance(es, c, j, k - 1, e.now) else CAPACITY
  {
    RunSnoc(es, k - 1);
    if j == k - 1 {
      assert AcceptedIn(es, c, k - 1, k - 1) == 0;
    }
  }

  /** Some window of this bucket lifetime would be overdrawn by admitting call `k`. */
  ghost predicate Overdrawn(es: seq<Event>, k: nat)
    requires k < |es| && es[k].Call?
  {
    exists j :: 0 <= j <= k && SameLifetime(es, es[k].client, j, k)
                && AcceptedIn(es, es[k].client, j, k) as real + 1.0
                   > 100.0 + 50.0 * (es[k].now - es[j].now)
  }

  /** Exactness: a call is refused if and only if admitting it would overdraw a window. */
  lemma RefusedIffOverdrawn(es: seq<Event>, k: nat)
    requires k < |es| && es[k].Call? && Monotonic(es)
    ensures !Accepted(es, k) <==> Overdrawn(es, k)
  {
    var c, now := es[k].client, es[k].now;
    var w := BalanceIsTightestWindow(es, k, c, now);
    if !Accepted(es, k) {
      assert w < k && SameLifetime(es, c, w, k);
      assert AcceptedIn(es, c, w, k) as real + 1.0 > 100.0 + 50.0 * (now - es[w].now);
    }
    if Overdrawn(es, k) {
      var j :| 0 <= j <= k && SameLifetime(es, c, j, k)
               && AcceptedIn(es, c, j, k) as real + 1.0 > 100.0 + 50.0 * (now - es[j].now);
      assert j < k;
      assert Available(Run(es[..k]), c, now) <= Allowance(es, c, j, k, now);
    }
  }

  /** The rate bound: a window of length T lets through at most 100 + 50 T calls. */
  lemma WindowBound(es: seq<Event>, c: ClientId, i: nat, k: nat)
    requires i <= k < |es| && Monotonic(es)
    requires es[k].Call? && es[k].client == c && SameLifetime(es, c, i, k)
    ensures AcceptedIn(es, c, i, k + 1) as real <= 100.0 + 50.0 * (es[k].now - es[i].now)
  {
    var now := es[k].now;
    var _ := BalanceIsTightestWindow(es, k, c, now);
    BalanceNonNegative(es, k, c, now);
    if i == k {
      assert AcceptedIn(es, c, i, k) == 0;
    } else {
      assert Available(Run(es[..k]), c, now) <= Allowance(es, c, i, k, now);
    }
  }
}
