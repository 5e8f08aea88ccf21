/**
 The in-session access heatmap: an insertion-ordered map from `project::path` to a count, each
 bump moving its key to the end and evicting the oldest key on overflow.
 */
module AccessHeatmap {

  type Key = string

  datatype Entry = Entry(key: Key, count: nat)

  function KeyOf(project: string, path: string): Key {
    project + "::" + path
  }

  function Index(entries: seq<Entry>, key: Key): (i: nat)
    ensures i <= |entries| && (i < |entries| ==> entries[i].key == key)
  {
    if entries == [] || entries[0].key == key then 0 else 1 + Index(entries[1..], key)
  }

  function Count(entries: seq<Entry>, key: Key): nat {
    var i := Index(entries, key);
    if i < |entries| then entries[i].count else 0
  }

  function Without(entries: seq<Entry>, key: Key): seq<Entry> {
    var i := Index(entries, key);
    if i < |entries| then entries[..i] + entries[i + 1..] else entries
  }

  function Bumped(entries: seq<Entry>, key: Key, max: int): seq<Entry> {
    var moved := Without(entries, key) + [Entry(key, Count(entries, key) + 1)];
    if |moved| > max then moved[1..] else moved
  }

  /** The keys a call bumps: empty paths are skipped. */
  function BumpedKeys(project: string, paths: seq<string>): seq<Key> {
    if paths == [] then []
    else BumpedKeys(project, paths[..|paths| - 1])
         + if paths[|paths| - 1] == "" then [] else [KeyOf(project, paths[|paths| - 1])]
  }

  /** The map after bumping `keys`, one after the other, starting from `entries`. */
  function BumpedAll(entries: seq<Entry>, keys: seq<Key>, max: int): seq<Entry> {
    if keys == [] then entries else Bumped(BumpedAll(entries, keys[..|keys| - 1], max), keys[|keys| - 1], max)
  }

  class SessionAccessHeatmap {
    var counts: seq<Entry>
    const maxEntries: int

    constructor (maxEntries: int)
      ensures counts == [] && this.maxEntries == maxEntries
    {
      counts := [];
      this.maxEntries := maxEntries;
    }

    method Bump(project: string, paths: seq<string>)
      modifies this
      ensures counts == BumpedAll(old(counts), BumpedKeys(project, paths), maxEntries)
    {
      hide Bumped;
      for i := 0 to |paths|
        invariant counts == BumpedAll(old(counts), BumpedKeys(project, paths[..i]), maxEntries)
      {
        BumpedKeysSnoc(project, paths, i);
        if paths[i] == "" {
          continue;
        }
        BumpOne(KeyOf(project, paths[i]));
        ghost var keys := BumpedKeys(project, paths[..i + 1]);
        assert keys[..|keys| - 1] == BumpedKeys(project, paths[..i]);
      }
      assert paths[..|paths|] == paths;
    }

    method BumpOne(key: Key)
      modifies this
      ensures counts == Bumped(old(counts), key, maxEntries)
    {
      var count := Count(counts, key) + 1;
      counts := Without(counts, key) + [Entry(key, count)];
      if |counts| > maxEntries {
        counts := counts[1..];
      }
    }

    method Get(project: string, path: string) returns (n: nat)
      ensures n == Count(counts, KeyOf(project, path))
    {
      n := Count(counts, KeyOf(project, path));
    }
  }

  /** A call bumps its paths in order, each under the project, and skips the empty ones. */
  lemma {:induction false} BumpedKeysOf(project: string, a: seq<string>, path: string, b: seq<string>)
    ensures BumpedKeys(project, a + [path] + b)
         == BumpedKeys(project, a) + (if path == "" then [] else [project + "::" + path]) + BumpedKeys(project, b)
    decreases |b|
  {
    var all := a + [path] + b;
    if b == [] {
      assert all[..|all| - 1] == a;
    } else {
      assert all[..|all| - 1] == a + [path] + b[..|b| - 1];
      BumpedKeysOf(project, a, path, b[..|b| - 1]);
    }
  }

  lemma BumpedKeysSnoc(project: string, paths: seq<string>, i: nat)
    requires i < |paths|
    ensures BumpedKeys(project, paths[..i + 1])
         == if paths[i] == "" then BumpedKeys(project, paths[..i])
            else BumpedKeys(project, paths[..i]) + [KeyOf(project, paths[i])]
  {
    assert paths[..i + 1][..i] == paths[..i];
    assert BumpedKeys(project, paths[..i]) + [] == BumpedKeys(project, paths[..i]);
  }

  // ---------------------------------------------------------------------
  // The history it stands for
  // ---------------------------------------------------------------------

  function Keys(entries: seq<Entry>): (keys: seq<Key>)
    ensures |keys| == |entries|
  {
    seq(|entries|, i requires 0 <= i < |entries| => entries[i].key)
  }

  function KeyIndex(keys: seq<Key>, k: Key): (i: nat)
    ensures i <= |keys| && (i < |keys| ==> keys[i] == k) && (i == |keys| ==> k !in keys)
  {
    if keys == [] || keys[0] == k then 0 else 1 + KeyIndex(keys[1..], k)
  }

  function WithoutAt(keys: seq<Key>, i: int): seq<Key> {
    if 0 <= i < |keys| then keys[..i] + keys[i + 1..] else keys
  }

  function Removed(keys: seq<Key>, k: Key): seq<Key> {
    WithoutAt(keys, KeyIndex(keys, k))
  }

  /** The distinct keys of a trace, least recently bumped first. */
  function Recent(trace: seq<Key>): seq<Key> {
    if trace == [] then [] else Removed(Recent(trace[..|trace| - 1]), trace[|trace| - 1]) + [trace[|trace| - 1]]
  }

  ghost predicate Distinct(keys: seq<Key>) {
    forall i, j :: 0 <= i < j < |keys| ==> keys[i] != keys[j]
  }

  function Min(a: int, b: int): int {
    if a < b then a else b
  }

  /** How many keys stay resident out of `n` distinct ones. */
  function Room(n: nat, max: int): nat {
    if max <= 0 then 0 else Min(n, max)
  }

  lemma {:induction false} IndexInKeys(entries: seq<Entry>, key: Key)
    ensures Index(entries, key) == KeyIndex(Keys(entries), key)
  {
    if entries != [] && entries[0].key != key {
      IndexInKeys(entries[1..], key);
      assert Keys(entries)[1..] == Keys(entries[1..]);
    }
  }

  lemma KeysOfAppend(a: seq<Entry>, b: seq<Entry>)
    ensures Keys(a + b) == Keys(a) + Keys(b)
  {
  }

  lemma KeysOfSlice(a: seq<Entry>, i: nat, j: nat)
    requires i <= j <= |a|
    ensures Keys(a[i..j]) == Keys(a)[i..j]
  {
  }

  lemma KeysOfWithout(entries: seq<Entry>, key: Key)
    ensures Keys(Without(entries, key)) == Removed(Keys(entries), key)
  {
    hide Index, KeyIndex, Keys;
    IndexInKeys(entries, key);
    var i := Index(entries, key);
    KeysOfSlice(entries, 0, |entries|);
    assert entries[..|entries|] == entries;
    if i < |entries| {
      KeysOfAppend(entries[..i], entries[i + 1..]);
      KeysOfSlice(entries, 0, i);
      KeysOfSlice(entries, i + 1, |entries|);
    }
  }

  /** On keys alone, a bump moves its key to the end and drops the first on overflow. */
  lemma BumpedKeysOnly(entries: seq<Entry>, key: Key, max: int)
    ensures var moved := Removed(Keys(entries), key) + [key];
            Keys(Bumped(entries, key, max)) == if |moved| > max then moved[1..] else moved
  {
    hide Without, Removed, Count;
    var last := [Entry(key, Count(entries, key) + 1)];
    KeysOfWithout(entries, key);
    KeysOfAppend(Without(entries, key), last);
    KeysOfSlice(Without(entries, key) + last, 1, |Without(entries, key) + last|);
    assert Keys(last) == [key];
  }

  lemma RemovedDistinct(keys: seq<Key>, k: Key)
    requires Distinct(keys)
    ensures Distinct(Removed(keys, k) + [k])
    ensures forall x :: x in Removed(keys, k) <==> x in keys && x != k
    ensures |Removed(keys, k)| == |keys| - if k in keys then 1 else 0
  {
    var i := KeyIndex(keys, k);
    if i < |keys| {
      var r := Removed(keys, k);
      forall x | x in keys && x != k
        ensures x in r
      {
        var j :| 0 <= j < |keys| && keys[j] == x;
        assert r[if j < i then j else j - 1] == x;
      }
    }
  }

  lemma {:induction false} RecentDistinct(trace: seq<Key>)
    ensures Distinct(Recent(trace))
    ensures forall k :: k in Recent(trace) <==> k in trace
  {
    if trace != [] {
      var init, last := trace[..|trace| - 1], trace[|trace| - 1];
      RecentDistinct(init);
      RemovedDistinct(Recent(init), last);
      assert trace == init + [last];
    }
  }

  lemma KeyIndexUnique(keys: seq<Key>, i: nat)
    requires Distinct(keys) && i < |keys|
    ensures KeyIndex(keys, keys[i]) == i
  {
  }

  /** Moving a key to the end commutes with forgetting a prefix that does not hold it. */
  lemma RemovedSuffix(keys: seq<Key>, d: nat, k: Key)
    requires Distinct(keys) && d <= |keys|
    ensures k in keys[d..] ==> Removed(keys[d..], k) == Removed(keys, k)[d..]
    ensures k !in keys[d..] ==> Removed(keys[d..], k) == keys[d..]
    ensures k !in keys[d..] && k in keys ==> d > 0 && Removed(keys, k)[d - 1..] == keys[d..]
  {
    hide KeyIndex, Removed;
    var i := KeyIndex(keys, k);
    if i < |keys| && d <= i {
      assert keys[d..][i - d] == k && Distinct(keys[d..]);
      RemovedAt(keys[d..], i - d);
      RemovedAt(keys, i);
      assert keys[d..][..i - d] == keys[d..i] && keys[d..][i - d + 1..] == keys[i + 1..];
      assert (keys[..i] + keys[i + 1..])[d..] == keys[d..i] + keys[i + 1..];
    } else {
      assert forall j :: d <= j < |keys| ==> keys[j] != k;
      RemovedAbsent(keys[d..], k);
      if i < |keys| {
        RemovedAt(keys, i);
        assert (keys[..i] + keys[i + 1..])[d - 1..] == keys[d..];
      }
    }
  }

  lemma RemovedAt(keys: seq<Key>, i: nat)
    requires Distinct(keys) && i < |keys|
    ensures Removed(keys, keys[i]) == keys[..i] + keys[i + 1..]
  {
    KeyIndexUnique(keys, i);
  }

  lemma ResidentStep(r: seq<Key>, k: Key, max: int)
    requires Distinct(r)
    ensures var d := |r| - Room(|r|, max);
            var moved := Removed(r[d..], k) + [k];
            var r' := Removed(r, k) + [k];
            (if |moved| > max then moved[1..] else moved) == r'[|r'| - Room(|r'|, max)..]
  {
    hide Removed;
    var d := |r| - Room(|r|, max);
    RemovedDistinct(r, k);
    RemovedSuffix(r, d, k);
    RemovedLength(r[d..], k);
    var moved, r' := Removed(r[d..], k) + [k], Removed(r, k) + [k];
    if k in r[d..] {
      assert k in r;
      assert moved == r'[d..];
    } else if k in r {
      assert moved == r'[d - 1..];
    } else {
      assert Removed(r, k) == r by {
        RemovedAbsent(r, k);
      }
      assert moved == r'[d..];
    }
  }

  lemma RemovedAbsent(keys: seq<Key>, k: Key)
    requires k !in keys
    ensures Removed(keys, k) == keys
  {
  }

  lemma RemovedLength(keys: seq<Key>, k: Key)
    ensures |Removed(keys, k)| == |keys| - if k in keys then 1 else 0
  {
  }

  /** Agreement with history: the resident keys are the most recently bumped distinct ones, in order. */
  lemma {:induction false} ResidentAreMostRecent(trace: seq<Key>, max: int)
    ensures var recent := Recent(trace);
            Keys(BumpedAll([], trace, max)) == recent[|recent| - Room(|recent|, max)..]
  {
    hide Bumped, Removed;
    if trace != [] {
      var init, k := trace[..|trace| - 1], trace[|trace| - 1];
      ResidentAreMostRecent(init, max);
      RecentDistinct(init);
      BumpedKeysOnly(BumpedAll([], init, max), k, max);
      ResidentStep(Recent(init), k, max);
    }
  }

  function KeySet(trace: seq<Key>): set<Key> {
    set k | k in trace
  }

  /** Among the most recently bumped distinct keys, as many as fit. */
  predicate Resident(trace: seq<Key>, k: Key, max: int) {
    var recent := Recent(trace);
    k in recent[|recent| - Room(|recent|, max)..]
  }

  lemma KeySetAppend(a: seq<Key>, b: seq<Key>)
    ensures KeySet(a + b) == KeySet(a) + KeySet(b)
  {
  }

  /** Taking one key out of a sequence and adding it at the end changes nothing about the set. */
  lemma KeySetMoved(keys: seq<Key>, i: nat)
    requires i < |keys|
    ensures KeySet(keys[..i] + keys[i + 1..]) + {keys[i]} == KeySet(keys)
  {
    var a, b := keys[..i], keys[i + 1..];
    assert keys == a + ([keys[i]] + b);
    assert KeySet([keys[i]]) == {keys[i]};
    hide KeySet;
    KeySetAppend(a, b);
    KeySetAppend(a, [keys[i]] + b);
    KeySetAppend([keys[i]], b);
  }

  /** Taking a key out of a sequence, if it is there, and adding it at the end adds it to the set. */
  lemma KeySetRotated(keys: seq<Key>, i: int, last: Key)
    requires 0 <= i < |keys| ==> keys[i] == last
    ensures KeySet(WithoutAt(keys, i) + [last]) == KeySet(keys) + {last}
  {
    assert KeySet([last]) == {last};
    hide KeySet;
    KeySetAppend(WithoutAt(keys, i), [last]);
    if 0 <= i < |keys| {
      KeySetMoved(keys, i);
    }
  }

  /** Where position `q` goes when `last` moves to the end, and what then stands behind it. */
  lemma RemovedTailKeys(r: seq<Key>, q: nat, j: nat, last: Key) returns (p: nat)
    requires q < |r| && j <= |r| && j != q
    ensures var r' := WithoutAt(r, j) + [last];
            p < |r'| && r'[p] == r[q] && r'[p + 1..] == WithoutAt(r[q + 1..], j - q - 1) + [last]
  {
    p := if j < q then q - 1 else q;
    DropAppend(WithoutAt(r, j), [last], p + 1);
    if q < j < |r| {
      DropAppend(r[..j], r[j + 1..], q + 1);
      assert r[..j][q + 1..] == r[q + 1..][..j - q - 1];
      assert r[j + 1..] == r[q + 1..][j - q..];
    } else if j < q {
      assert WithoutAt(r, j)[q..] == r[q + 1..];
    }
  }

  lemma DropAppend(a: seq<Key>, b: seq<Key>, n: nat)
    requires n <= |a|
    ensures (a + b)[n..] == a[n..] + b
  {
  }

  lemma RemovedTail(r: seq<Key>, q: nat, last: Key) returns (p: nat)
    requires q < |r| && r[q] != last
    ensures var r' := Removed(r, last) + [last];
            p < |r'| && r'[p] == r[q] && KeySet(r'[p + 1..]) == KeySet(r[q + 1..]) + {last}
  {
    hide KeyIndex, KeySet;
    var j := KeyIndex(r, last);
    assert Removed(r, last) == WithoutAt(r, j);
    hide *;
    p := RemovedTailKeys(r, q, j, last);
    KeySetRotated(r[q + 1..], j - q - 1, last);
  }

  /** In the recency order, a key is followed by exactly the keys bumped after it. */
  lemma {:induction false} RecentTail(trace: seq<Key>, i: nat) returns (p: nat)
    requires i < |trace| && trace[i] !in trace[i + 1..]
    ensures p < |Recent(trace)| && Recent(trace)[p] == trace[i]
    ensures KeySet(Recent(trace)[p + 1..]) == KeySet(trace[i + 1..])
    decreases |trace|
  {
    hide Removed;
    var n := |trace| - 1;
    var init, last := trace[..n], trace[n];
    if i == n {
      p := |Recent(trace)| - 1;
      assert trace[n + 1..] == Recent(trace)[p + 1..] == [];
    } else {
      assert trace[i + 1..] == init[i + 1..] + [last];
      KeySetAppend(init[i + 1..], [last]);
      assert KeySet([last]) == {last};
      RecentDistinct(init);
      var q := RecentTail(init, i);
      p := RemovedTail(Recent(init), q, last);
    }
  }

  lemma {:induction false} DistinctCount(keys: seq<Key>)
    requires Distinct(keys)
    ensures |KeySet(keys)| == |keys|
  {
    if keys == [] {
      assert KeySet(keys) == {};
    } else {
      DistinctCount(keys[1..]);
      assert keys == [keys[0]] + keys[1..];
      assert KeySet(keys) == {keys[0]} + KeySet(keys[1..]);
      assert keys[0] !in KeySet(keys[1..]);
    }
  }

  /** A key is resident if and only if fewer than the capacity of distinct keys were bumped after it. */
  lemma ResidentIff(trace: seq<Key>, i: nat, max: int)
    requires i < |trace| && trace[i] !in trace[i + 1..]
    ensures Resident(trace, trace[i], max) <==> |KeySet(trace[i + 1..])| < max
  {
    var r := Recent(trace);
    var p := RecentTail(trace, i);
    RecentDistinct(trace);
    hide Recent;
    assert Distinct(r[p + 1..]);
    DistinctCount(r[p + 1..]);
    assert KeySet(r[p + 1..]) == KeySet(trace[i + 1..]);
    var d := |r| - Room(|r|, max);
    if d <= p {
      assert r[d..][p - d] == trace[i];
    }
  }

  // ---------------------------------------------------------------------
  // Counts
  // ---------------------------------------------------------------------

  function Occurrences(trace: seq<Key>, k: Key): nat {
    if trace == [] then 0 else Occurrences(trace[..|trace| - 1], k) + if trace[|trace| - 1] == k then 1 else 0
  }

  /** Bump `s` made `k` resident, and it has stayed so ever since. */
  ghost predicate ResidentSince(trace: seq<Key>, k: Key, max: int, s: nat) {
    && s < |trace| && trace[s] == k && !Resident(trace[..s], k, max)
    && forall i :: s < i <= |trace| ==> Resident(trace[..i], k, max)
  }

  /** A count is the number of bumps since the key last became resident. */
  lemma {:induction false} CountSinceResident(trace: seq<Key>, k: Key, max: int) returns (s: nat)
    requires Resident(trace, k, max)
    ensures ResidentSince(trace, k, max, s)
    ensures Count(BumpedAll([], trace, max), k) == Occurrences(trace[s..], k)
    decreases |trace|
  {
    hide Resident, Count, Bumped;
    EmptyNotResident(k, max);
    var n := |trace| - 1;
    var init, last := trace[..n], trace[n];
    assert trace[..|trace|] == trace;
    assert trace == init + [last];
    CountStep(init, last, k, max);
    if Resident(init, k, max) {
      s := CountSinceResident(init, k, max);
      forall i | s < i <= |trace|
        ensures Resident(trace[..i], k, max)
      {
        if i < |trace| {
          assert trace[..i] == init[..i];
        }
      }
      assert trace[..s] == init[..s];
      assert trace[s..][..n - s] == init[s..];
    } else {
      s := n;
      assert trace[s..][..0] == [];
    }
  }

  lemma EmptyNotResident(k: Key, max: int)
    ensures !Resident([], k, max)
  {
  }

  /** One bump: the bumped key counts on or starts at one; every other resident key keeps its count. */
  lemma CountStep(init: seq<Key>, last: Key, k: Key, max: int)
    requires Resident(init + [last], k, max)
    ensures k != last ==> Resident(init, k, max)
    ensures Count(BumpedAll([], init + [last], max), k)
         == (if Resident(init, k, max) then Count(BumpedAll([], init, max), k) else 0) + if k == last then 1 else 0
  {
    hide Bumped, Resident, Distinct, Keys, Count;
    var trace := init + [last];
    assert trace[..|trace| - 1] == init;
    assert BumpedAll([], trace, max) == Bumped(BumpedAll([], init, max), last, max);
    hide BumpedAll;
    var entries := BumpedAll([], init, max);
    MapShape(init, k, max);
    MapShape(trace, k, max);
    BumpCounts(entries, last, k, max);
    if k !in Keys(entries) {
      AbsentCount(entries, k);
    }
  }

  lemma MapShape(trace: seq<Key>, k: Key, max: int)
    ensures var entries := BumpedAll([], trace, max);
            Distinct(Keys(entries)) && (k in Keys(entries) <==> Resident(trace, k, max))
  {
    hide BumpedAll, Recent, Keys;
    ResidentAreMostRecent(trace, max);
    RecentDistinct(trace);
  }

  lemma InKeysIffIndex(entries: seq<Entry>, k: Key)
    ensures k in Keys(entries) <==> Index(entries, k) < |entries|
  {
    IndexInKeys(entries, k);
    var i := KeyIndex(Keys(entries), k);
    if i < |entries| {
      assert Keys(entries)[i] == k;
    }
  }

  lemma IndexUnique(entries: seq<Entry>, i: nat)
    requires Distinct(Keys(entries)) && i < |entries|
    ensures Index(entries, entries[i].key) == i
  {
    IndexInKeys(entries, entries[i].key);
    KeyIndexUnique(Keys(entries), i);
  }

  /** A bump, seen at one key that is resident afterwards. */
  lemma BumpCounts(entries: seq<Entry>, last: Key, k: Key, max: int)
    requires Distinct(Keys(entries)) && Distinct(Keys(Bumped(entries, last, max)))
    requires k in Keys(Bumped(entries, last, max))
    ensures k != last ==> k in Keys(entries)
    ensures Count(Bumped(entries, last, max), k) == Count(entries, k) + if k == last then 1 else 0
  {
    var next := Bumped(entries, last, max);
    hide Index, Distinct, Keys;
    var i := PlaceOf(next, k);
    CountAt(next, i);
    if k == last {
      CountAt(next, |next| - 1);
    } else {
      assert next[i] in Without(entries, last);
      WithoutIsSubset(entries, last, next[i]);
      var m :| 0 <= m < |entries| && entries[m] == next[i];
      CountAt(entries, m);
      InKeys(entries, m);
    }
  }

  lemma InKeys(entries: seq<Entry>, i: nat)
    requires i < |entries|
    ensures entries[i].key in Keys(entries)
  {
    assert Keys(entries)[i] == entries[i].key;
  }

  lemma CountAt(entries: seq<Entry>, i: nat)
    requires Distinct(Keys(entries)) && i < |entries|
    ensures Count(entries, entries[i].key) == entries[i].count
  {
    IndexUnique(entries, i);
  }

  lemma PlaceOf(entries: seq<Entry>, k: Key) returns (i: nat)
    requires k in Keys(entries)
    ensures i < |entries| && entries[i].key == k
  {
    i :| 0 <= i < |Keys(entries)| && Keys(entries)[i] == k;
  }

  lemma WithoutIsSubset(entries: seq<Entry>, key: Key, e: Entry)
    requires e in Without(entries, key)
    ensures e in entries
  {
  }

  /** If nothing was ever evicted, every count is the total number of bumps. */
  lemma {:induction false} CountsWithoutEviction(trace: seq<Key>, k: Key, max: int)
    requires |Recent(trace)| <= max
    ensures Count(BumpedAll([], trace, max), k) == Occurrences(trace, k)
  {
    hide Bumped, Removed, BumpedAll, Count;
    AllResident(trace, k, max);
    if k in trace {
      var init, last := trace[..|trace| - 1], trace[|trace| - 1];
      assert trace == init + [last];
      RecentDistinct(init);
      RemovedDistinct(Recent(init), last);
      CountStep(init, last, k, max);
      AllResident(init, k, max);
      CountsWithoutEviction(init, k, max);
      if k !in init {
        NeverBumped(init, k);
      }
    } else {
      NeverBumped(trace, k);
    }
  }

  lemma AllResident(trace: seq<Key>, k: Key, max: int)
    requires |Recent(trace)| <= max
    ensures Resident(trace, k, max) <==> k in trace
    ensures k !in trace ==> Count(BumpedAll([], trace, max), k) == 0
  {
    hide Bumped, Removed, BumpedAll, Recent, Count;
    RecentDistinct(trace);
    assert Recent(trace)[0..] == Recent(trace);
    ResidentAreMostRecent(trace, max);
    if k !in trace {
      AbsentCount(BumpedAll([], trace, max), k);
    }
  }

  lemma {:induction false} NeverBumped(trace: seq<Key>, k: Key)
    requires k !in trace
    ensures Occurrences(trace, k) == 0
  {
    if trace != [] {
      NeverBumped(trace[..|trace| - 1], k);
    }
  }

  lemma AbsentCount(entries: seq<Entry>, k: Key)
    requires k !in Keys(entries)
    ensures Count(entries, k) == 0
  {
    InKeysIffIndex(entries, k);
  }

  // ---------------------------------------------------------------------
  // Tenants
  // ---------------------------------------------------------------------

  /** Some pair of files of the two projects shares a key. */
  ghost predicate Collide(p1: string, p2: string) {
    exists f1: string, f2: string :: KeyOf(p1, f1) == KeyOf(p2, f2)
  }

  /** Two projects share a key if and only if one id, with its separator, begins the other. */
  lemma ProjectsCollideIff(p1: string, p2: string)
    ensures Collide(p1, p2) <==> p1 + "::" <= p2 + "::" || p2 + "::" <= p1 + "::"
  {
    if Collide(p1, p2) {
      var f1, f2 :| KeyOf(p1, f1) == KeyOf(p2, f2);
      KeyBeginsWith(p1, f1);
      KeyBeginsWith(p2, f2);
    }
    if p1 + "::" <= p2 + "::" {
      var f := (p2 + "::")[|p1| + 2..];
      assert KeyOf(p1, f) == p2 + "::" == KeyOf(p2, "");
    } else if p2 + "::" <= p1 + "::" {
      var f := (p1 + "::")[|p2| + 2..];
      assert KeyOf(p2, f) == p1 + "::" == KeyOf(p1, "");
    }
  }

  lemma KeyBeginsWith(p: string, f: string)
    ensures p + "::" <= KeyOf(p, f)
  {
  }

  /** Project ids without a colon never share a key, and within one project keys tell files apart. */
  lemma TenantsAreIsolated(p1: string, f1: string, p2: string, f2: string)
    requires ':' !in p1 && ':' !in p2 && KeyOf(p1, f1) == KeyOf(p2, f2)
    ensures p1 == p2 && f1 == f2
  {
    var key := KeyOf(p1, f1);
    FirstColon(p1, f1);
    FirstColon(p2, f2);
    assert |p1| == |p2|;
    assert p1 == key[..|p1|] && p2 == key[..|p2|];
    assert f1 == key[|p1| + 2..] && f2 == key[|p2| + 2..];
  }

  lemma FirstColon(p: string, f: string)
    requires ':' !in p
    ensures var key := KeyOf(p, f);
            |p| < |key| && key[|p|] == ':' && forall i :: 0 <= i < |p| ==> key[i] != ':'
  {
    var key := KeyOf(p, f);
    assert forall i :: 0 <= i < |p| ==> key[i] == p[i];
  }
}
