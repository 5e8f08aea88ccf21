/**
 The flood guard in front of the consolidation registry: a file update counts as a save only if the
 client's token bucket lets it through. An update that is shed invalidates nothing, so what a commit
 may have missed is exactly what the guard shed.
 */
module GuardedSaves {
  import C = Consolidation
  import G = InboundGuard

  datatype Event =
    | Update(client: string, now: real)       // a file update arrives
    | BucketDropped(client: string)           // a close reaps an id; it need not be the registry's client
    | Other(event: C.Event)

  /** What the guard sees of a run. */
  function GuardOf(es: seq<Event>): seq<G.Event> {
    if es == [] then []
    else
      GuardOf(es[..|es| - 1]) +
      match es[|es| - 1]
      case Update(client, now) => [G.Call(client, now)]
      case BucketDropped(client) => [G.Reap(client)]
      case Other(_) => []
  }

  /** The update gets past the guard. */
  predicate Admitted(es: seq<Event>, k: nat)
    requires k < |es| && es[k].Update?
  {
    G.Allows(G.Run(GuardOf(es[..k])), es[k].client, es[k].now)
  }

  /** What the registry sees of a run. */
  function RegistryOf(es: seq<Event>): seq<C.Event> {
    if es == [] then []
    else
      RegistryOf(es[..|es| - 1]) +
      match es[|es| - 1]
      case Update(client, _) => if Admitted(es, |es| - 1) then [C.Save(client)] else []
      case BucketDropped(_) => []
      case Other(e) => [e]
  }

  /** Update times never go back. */
  ghost predicate Monotonic(es: seq<Event>) {
    forall i, j :: 0 <= i < j < |es| && es[i].Update? && es[j].Update? ==> es[i].now <= es[j].now
  }

  lemma {:induction false} GuardPrefix(es: seq<Event>, k: nat)
    requires k <= |es|
    ensures GuardOf(es[..k]) <= GuardOf(es)
    ensures forall i :: |GuardOf(es[..k])| <= i < |GuardOf(es)| && GuardOf(es)[i].Call? ==>
              exists j :: k <= j < |es| && es[j].Update? && es[j].now == GuardOf(es)[i].now
  {
    if k == |es| {
      assert es[..k] == es;
    } else {
      var init := es[..|es| - 1];
      GuardPrefix(init, k);
      assert init[..k] == es[..k];
      forall i | |GuardOf(es[..k])| <= i < |GuardOf(es)| && GuardOf(es)[i].Call?
        ensures exists j :: k <= j < |es| && es[j].Update? && es[j].now == GuardOf(es)[i].now
      {
        if i < |GuardOf(init)| {
          var j :| k <= j < |init| && init[j].Update? && init[j].now == GuardOf(init)[i].now;
          assert es[j] == init[j];
        } else {
          assert es[|es| - 1].Update?;
        }
      }
    }
  }

  lemma {:induction false} GuardMonotonic(es: seq<Event>)
    requires Monotonic(es)
    ensures G.Monotonic(GuardOf(es))
  {
    if es != [] {
      var init, e := es[..|es| - 1], es[|es| - 1];
      assert forall i :: 0 <= i < |init| ==> init[i] == es[i];
      GuardMonotonic(init);
      GuardPrefix(init, 0);
      assert GuardOf(init[..0]) == [];
      var g, h := GuardOf(init), GuardOf(es);
      forall i, j | 0 <= i < j < |h| && h[i].Call? && h[j].Call?
        ensures h[i].now <= h[j].now
      {
        assert h[i] == g[i];
        if j == |g| {
          var u :| 0 <= u < |init| && init[u].Update? && init[u].now == g[i].now;
          assert es[u] == init[u] && es[u].now <= e.now;
        } else {
          assert h[j] == g[j];
        }
      }
    }
  }

  /** An update is admitted if and only if it overdraws no window of its client's bucket. */
  lemma AdmittedIffNotOverdrawn(es: seq<Event>, k: nat)
    requires k < |es| && es[k].Update? && Monotonic(es)
    ensures |GuardOf(es[..k])| < |GuardOf(es[..k + 1])| && GuardOf(es[..k + 1])[|GuardOf(es[..k])|].Call?
    ensures Admitted(es, k) <==> !G.Overdrawn(GuardOf(es[..k + 1]), |GuardOf(es[..k])|)
  {
    assert es[..k + 1][..k] == es[..k];
    var g, h := GuardOf(es[..k]), GuardOf(es[..k + 1]);
    assert h == g + [G.Call(es[k].client, es[k].now)] && h[..|g|] == g;
    assert Monotonic(es[..k + 1]) by {
      assert forall i :: 0 <= i <= k ==> es[..k + 1][i] == es[i];
    }
    GuardMonotonic(es[..k + 1]);
    G.RefusedIffOverdrawn(h, |g|);
  }

  /** A close that reaps an id makes its next update a save, however many there were before it. */
  lemma ReapedClientIsAdmitted(es: seq<Event>, client: string, now: real)
    ensures var fs := es + [BucketDropped(client), Update(client, now)];
            Admitted(fs, |es| + 1) && RegistryOf(fs) == RegistryOf(es) + [C.Save(client)]
  {
    var dropped := es + [BucketDropped(client)];
    var fs := es + [BucketDropped(client), Update(client, now)];
    assert dropped[..|es|] == es && fs[..|es| + 1] == dropped && fs[|es| + 1] == Update(client, now);
    var g := GuardOf(es);
    hide G.Run, G.Apply, G.Allows;
    assert GuardOf(dropped) == g + [G.Reap(client)];
    assert RegistryOf(dropped) == RegistryOf(es) + [] == RegistryOf(es);
    G.ReapedIsFull(g, client, now);
  }

  lemma {:induction false} RegistryPrefix(es: seq<Event>, k: nat)
    requires k <= |es|
    ensures RegistryOf(es[..k]) <= RegistryOf(es)
  {
    if k == |es| {
      assert es[..k] == es;
    } else {
      RegistryPrefix(es[..|es| - 1], k);
      assert es[..|es| - 1][..k] == es[..k];
    }
  }

  /** An admitted update is a save, at the position the registry has reached. */
  lemma AdmittedIsSave(es: seq<Event>, k: nat)
    requires k < |es| && es[k].Update? && Admitted(es, k)
    ensures var pos, cs := |RegistryOf(es[..k])|, RegistryOf(es);
            pos < |cs| && cs[pos] == C.Save(es[k].client) && cs[..pos] == RegistryOf(es[..k])
  {
    hide G.Run, G.Allows;
    RegistryPrefix(es, k);
    RegistryPrefix(es, k + 1);
    assert es[..k + 1][..k] == es[..k];
    assert RegistryOf(es[..k + 1]) == RegistryOf(es[..k]) + [C.Save(es[k].client)];
  }

  /** The client's project when the update arrives. */
  function ProjectAt(es: seq<Event>, k: nat): C.Project
    requires k < |es| && es[k].Update?
  {
    C.ProjectOf(C.Run(RegistryOf(es[..k])), es[k].client)
  }

  /** The project of the update has this live pass. */
  ghost predicate LivePass(es: seq<Event>, i: nat, k: nat)
    requires k < |es| && es[k].Update?
  {
    var s := C.Run(RegistryOf(es[..k]));
    C.Active(s, i) && s.passes[i].project == ProjectAt(es, k) != ""
  }

  lemma RegistryStep(es: seq<Event>, k: nat)
    requires k < |es| && es[k].Update?
    ensures RegistryOf(es[..k + 1]) == RegistryOf(es[..k]) + if Admitted(es, k) then [C.Save(es[k].client)] else []
  {
    hide G.Run, G.Allows;
    assert es[..k + 1][..k] == es[..k];
  }

  lemma SaveCancels(cs: seq<C.Event>, client: C.Client, i: nat)
    requires C.Active(C.Run(cs), i) && C.Run(cs).passes[i].project == C.ProjectOf(C.Run(cs), client) != ""
    ensures !C.Active(C.Run(cs + [C.Save(client)]), i)
  {
    C.RunKeeps(cs);
    assert C.SlotInv(C.Run(cs), C.Run(cs).passes[i].project) && C.ActiveInv(C.Run(cs), i);
    hide C.Inv;
    assert (cs + [C.Save(client)])[..|cs|] == cs;
    C.PassStep(C.Run(cs), C.Save(client), |cs|, i);
  }

  /**
   Exactness: an update of a project leaves the project's live pass alive if and only if it is shed, that
   is, if and only if it overdraws a window of its client's bucket.
   */
  lemma PassSurvivesUpdateIffOverdrawn(es: seq<Event>, i: nat, k: nat)
    requires Monotonic(es) && k < |es| && es[k].Update? && LivePass(es, i, k)
    ensures |GuardOf(es[..k])| < |GuardOf(es[..k + 1])| && GuardOf(es[..k + 1])[|GuardOf(es[..k])|].Call?
    ensures C.Active(C.Run(RegistryOf(es[..k + 1])), i) <==> G.Overdrawn(GuardOf(es[..k + 1]), |GuardOf(es[..k])|)
  {
    hide Admitted, G.Overdrawn;
    AdmittedIffNotOverdrawn(es, k);
    RegistryStep(es, k);
    if Admitted(es, k) {
      SaveCancels(RegistryOf(es[..k]), es[k].client, i);
    } else {
      assert RegistryOf(es[..k]) + [] == RegistryOf(es[..k]);
    }
  }

  /**
   What a commit may have missed: an update of the pass's project that arrived after the pass started
   and before its write began was shed, because it overdrew its client's bucket.
   */
  lemma CommitMissedOnlyShedUpdates(es: seq<Event>, i: nat, k: nat)
    requires Monotonic(es) && k < |es| && es[k].Update?
    requires i < |C.Run(RegistryOf(es)).passes| && C.Run(RegistryOf(es)).passes[i].phase.Written?
    requires ProjectAt(es, k) == C.Run(RegistryOf(es)).passes[i].project != ""
    requires var pass := C.Run(RegistryOf(es)).passes[i];
             pass.startedAt < |RegistryOf(es[..k])| <= pass.phase.at
    ensures !Admitted(es, k)
    ensures |GuardOf(es[..k])| < |GuardOf(es[..k + 1])| && GuardOf(es[..k + 1])[|GuardOf(es[..k])|].Call?
    ensures G.Overdrawn(GuardOf(es[..k + 1]), |GuardOf(es[..k])|)
  {
    hide G.Overdrawn, Admitted;
    AdmittedIffNotOverdrawn(es, k);
    var cs, pos := RegistryOf(es), |RegistryOf(es[..k])|;
    if Admitted(es, k) {
      AdmittedIsSave(es, k);
      WriteIsNoSave(cs, i);
      C.CommitSawNoSave(cs, i, pos);
    }
  }

  lemma {:induction false} WriteIsNoSave(cs: seq<C.Event>, i: nat)
    requires i < |C.Run(cs).passes| && C.Run(cs).passes[i].phase.Written?
    ensures C.Run(cs).passes[i].phase.at < |cs| && cs[C.Run(cs).passes[i].phase.at].Write?
  {
    hide C.Next;
    var n := |cs| - 1;
    var s := C.Run(cs[..n]);
    if i >= |s.passes| {
      C.TriggerAdds(s, cs[n], n, i);
    } else {
      C.PhaseStep(s, cs[n], n, i);
      if s.passes[i].phase.Written? {
        WriteIsNoSave(cs[..n], i);
      } else {
        OnlyWritesWrite(s, cs[n], n, i);
      }
    }
  }

  lemma OnlyWritesWrite(s: C.State, e: C.Event, at: nat, i: nat)
    requires i < |s.passes| && i < |C.Next(s, e, at).passes|
    requires C.Next(s, e, at).passes[i].phase.Written? && !s.passes[i].phase.Written?
    ensures e.Write?
  {
  }

  // ---------------------------------------------------------------------
  // A burst that is missed
  // ---------------------------------------------------------------------

  /** Updates of one client at one instant. */
  function Burst(client: string, now: real, n: nat): seq<Event> {
    seq(n, _ => Update(client, now))
  }

  lemma {:induction false} BurstSpendsTokens(client: string, now: real, n: nat)
    requires n <= 100
    ensures var es := Burst(client, now, n);
            && G.Available(G.Run(GuardOf(es)), client, now) == 100.0 - n as real
            && |RegistryOf(es)| == n && C.Run(RegistryOf(es)) == C.Run([])
  {
    var es := Burst(client, now, n);
    if n > 0 {
      var init := Burst(client, now, n - 1);
      assert es[..n - 1] == init;
      BurstSpendsTokens(client, now, n - 1);
      var g, r := GuardOf(init), RegistryOf(init);
      assert GuardOf(es) == g + [G.Call(client, now)] && (g + [G.Call(client, now)])[..|g|] == g;
      assert Admitted(es, n - 1);
      assert RegistryOf(es) == r + [C.Save(client)] && (r + [C.Save(client)])[..|r|] == r;
    }
  }

  /** A hundred updates, then the project is bound and a pass starts, one more update, and the pass commits. */
  function MissedBurst(client: string, p: C.Project, now: real): seq<Event> {
    Burst(client, now, 100)
    + [Other(C.Bind(client, p)), Other(C.Trigger(client)), Update(client, now), Other(C.Check(0)), Other(C.Write(0))]
  }

  lemma OtherStep(es: seq<Event>, e: C.Event)
    ensures RegistryOf(es + [Other(e)]) == RegistryOf(es) + [e] && GuardOf(es + [Other(e)]) == GuardOf(es)
    ensures C.Run(RegistryOf(es + [Other(e)])) == C.Next(C.Run(RegistryOf(es)), e, |RegistryOf(es)|)
  {
    hide C.Next;
    assert (es + [Other(e)])[..|es|] == es;
    assert GuardOf(es) + [] == GuardOf(es);
    assert (RegistryOf(es) + [e])[..|RegistryOf(es)|] == RegistryOf(es);
  }

  lemma ShedStep(es: seq<Event>, client: string, now: real)
    requires G.Available(G.Run(GuardOf(es)), client, now) < 1.0
    ensures var fs := es + [Update(client, now)];
            RegistryOf(fs) == RegistryOf(es) && fs[|es|] == Update(client, now) && !Admitted(fs, |es|)
  {
    var fs := es + [Update(client, now)];
    assert fs[..|es|] == es && RegistryOf(es) + [] == RegistryOf(es);
  }

  /** The pass commits although the project was updated while it was under way. */
  lemma BurstIsMissed(client: string, p: C.Project, now: real)
    requires p != ""
    ensures var es := MissedBurst(client, p, now);
            && es[102] == Update(client, now) && !Admitted(es, 102) && ProjectAt(es, 102) == p
            && C.Run(RegistryOf(es)).passes == [C.Pass(p, 0, 101, C.Written(103), false, false)]
            && |RegistryOf(es[..102])| == 102
  {
    hide G.Run, G.Available, RegistryOf, GuardOf, Admitted;
    var e0 := Burst(client, now, 100);
    BurstSpendsTokens(client, now, 100);
    OtherStep(e0, C.Bind(client, p));
    var e1 := e0 + [Other(C.Bind(client, p))];
    OtherStep(e1, C.Trigger(client));
    var e2 := e1 + [Other(C.Trigger(client))];
    assert C.Run([]) == C.State(map[], map[], map[], []);
    assert C.Run(RegistryOf(e2)).passes == [C.Pass(p, 0, 101, C.Drafting, false, false)];
    ShedStep(e2, client, now);
    var e3 := e2 + [Update(client, now)];
    OtherStep(e3, C.Check(0));
    var e4 := e3 + [Other(C.Check(0))];
    assert C.Run(RegistryOf(e4)).passes == [C.Pass(p, 0, 101, C.Checked, false, false)];
    OtherStep(e4, C.Write(0));
    var es := MissedBurst(client, p, now);
    assert es == e4 + [Other(C.Write(0))] && es[..102] == e2 && e3[..102] == e2;
    SameAdmission(es, e3, 102);
  }

  lemma SameAdmission(es: seq<Event>, fs: seq<Event>, k: nat)
    requires k < |es| && k < |fs| && es[..k] == fs[..k] && es[k] == fs[k] && es[k].Update?
    ensures Admitted(es, k) == Admitted(fs, k)
  {
  }
}
