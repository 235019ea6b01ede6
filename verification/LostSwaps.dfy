/** The local swap at the end of an update: it is lost to recoveries, and to nothing else. */
module LostSwaps {
  import opened Protocol
  import opened ProtocolInvariant
  import opened ProtocolSteps
  import opened ProtocolEffects
  import opened ProtocolTheorems

  /** The swap that a request is about to make would fail. */
  ghost predicate Lost(w: World, t: Thread)
    requires t.SwapState?
  {
    t.u.coord in w.coords && w.coords[t.u.coord].cell != t.u.previous
  }

  /** The event is the end of a recovery of the same Coordinator that started from the same old state. */
  ghost predicate Overtakes(w: World, e: Event, t: Thread)
    requires t.SwapState?
  {
    && e.Advance? && e.tid in w.threads && w.threads[e.tid].InstallState?
    && w.threads[e.tid].r.coord == t.u.coord && w.threads[e.tid].r.previous == t.u.previous
  }

  /** The request is waiting to make its swap. */
  ghost predicate Waiting(w: World, tid: nat, t: Thread) {
    tid in w.threads && w.threads[tid] == t && t.SwapState?
  }

  /** A recovery overtakes the request at one of the events that follow. */
  ghost predicate OvertakenAt(events: seq<Event>, since: seq<Event>, k: int, t: Thread)
    requires t.SwapState?
  {
    0 <= k < |since| && Overtakes(Exec(events + since[..k]), since[k], t)
  }

  ghost predicate Overtaken(events: seq<Event>, since: seq<Event>, t: Thread)
    requires t.SwapState?
  {
    exists k :: OvertakenAt(events, since, k, t)
  }

  lemma ExecPrefix(events: seq<Event>, since: seq<Event>, k: nat)
    requires k < |since|
    ensures Exec(events + since[..k + 1]) == Step(Exec(events + since[..k]), since[k])
  {
    ExecOneMore(events + since[..k], since[k]);
    assert events + since[..k + 1] == events + since[..k] + [since[k]];
  }

  /** Right after SetLatest the state cell still is what the update started from. */
  lemma NotLostAtFirst(events: seq<Event>, e: Event)
    requires Publishes(Exec(events), e)
    ensures var w, w' := Exec(events), Exec(events + [e]);
            var t := w'.threads[e.tid];
            Waiting(w', e.tid, t) && t.u == w.threads[e.tid].u && t.u.coord in w'.coords && !Lost(w', t)
  {
    ExecOneMore(events, e);
    ExecInv(events);
    var w := Exec(events);
    var t := w.threads[e.tid];
    assert ThreadOk(w, e.tid, t) && CellOk(w, t);
    PublishableIsNewest(w, t.u);
    BaseIs(w, w.coords[t.u.coord].cell);
  }

  /** Another update cannot make its swap against the same old state while this one waits. */
  lemma NoOtherUpdate(w: World, tid: nat, t: Thread, other: nat)
    requires Inv(w) && Waiting(w, tid, t) && other in w.threads && w.threads[other].SwapState?
    requires w.threads[other].u.previous == t.u.previous
    ensures other == tid
  {
    assert ThreadOk(w, tid, t) && ThreadOk(w, other, w.threads[other]);
  }

  /** One event while a request waits: its swap is lost from then on exactly if it was lost before, or if the event
      ends a recovery from the same old state. */
  lemma LostInOneStep(w: World, e: Event, tid: nat, t: Thread)
    requires Inv(w) && Waiting(w, tid, t) && Waiting(Step(w, e), tid, t)
    ensures Lost(Step(w, e), t) <==> Lost(w, t) || Overtakes(w, e, t)
  {
    assert ThreadOk(w, tid, t);
    var c := t.u.coord;
    if e.Boot? && e.coord == c {
      assert false;
    } else if !Installs(w, e) {
      ObjectsUnchanged(w, e);
    } else {
      InstallIsNewer(w, e);
      var other := w.threads[e.tid];
      if other.SwapState? && other.u.coord == c && other.u.previous == t.u.previous {
        NoOtherUpdate(w, tid, t, e.tid);
        EndsItself(w, e, tid);
      }
    }
  }

  lemma EndsItself(w: World, e: Event, tid: nat)
    requires e.Advance? && e.tid == tid && tid in w.threads
    requires w.threads[tid].SwapState? && w.threads[tid].On() in w.coords
    ensures tid !in Step(w, e).threads
  {
  }

  /** While a request waits for its swap: the swap is lost if and only if a recovery of the same Coordinator, from
      the same old state, has ended since. Updates have no part in it. */
  lemma {:induction false} LostExactlyToRecoveries(events: seq<Event>, since: seq<Event>, tid: nat, t: Thread)
    requires forall k :: 0 <= k <= |since| ==> Waiting(Exec(events + since[..k]), tid, t)
    requires t.SwapState? && !Lost(Exec(events), t)
    ensures Lost(Exec(events + since), t) <==> Overtaken(events, since, t)
    decreases |since|
  {
    assert since[..|since|] == since;
    if since == [] {
      assert events + since == events;
    } else {
      var n := |since| - 1;
      var front := since[..n];
      forall k | 0 <= k <= n
        ensures front[..k] == since[..k] && Waiting(Exec(events + front[..k]), tid, t)
      {
        assert front[..k] == since[..k];
      }
      LostExactlyToRecoveries(events, front, tid, t);
      ExecInv(events + front);
      ExecPrefix(events, since, n);
      assert Waiting(Exec(events + since[..n]), tid, t) && Waiting(Exec(events + since[..n + 1]), tid, t);
      LostInOneStep(Exec(events + front), since[n], tid, t);
      OvertakenEarlier(events, since, t);
    }
  }

  lemma SameAt(events: seq<Event>, since: seq<Event>, k: int, t: Thread)
    requires t.SwapState? && since != [] && 0 <= k < |since| - 1
    ensures OvertakenAt(events, since[..|since| - 1], k, t) == OvertakenAt(events, since, k, t)
  {
    assert since[..|since| - 1][..k] == since[..k];
  }

  lemma OvertakenEarlier(events: seq<Event>, since: seq<Event>, t: Thread)
    requires t.SwapState? && since != []
    ensures var n := |since| - 1;
            Overtaken(events, since, t) <==> Overtaken(events, since[..n], t) || OvertakenAt(events, since, n, t)
  {
    var n := |since| - 1;
    if k :| OvertakenAt(events, since, k, t) {
      if k < n {
        SameAt(events, since, k, t);
      }
    }
    if k :| OvertakenAt(events, since[..n], k, t) {
      SameAt(events, since, k, t);
    }
  }

  /** From SetLatest on. */
  lemma SwapLostExactly(events: seq<Event>, e: Event, since: seq<Event>)
    requires Publishes(Exec(events), e)
    requires forall k :: 0 <= k <= |since| ==>
               Waiting(Exec(events + [e] + since[..k]), e.tid, Exec(events + [e]).threads[e.tid])
    ensures Waiting(Exec(events + [e]), e.tid, Exec(events + [e]).threads[e.tid])
    ensures var t := Exec(events + [e]).threads[e.tid];
            Lost(Exec(events + [e] + since), t) <==> Overtaken(events + [e], since, t)
  {
    NotLostAtFirst(events, e);
    LostExactlyToRecoveries(events + [e], since, e.tid, Exec(events + [e]).threads[e.tid]);
  }
}
