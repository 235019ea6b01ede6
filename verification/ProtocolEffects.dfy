/** What a single event can and cannot change, and how runs compose. */
module ProtocolEffects {
  import opened Ideal
  import opened Chain
  import opened Protocol
  import opened ProtocolInvariant
  import opened ProtocolSteps

  /** The event is a SetLatest whose comparison succeeds. */
  ghost predicate Publishes(w: World, e: Event) {
    && e.Advance? && e.tid in w.threads && w.threads[e.tid].On() in w.coords
    && w.threads[e.tid].SwapLatest?
    && Current(w.kv) == ExpectedLatest(w, w.threads[e.tid].u.previous)
  }

  /** The event ends an UpdateState or a ResetState: a State object is created. */
  ghost predicate Installs(w: World, e: Event) {
    && e.Advance? && e.tid in w.threads && w.threads[e.tid].On() in w.coords
    && (w.threads[e.tid].SwapState? || w.threads[e.tid].InstallState?)
  }

  /** The event is the end of a watcher's walk that did not meet the notified transition. */
  ghost predicate Marks(w: World, e: Event) {
    && e.Advance? && e.tid in w.threads && w.threads[e.tid].On() in w.coords
    && w.threads[e.tid].WatchWalk?
    && w.threads[e.tid].cursor == ZeroHash()
    && !w.threads[e.tid].found
  }

  lemma AdvanceKeepsHistory(w: World, tid: nat, t: Thread, choice: Choice)
    requires t.On() in w.coords
    requires t.SwapLatest? ==> Current(w.kv) != ExpectedLatest(w, t.u.previous)
    ensures var w' := AdvanceThread(w, tid, t, choice);
            && w'.log == w.log && w'.records == w.records
            && (Latest in w'.kv <==> Latest in w.kv) && Current(w'.kv) == Current(w.kv)
  {
  }

  lemma LatestUnchanged(w: World, e: Event)
    requires !Publishes(w, e)
    ensures var w' := Step(w, e);
            && w'.log == w.log && w'.records == w.records
            && (Latest in w'.kv <==> Latest in w.kv) && Current(w'.kv) == Current(w.kv)
  {
    if e.Advance? && e.tid in w.threads && w.threads[e.tid].On() in w.coords {
      AdvanceKeepsHistory(w, e.tid, w.threads[e.tid], e.choice);
    }
  }

  lemma AdvanceKeepsCells(w: World, tid: nat, t: Thread, choice: Choice)
    requires t.On() in w.coords && !t.SwapState? && !t.InstallState?
    ensures AdvanceThread(w, tid, t, choice).objs == w.objs
    ensures forall c :: c in w.coords ==> c in AdvanceThread(w, tid, t, choice).coords
                                          && AdvanceThread(w, tid, t, choice).coords[c].cell == w.coords[c].cell
  {
  }

  lemma ObjectsUnchanged(w: World, e: Event)
    requires !Installs(w, e)
    ensures Step(w, e).objs == w.objs
    ensures forall c :: c in w.coords && !(e.Boot? && e.coord == c)
                        ==> c in Step(w, e).coords && Step(w, e).coords[c].cell == w.coords[c].cell
  {
    if e.Advance? && e.tid in w.threads && w.threads[e.tid].On() in w.coords {
      AdvanceKeepsCells(w, e.tid, w.threads[e.tid], e.choice);
    }
  }

  lemma StaleUnchanged(w: World, e: Event)
    requires !Marks(w, e)
    ensures Step(w, e).stale == w.stale
  {
  }

  lemma PutGrows(w: World, c: nat, kind: Kind, data: Bytes)
    requires ContentOk(w.kv) && c in w.coords
    ensures StoreGrows(w.kv, Put(w, c, kind, data).kv)
  {
    if At(kind, Digest(data)) in w.kv {
      assert Digest(w.kv[At(kind, Digest(data))]) == Digest(data);
      DigestInjective(w.kv[At(kind, Digest(data))], data);
    }
  }

  lemma OtherStepsKeepStore(w: World, tid: nat, t: Thread, choice: Choice)
    requires t.On() in w.coords
    requires !t.StorePolicies? && !t.StoreManifest? && !t.StoreTransition? && !t.SwapLatest?
    ensures AdvanceThread(w, tid, t, choice).kv == w.kv
  {
  }

  lemma StoreStepGrows(w: World, e: Event)
    requires Inv(w)
    ensures StoreGrows(w.kv, Step(w, e).kv)
  {
    if e.Advance? && e.tid in w.threads && w.threads[e.tid].On() in w.coords {
      var t := w.threads[e.tid];
      if t.StorePolicies? {
        if t.next < |t.u.request.policies| {
          PutGrows(w, t.u.coord, Policies, t.u.request.policies[t.next]);
        }
      } else if t.StoreManifest? {
        PutGrows(w, t.u.coord, ManifestsKind, t.u.request.manifest);
      } else if t.StoreTransition? {
        PutGrows(w, t.u.coord, Transitions, Marshal(Transition(t.manifestHash, Base(w, t.u.previous))));
      } else if !t.SwapLatest? {
        OtherStepsKeepStore(w, e.tid, t, e.choice);
      }
    }
  }

  lemma HistoryGrows(w: World, e: Event)
    ensures w.log <= Step(w, e).log && w.records <= Step(w, e).records
  {
    if !Publishes(w, e) {
      LatestUnchanged(w, e);
    }
  }

  lemma ObjectsGrow(w: World, e: Event)
    ensures w.objs <= Step(w, e).objs
  {
    if !Installs(w, e) {
      ObjectsUnchanged(w, e);
    }
  }

  lemma StaleGrows(w: World, e: Event)
    ensures w.stale <= Step(w, e).stale
  {
    if !Marks(w, e) {
      StaleUnchanged(w, e);
    }
  }

  lemma StepGrows(w: World, e: Event)
    requires Inv(w)
    ensures Grows(w, Step(w, e))
  {
    StoreStepGrows(w, e);
    HistoryGrows(w, e);
    ObjectsGrow(w, e);
    StaleGrows(w, e);
  }

  lemma ExecOneMore(events: seq<Event>, e: Event)
    ensures Exec(events + [e]) == Step(Exec(events), e)
  {
    assert (events + [e])[..|events|] == events;
  }

  lemma OneMoreGrows(events: seq<Event>, e: Event)
    ensures Grows(Exec(events), Exec(events + [e]))
  {
    ExecOneMore(events, e);
    ExecInv(events);
    StepGrows(Exec(events), e);
  }

  lemma GrowsOn(w: World, w': World, w'': World)
    requires Grows(w, w') && Grows(w', w'')
    ensures Grows(w, w'')
  {
  }

  /** A longer run starts like the shorter one. */
  lemma {:induction false} RunGrows(events: seq<Event>, more: seq<Event>)
    ensures Grows(Exec(events), Exec(events + more))
  {
    if more == [] {
      assert events + more == events;
    } else {
      var rest, last := more[..|more| - 1], more[|more| - 1];
      RunGrows(events, rest);
      OneMoreGrows(events + rest, last);
      assert events + more == (events + rest) + [last];
      GrowsOn(Exec(events), Exec(events + rest), Exec(events + more));
    }
  }

  /** `transitions/latest` is a function of the history. */
  lemma LatestIs(events: seq<Event>)
    ensures var w := Exec(events);
            && Inv(w)
            && (w.log == [] <==> Current(w.kv) == [])
            && (w.log != [] ==> UnmarshalLatest(Current(w.kv)) == Some(w.records[|w.log| - 1].value)
                                && w.records[|w.log| - 1].value.tip == TipAt(w, |w.log|))
  {
    ExecInv(events);
    var w := Exec(events);
    if w.log != [] {
      assert EntryRecorded(w, |w.log| - 1);
      LatestCodec(w.records[|w.log| - 1].value, Current(w.kv));
    }
  }
}
