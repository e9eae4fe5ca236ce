/**
  Exactly when candidates are handed over at most once (src/hooks/useWebRTC.ts:136-145, 438-482): an
  accepted description that overlaps a handler which has still to flush can always be continued,
  without any further description, to a run that hands a candidate over once too often.
 */
module MeshOverlap {
  import opened Wrappers
  import opened MeshPeer

  predicate NoDescriptions(es: seq<Event>) {
    forall k | 0 <= k < |es| :: es[k].Receive? ==> es[k].signal.IceCandidate?
  }

  ghost predicate AtMostOnce(p: Peer) {
    multiset(p.added) <= Candidates(p.seen)
  }

  /** Some continuation without a further description hands a candidate over too often. */
  ghost predicate CanRepeat(p: Peer, from: Id) {
    exists es: seq<Event> :: NoDescriptions(es) && !AtMostOnce(Run(p, from, es))
  }

  // ---------------------------------------------------------------------------
  // Runs, from the front and in two parts
  // ---------------------------------------------------------------------------

  lemma {:induction false} RunFirst(p: Peer, from: Id, e: Event, es: seq<Event>)
    ensures Run(p, from, [e] + es) == Run(Step(p, from, e), from, es)
  {
    hide Step;
    if es == [] {
      assert [e] + es == [] + [e];
      RunAppend(p, from, [], e);
    } else {
      var front, last := es[..|es| - 1], es[|es| - 1];
      assert [e] + es == ([e] + front) + [last];
      RunFirst(p, from, e, front);
      RunAppend(p, from, [e] + front, last);
    }
  }

  lemma {:induction false} RunInTwo(p: Peer, from: Id, es: seq<Event>, cs: seq<Event>)
    ensures Run(p, from, es + cs) == Run(Run(p, from, es), from, cs)
  {
    hide Step;
    if cs == [] {
      assert es + cs == es;
    } else {
      var front, last := cs[..|cs| - 1], cs[|cs| - 1];
      assert es + cs == (es + front) + [last];
      RunInTwo(p, from, es, front);
      RunAppend(p, from, es + front, last);
    }
  }

  lemma {:induction false} SeparateInTwo(p: Peer, from: Id, es: seq<Event>, cs: seq<Event>)
    requires Separate(p, from, es) && NoDescriptions(cs)
    ensures Separate(p, from, es + cs)
  {
    hide Overlaps;
    if cs == [] {
      assert es + cs == es;
    } else {
      var front, last := cs[..|cs| - 1], cs[|cs| - 1];
      assert (es + cs)[..|es + cs| - 1] == es + front && (es + cs)[|es + cs| - 1] == last;
      SeparateInTwo(p, from, es, front);
      if last.Receive? {
        CandidateDoesNotOverlap(Run(p, from, es + front), from, last.signal);
      }
    }
  }

  lemma CandidateDoesNotOverlap(p: Peer, from: Id, s: Signal)
    requires s.IceCandidate?
    ensures !Overlaps(p, from, s)
  {
  }

  lemma {:induction false} SeparatePrefix(p: Peer, from: Id, es: seq<Event>, k: nat)
    requires Separate(p, from, es) && k <= |es|
    ensures Separate(p, from, es[..k])
  {
    if k < |es| {
      assert es[..|es| - 1][..k] == es[..k];
      SeparatePrefix(p, from, es[..|es| - 1], k);
    } else {
      assert es[..k] == es;
    }
  }

  lemma Repeats(p: Peer, from: Id, es: seq<Event>)
    requires NoDescriptions(es) && !AtMostOnce(Run(p, from, es))
    ensures CanRepeat(p, from)
  {
  }

  lemma Harmful(p: Peer, from: Id) returns (es: seq<Event>)
    requires CanRepeat(p, from)
    ensures NoDescriptions(es) && !AtMostOnce(Run(p, from, es))
  {
    hide NoDescriptions, AtMostOnce, Run;
    es :| NoDescriptions(es) && !AtMostOnce(Run(p, from, es));
  }

  lemma Prepended(e: Event, es: seq<Event>)
    requires NoDescriptions(es) && (e.Receive? ==> e.signal.IceCandidate?)
    ensures NoDescriptions([e] + es)
  {
  }

  /** One event more in front of a harmful continuation. */
  lemma Before(p: Peer, from: Id, e: Event)
    requires e.Receive? ==> e.signal.IceCandidate?
    requires CanRepeat(Step(p, from, e), from)
    ensures CanRepeat(p, from)
  {
    hide *;
    var es := Harmful(Step(p, from, e), from);
    Prepended(e, es);
    RunFirst(p, from, e, es);
    Repeats(p, from, [e] + es);
  }

  lemma Now(p: Peer, from: Id)
    requires !AtMostOnce(p)
    ensures CanRepeat(p, from)
  {
    assert NoDescriptions([]) && Run(p, from, []) == p;
  }

  // ---------------------------------------------------------------------------
  // Two handlers and one buffer
  // ---------------------------------------------------------------------------

  /** `setRemoteDescription` of this handler will succeed. */
  predicate Drivable(p: Peer, h: Handler) {
    h.SettingRemote? && (h.purpose == ForOffer || p.signaling == HaveLocalOffer)
  }

  /** A handler is in the middle of its flush. */
  ghost predicate MidFlush(p: Peer, i: nat) {
    && i < |p.handlers| == 2 && p.ready && p.handlers[i].Flushing?
    && p.pendingCandidates != []
    && multiset(p.added) + multiset(p.handlers[i].rest) == Candidates(p.seen)
  }

  /** What one step of the `i`-th of two handlers does to the list of handlers. */
  lemma ContinueTwo(p: Peer, i: nat, sdp: nat)
    requires |p.handlers| == 2 && i < 2
    requires Advance(p, p.handlers[i], sdp).1.Some?
    ensures var (q, h, _) := Advance(p, p.handlers[i], sdp);
            var p' := Step(p, p.peerId, Resume(i, sdp));
            && p' == q.(handlers := p.handlers[i := h.value])
            && (forall from: Id :: Step(p, from, Resume(i, sdp)) == p')
  {
    hide Advance;
    var (q, h, out) := Advance(p, p.handlers[i], sdp);
    assert p.handlers[..i] + [h.value] + p.handlers[i + 1..] == p.handlers[i := h.value];
  }

  lemma OneMoreIsTooMany(added: seq<Candidate>, got: multiset<Candidate>, c: Candidate)
    requires multiset(added) == got
    ensures !(multiset(added + [c]) <= got)
  {
    assert multiset(added + [c]) == multiset(added) + multiset{c};
    assert multiset(added + [c])[c] == got[c] + 1;
  }

  /** The first handler has handed everything over but not yet emptied the buffer; the second starts. */
  lemma SecondStarts(p: Peer, from: Id, i: nat)
    requires MidFlush(p, i) && p.handlers[i].rest == [] && Drivable(p, p.handlers[1 - i])
    ensures CanRepeat(p, from)
  {
    ContinueTwo(p, 1 - i, 0);
    var p' := Step(p, from, Resume(1 - i, 0));
    assert p'.added == p.added + [p.pendingCandidates[0]] && p'.seen == p.seen;
    OneMoreIsTooMany(p.added, Candidates(p.seen), p.pendingCandidates[0]);
    hide Step, Candidates;
    Now(p', from);
    Before(p, from, Resume(1 - i, 0));
  }

  /** The first handler flushes on to the end of the buffer, and then the second starts. */
  lemma {:induction false} Ripe(p: Peer, from: Id, i: nat)
    requires MidFlush(p, i) && Drivable(p, p.handlers[1 - i])
    ensures CanRepeat(p, from)
    decreases |p.handlers[i].rest|
  {
    var rest := p.handlers[i].rest;
    if rest == [] {
      SecondStarts(p, from, i);
    } else {
      ContinueTwo(p, i, 0);
      var p' := Step(p, from, Resume(i, 0));
      assert rest == [rest[0]] + rest[1..];
      assert p' == p.(added := p.added + [rest[0]], handlers := p'.handlers);
      assert multiset(p'.added) == multiset(p.added) + multiset{rest[0]};
      hide Step, Candidates, CanRepeat;
      Ripe(p', from, i);
      Before(p, from, Resume(i, 0));
    }
  }

  lemma OfferAgain(p: Peer, from: Id)
    requires p.signaling != HaveRemoteOffer
    ensures var p' := Step(p, from, LocalOffer(Offer(0)));
            p' == p.(signaling := HaveLocalOffer, local := Some(Offer(0)))
  {
  }

  /** A handler that rolls back is brought to the point where it applies its offer. */
  lemma RolledBack(p: Peer, from: Id, i: nat)
    requires i < |p.handlers| == 2 && p.handlers[i].RollingBack? && p.signaling != HaveRemoteOffer
    requires var q := p.(signaling := Stable, local := None,
                         handlers := p.handlers[i := SettingRemote(ForOffer, p.handlers[i].offer)]);
             CanRepeat(q, from)
    ensures CanRepeat(p, from)
  {
    OfferAgain(p, from);
    var p1 := Step(p, from, LocalOffer(Offer(0)));
    ContinueTwo(p1, i, 0);
    hide Step, CanRepeat;
    Before(p1, from, Resume(i, 0));
    Before(p, from, LocalOffer(Offer(0)));
  }

  /** While one handler flushes, another that has still to apply its description can flush the same buffer. */
  lemma FlushedByBoth(p: Peer, from: Id, i: nat)
    requires MidFlush(p, i) && BeforeRemote(p.handlers[1 - i]) && p.signaling != HaveRemoteOffer
    ensures CanRepeat(p, from)
  {
    if p.handlers[1 - i].RollingBack? {
      var d := p.handlers[1 - i].offer;
      var q := p.(signaling := Stable, local := None, handlers := p.handlers[1 - i := SettingRemote(ForOffer, d)]);
      hide CanRepeat, Candidates;
      Ripe(q, from, i);
      RolledBack(p, from, 1 - i);
    } else {
      OfferAgain(p, from);
      hide CanRepeat, Candidates, Step;
      Ripe(Step(p, from, LocalOffer(Offer(0))), from, i);
      Before(p, from, LocalOffer(Offer(0)));
    }
  }

  /** Nothing has been flushed, the buffer holds all candidates, and two handlers wait. */
  ghost predicate TwoWait(p: Peer) {
    && !p.ready && p.added == [] && p.pendingCandidates != [] && p.signaling != HaveRemoteOffer
    && multiset(p.pendingCandidates) == Candidates(p.seen)
    && |p.handlers| == 2 && BeforeRemote(p.handlers[0]) && BeforeRemote(p.handlers[1])
  }

  /** The first of two handlers applies its description and hands the first candidate over. */
  lemma FirstStarts(p: Peer, from: Id, i: nat)
    requires TwoWait(p) && i < 2 && Drivable(p, p.handlers[i])
    ensures var p' := Step(p, from, Resume(i, 0));
            && MidFlush(p', i) && p'.handlers[1 - i] == p.handlers[1 - i]
            && p'.signaling == if p.handlers[i].purpose == ForOffer then HaveRemoteOffer else Stable
  {
    ContinueTwo(p, i, 0);
    var p' := Step(p, from, Resume(i, 0));
    var first := p.pendingCandidates[0];
    assert p.pendingCandidates == [first] + p.pendingCandidates[1..];
    assert p'.added == [first] && p'.pendingCandidates == p.pendingCandidates && p'.seen == p.seen;
    hide Step, Candidates;
  }

  lemma BothSetRemote(p: Peer, from: Id)
    requires TwoWait(p) && p.handlers[0].SettingRemote? && p.handlers[1].SettingRemote?
    ensures CanRepeat(p, from)
  {
    hide CanRepeat, Candidates;
    if p.handlers[0].purpose == ForOffer && p.handlers[1].purpose == ForOffer {
      FirstStarts(p, from, 0);
      hide Step;
      Ripe(Step(p, from, Resume(0, 0)), from, 0);
      Before(p, from, Resume(0, 0));
    } else {
      var i := if p.handlers[0].purpose == ForAnswer then 0 else 1;
      OfferAgain(p, from);
      var p1 := Step(p, from, LocalOffer(Offer(0)));
      FirstStarts(p1, from, i);
      hide Step;
      FlushedByBoth(Step(p1, from, Resume(i, 0)), from, i);
      Before(p1, from, Resume(i, 0));
      Before(p, from, LocalOffer(Offer(0)));
    }
  }

  lemma WaitingTwoCanRepeat(p: Peer, from: Id)
    requires TwoWait(p)
    ensures CanRepeat(p, from)
  {
    hide CanRepeat, Candidates;
    var p1 := if p.handlers[0].RollingBack?
              then p.(signaling := Stable, local := None,
                      handlers := p.handlers[0 := SettingRemote(ForOffer, p.handlers[0].offer)])
              else p;
    var p2 := if p1.handlers[1].RollingBack?
              then p1.(signaling := Stable, local := None,
                       handlers := p1.handlers[1 := SettingRemote(ForOffer, p1.handlers[1].offer)])
              else p1;
    BothSetRemote(p2, from);
    if p1.handlers[1].RollingBack? {
      RolledBack(p1, from, 1);
    }
    if p.handlers[0].RollingBack? {
      RolledBack(p, from, 0);
    }
  }

  // ---------------------------------------------------------------------------
  // The exact condition
  // ---------------------------------------------------------------------------

  lemma OneMoreCandidate(p: Peer, from: Id)
    requires !p.ready && p.added == [] && multiset(p.pendingCandidates) == Candidates(p.seen)
    ensures var q := Step(p, from, Receive(IceCandidate(0)));
            && q == p.(seen := p.seen + [IceCandidate(0)], pendingCandidates := p.pendingCandidates + [0])
            && multiset(q.pendingCandidates) == Candidates(q.seen)
  {
    SeenAppend(p.seen, IceCandidate(0));
    assert multiset(p.pendingCandidates + [0]) == multiset(p.pendingCandidates) + multiset{0};
  }

  /** What an overlap leaves: a handler in the middle of its flush, or one candidate later, two that wait. */
  lemma Overlapped(p: Peer, from: Id, s: Signal)
    requires Conserved(p) && Overlaps(p, from, s)
    ensures var q := OnSignal(p, from, s);
            if p.ready
            then MidFlush(q, 0) && BeforeRemote(q.handlers[1]) && q.signaling != HaveRemoteOffer
            else TwoWait(Step(q, from, Receive(IceCandidate(0))))
  {
    DescriptionFrame(p, from, s);
    SeenAppend(p.seen, s);
    var q := OnSignal(p, from, s);
    assert p.signaling != HaveRemoteOffer;
    assert |p.handlers| == 1;
    hide OnSignal, Candidates;
    assert q.handlers[..1] == p.handlers && q.handlers[0] == p.handlers[0];
    if !p.ready {
      OneMoreCandidate(q, from);
      hide Step;
    }
  }

  lemma OverlapCanRepeat(p: Peer, from: Id, s: Signal)
    requires Conserved(p) && Overlaps(p, from, s)
    ensures CanRepeat(OnSignal(p, from, s), from)
  {
    hide *;
    Overlapped(p, from, s);
    var q := OnSignal(p, from, s);
    if p.ready {
      FlushedByBoth(q, from, 0);
    } else {
      WaitingTwoCanRepeat(Step(q, from, Receive(IceCandidate(0))), from);
      Before(q, from, Receive(IceCandidate(0)));
    }
  }

  lemma ConservedIsAtMostOnce(p: Peer)
    requires Conserved(p)
    ensures AtMostOnce(p)
  {
    hide Candidates;
  }

  /**
    For one description: as long as everything was conserved before it arrives, every
    continuation without a further description hands each candidate over at most once if and
    only if the description does not overlap a handler that has still to flush.
   */
  lemma OverlapExactly(p: Peer, from: Id, s: Signal)
    requires Conserved(p)
    ensures !CanRepeat(OnSignal(p, from, s), from) <==> !Overlaps(p, from, s)
  {
    var q := OnSignal(p, from, s);
    if Overlaps(p, from, s) {
      OverlapCanRepeat(p, from, s);
    } else {
      OnSignalConserves(p, from, s);
      hide OnSignal, Overlaps, Conserved, AtMostOnce, Run;
      forall es: seq<Event> | NoDescriptions(es) ensures AtMostOnce(Run(q, from, es)) {
        assert Separate(q, from, []);
        SeparateInTwo(q, from, [], es);
        assert [] + es == es;
        RunConserves(q, from, es);
        ConservedIsAtMostOnce(Run(q, from, es));
      }
    }
  }

  /**
    For whole runs: no continuation of any part of a run hands a candidate over too often, if and
    only if no description of the run overlaps a handler that has still to flush.
   */
  lemma {:induction false} ConservationExactly(id: Id, from: Id, es: seq<Event>)
    ensures Separate(NewPeer(id), from, es) <==>
              forall k: nat | k <= |es| :: !CanRepeat(Run(NewPeer(id), from, es[..k]), from)
  {
    var p := NewPeer(id);
    NewPeerConserved(id);
    if Separate(p, from, es) {
      forall k: nat | k <= |es| ensures !CanRepeat(Run(p, from, es[..k]), from) {
        SeparatePrefix(p, from, es, k);
        RunConserves(p, from, es[..k]);
        NoRepeat(Run(p, from, es[..k]), from);
      }
    } else {
      var k := FirstOverlap(p, from, es);
      assert es[..k + 1][..k] == es[..k];
      var before := Run(p, from, es[..k]);
      RunConserves(p, from, es[..k]);
      OverlapCanRepeat(before, from, es[k].signal);
      assert Run(p, from, es[..k + 1]) == OnSignal(before, from, es[k].signal);
    }
  }

  lemma NoRepeat(p: Peer, from: Id)
    requires Conserved(p)
    ensures !CanRepeat(p, from)
  {
    hide Conserved, AtMostOnce, Run;
    forall es: seq<Event> | NoDescriptions(es) ensures AtMostOnce(Run(p, from, es)) {
      assert Separate(p, from, []);
      SeparateInTwo(p, from, [], es);
      assert [] + es == es;
      RunConserves(p, from, es);
      ConservedIsAtMostOnce(Run(p, from, es));
    }
  }

  lemma {:induction false} FirstOverlap(p: Peer, from: Id, es: seq<Event>) returns (k: nat)
    requires !Separate(p, from, es)
    ensures k < |es| && Separate(p, from, es[..k])
    ensures es[k].Receive? && Overlaps(Run(p, from, es[..k]), from, es[k].signal)
  {
    hide Overlaps;
    var front := es[..|es| - 1];
    if Separate(p, from, front) {
      k := |es| - 1;
    } else {
      k := FirstOverlap(p, from, front);
      assert front[..k] == es[..k] && front[k] == es[k];
    }
  }

  /** One description at most is a special case: it finds no handler waiting. */
  predicate AtMostOneDescription(es: seq<Event>) {
    forall i, j | 0 <= i < j < |es| && IsDescription(es[i]) :: !IsDescription(es[j])
  }

  predicate IsDescription(e: Event) {
    e.Receive? && e.signal.Description?
  }

  lemma {:induction false} NoDescriptionNoHandler(p: Peer, from: Id, es: seq<Event>)
    requires p.handlers == [] && NoDescriptions(es)
    ensures Run(p, from, es).handlers == []
  {
    if es != [] {
      NoDescriptionNoHandler(p, from, es[..|es| - 1]);
    }
  }

  lemma {:induction false} OneDescriptionIsSeparate(id: Id, from: Id, es: seq<Event>)
    requires AtMostOneDescription(es)
    ensures Separate(NewPeer(id), from, es)
  {
    var p := NewPeer(id);
    if es != [] {
      var front, last := es[..|es| - 1], es[|es| - 1];
      OneDescriptionIsSeparate(id, from, front);
      if IsDescription(last) {
        forall k | 0 <= k < |front| ensures front[k].Receive? ==> front[k].signal.IceCandidate? {
          assert front[k] == es[k] && !IsDescription(es[k]);
        }
        NoDescriptionNoHandler(p, from, front);
      } else if last.Receive? {
        CandidateDoesNotOverlap(Run(p, from, front), from, last.signal);
      }
      hide Overlaps, Run;
    }
  }
}
