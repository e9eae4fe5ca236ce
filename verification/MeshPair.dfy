/**
  The handshake between the two ends of one mesh connection (src/hooks/useWebRTC.ts:423-491),
  seen apart from the rest of the mesh: the two connections and the signals that have been sent
  but not yet handled in each direction, in no order.
 */
module MeshPair {
  import opened Wrappers
  import opened MeshPeer

  /** One end: its connection, if created, and whether its offer is being made right now. */
  datatype Side = Side(peer: Option<Peer>, making: bool)

  datatype Phase =
    | Before
    | OfferSent
    | OfferApplying
    | Answering
    | AnswerSent
    | AnswerApplying
    | Settled

  ghost predicate Plain(signals: multiset<Signal>) {
    forall d :: Description(d) !in signals
  }

  ghost predicate OnlyDescription(signals: multiset<Signal>, d: Desc) {
    signals[Description(d)] == 1 && forall d' | d' != d :: Description(d') !in signals
  }

  /** Nothing has been negotiated on this connection. */
  predicate Idle(p: Peer) {
    && p.signaling == Stable && p.local.None? && p.remote.None? && !p.ready
    && p.handlers == []
  }

  /** The offerer has set its offer and waits for the answer. */
  predicate Offering(p: Peer) {
    && p.signaling == HaveLocalOffer && p.local.Some? && p.local.value.Offer? && p.remote.None? && !p.ready
  }

  predicate Answers(p: Peer, offer: Desc) {
    p.local.Some? && p.local.value.Answer? && p.local.value.to == offer.sdp && p.remote == Some(offer) && p.ready
  }

  predicate AnsweringHandler(h: Handler, offer: Desc) {
    match h
    case Flushing(purpose, _) => purpose == ForOffer
    case Flushed(purpose) => purpose == ForOffer
    case CreatingAnswer => true
    case SettingLocalAnswer(a) => a.Answer? && a.to == offer.sdp
    case _ => false
  }

  predicate SettlingHandler(h: Handler) {
    (h.Flushing? || h.Flushed?) && h.purpose == ForAnswer
  }

  /** The offerer's connection in each phase. */
  predicate OffererIn(phase: Phase, p: Peer, answer: Option<Desc>) {
    match phase
    case Before => Idle(p)
    case AnswerApplying =>
      Offering(p) && answer.Some? && p.handlers == [SettingRemote(ForAnswer, answer.value)]
    case Settled =>
      && p.signaling == Stable && p.local.Some? && p.local.value.Offer? && answer.Some? && p.remote == answer && p.ready
      && (p.handlers == [] || (|p.handlers| == 1 && SettlingHandler(p.handlers[0])))
    case _ => Offering(p) && p.handlers == []
  }

  /** The answerer's connection in each phase. */
  predicate AnswererIn(phase: Phase, p: Peer, offer: Desc) {
    match phase
    case Before => Idle(p)
    case OfferSent => Idle(p)
    case OfferApplying =>
      && p.signaling == Stable && p.local.None? && p.remote.None? && !p.ready
      && p.handlers == [SettingRemote(ForOffer, offer)]
    case Answering =>
      && p.signaling == HaveRemoteOffer && p.local.None? && p.remote == Some(offer) && p.ready
      && |p.handlers| == 1 && AnsweringHandler(p.handlers[0], offer)
    case _ =>
      p.signaling == Stable && p.handlers == [] && Answers(p, offer)
  }

  ghost predicate ToAnswerer(phase: Phase, signals: multiset<Signal>, offer: Desc) {
    if phase == OfferSent then OnlyDescription(signals, offer) else Plain(signals)
  }

  ghost predicate ToOfferer(phase: Phase, signals: multiset<Signal>, answer: Option<Desc>) {
    if phase == AnswerSent then answer.Some? && OnlyDescription(signals, answer.value) else Plain(signals)
  }

  function LocalOf(s: Side): Option<Desc> {
    if s.peer.Some? then s.peer.value.local else None
  }

  ghost predicate Kept(s: Side) {
    s.peer.Some? ==> Conserved(s.peer.value)
  }

  /** `o` offers to `r`; `toR` and `toO` hold what is on the way. */
  ghost predicate In(phase: Phase, o: Side, r: Side, toR: multiset<Signal>, toO: multiset<Signal>) {
    && !r.making
    && (o.making ==> o.peer.Some? && phase == Before)
    && (o.peer.Some? && phase == Before ==> o.making)
    && (phase != Before ==> o.peer.Some? && LocalOf(o).Some?)
    && (phase != Before && phase != OfferSent ==> r.peer.Some?)
    && var offer := LocalOf(o).GetOr(Offer(0));
    && (o.peer.Some? ==> OffererIn(phase, o.peer.value, LocalOf(r)))
    && (r.peer.Some? ==> AnswererIn(phase, r.peer.value, offer))
    && ToAnswerer(phase, toR, offer)
    && ToOfferer(phase, toO, LocalOf(r))
  }

  ghost predicate Handshake(o: Side, r: Side, toR: multiset<Signal>, toO: multiset<Signal>) {
    Kept(o) && Kept(r) && exists phase :: In(phase, o, r, toR, toO)
  }

  /** The same, for either order of the two ends. */
  ghost predicate Pair(xOffers: bool, x: Side, y: Side, toY: multiset<Signal>, toX: multiset<Signal>) {
    if xOffers then Handshake(x, y, toY, toX) else Handshake(y, x, toX, toY)
  }

  lemma Initially(xOffers: bool)
    ensures Pair(xOffers, Side(None, false), Side(None, false), multiset{}, multiset{})
  {
    assert In(Before, Side(None, false), Side(None, false), multiset{}, multiset{});
  }

  // ---------------------------------------------------------------------------
  // Steps of one end
  // ---------------------------------------------------------------------------

  /** A candidate changes nothing that the phases speak about. */
  lemma CandidateFrame(p: Peer, from: Id, c: Candidate, phase: Phase, offer: Desc, answer: Option<Desc>)
    ensures var q := OnSignal(p, from, IceCandidate(c));
            && q.local == p.local
            && (OffererIn(phase, p, answer) ==> OffererIn(phase, q, answer))
            && (AnswererIn(phase, p, offer) ==> AnswererIn(phase, q, offer))
  {
  }

  lemma CandidateLeaves(signals: multiset<Signal>, c: Candidate, d: Desc)
    ensures Plain(signals) ==> Plain(signals - multiset{IceCandidate(c)}) && Plain(signals + multiset{IceCandidate(c)})
    ensures OnlyDescription(signals, d) ==>
              OnlyDescription(signals - multiset{IceCandidate(c)}, d) &&
                OnlyDescription(signals + multiset{IceCandidate(c)}, d)
  {
  }

  lemma OnlyOneArrives(signals: multiset<Signal>, offer: Desc, d: Desc)
    requires OnlyDescription(signals, offer) && Description(d) in signals
    ensures d == offer && Plain(signals - multiset{Description(d)})
  {
  }

  lemma AnswererGetsCandidate(phase: Phase, o: Side, r: Side, toR: multiset<Signal>, toO: multiset<Signal>,
          from: Id, c: Candidate)
    requires In(phase, o, r, toR, toO) && r.peer.Some?
    ensures In(phase, o, r.(peer := Some(OnSignal(r.peer.value, from, IceCandidate(c)))),
            toR - multiset{IceCandidate(c)}, toO)
  {
    var offer := LocalOf(o).GetOr(Offer(0));
    CandidateFrame(r.peer.value, from, c, phase, offer, None);
    CandidateLeaves(toR, c, offer);
    hide OnSignal, OffererIn, AnswererIn, Plain, OnlyDescription;
  }

  lemma OffererGetsCandidate(phase: Phase, o: Side, r: Side, toR: multiset<Signal>, toO: multiset<Signal>,
          from: Id, c: Candidate)
    requires In(phase, o, r, toR, toO) && o.peer.Some?
    ensures In(phase, o.(peer := Some(OnSignal(o.peer.value, from, IceCandidate(c)))), r, toR,
            toO - multiset{IceCandidate(c)})
  {
    CandidateFrame(o.peer.value, from, c, phase, Offer(0), LocalOf(r));
    CandidateLeaves(toO, c, LocalOf(r).GetOr(Offer(0)));
    hide OnSignal, OffererIn, AnswererIn, Plain, OnlyDescription;
  }

  lemma AnswererGetsOffer(phase: Phase, o: Side, r: Side, toR: multiset<Signal>, toO: multiset<Signal>, from: Id,
          d: Desc)
    requires In(phase, o, r, toR, toO) && r.peer.Some? && Description(d) in toR
    ensures r.peer.value.handlers == []
    ensures In(OfferApplying, o, r.(peer := Some(OnSignal(r.peer.value, from, Description(d)))),
            toR - multiset{Description(d)}, toO)
  {
    assert phase == OfferSent;
    OnlyOneArrives(toR, LocalOf(o).value, d);
    hide Plain, OnlyDescription;
  }

  lemma OffererGetsAnswer(phase: Phase, o: Side, r: Side, toR: multiset<Signal>, toO: multiset<Signal>, from: Id,
          d: Desc)
    requires In(phase, o, r, toR, toO) && o.peer.Some? && Description(d) in toO
    ensures o.peer.value.handlers == []
    ensures In(AnswerApplying, o.(peer := Some(OnSignal(o.peer.value, from, Description(d)))), r, toR,
            toO - multiset{Description(d)})
  {
    assert phase == AnswerSent;
    OnlyOneArrives(toO, LocalOf(r).value, d);
    assert d.Answer?;
    hide Plain, OnlyDescription;
  }

  lemma KeptReceives(y: Side, from: Id, s: Signal)
    requires Kept(y) && y.peer.Some?
    requires s.Description? ==> y.peer.value.handlers == []
    ensures Kept(y.(peer := Some(OnSignal(y.peer.value, from, s))))
  {
    var p := y.peer.value;
    OnSignalConserves(p, from, s);
    hide Conserved, OnSignal;
  }

  /** One signal on its way is handled by the end it was sent to. */
  lemma Receives(xOffers: bool, x: Side, y: Side, toY: multiset<Signal>, toX: multiset<Signal>, from: Id, s: Signal)
    requires Pair(xOffers, x, y, toY, toX) && y.peer.Some? && s in toY
    ensures Pair(xOffers, x, y.(peer := Some(OnSignal(y.peer.value, from, s))), toY - multiset{s}, toX)
  {
    hide Kept, In, OnSignal;
    if xOffers {
      var phase :| In(phase, x, y, toY, toX);
      match s
      case Description(d) => AnswererGetsOffer(phase, x, y, toY, toX, from, d);
      case IceCandidate(c) => AnswererGetsCandidate(phase, x, y, toY, toX, from, c);
    } else {
      var phase :| In(phase, y, x, toX, toY);
      match s
      case Description(d) => OffererGetsAnswer(phase, y, x, toX, toY, from, d);
      case IceCandidate(c) => OffererGetsCandidate(phase, y, x, toX, toY, from, c);
    }
    KeptReceives(y, from, s);
  }

  /** What a step of one handler leaves as it was. */
  lemma FlushFrame(p: Peer, purpose: Purpose, rest: seq<Candidate>)
    ensures var (q, h) := Flush(p, purpose, rest);
            && q == p.(added := q.added, pendingCandidates := q.pendingCandidates)
            && (h.Flushing? || h.Flushed?) && h.purpose == purpose
  {
  }

  /** A step of the answerer's handler: it is still answering, or its answer has just been sent. */
  lemma AnswererStep(phase: Phase, p: Peer, offer: Desc, sdp: nat)
    requires AnswererIn(phase, p, offer) && p.handlers != []
    ensures var (q, out) := Continue(p, 0, sdp);
            || (AnswererIn(Answering, q, offer) && out == [] && p.local.None?)
            || (AnswererIn(AnswerSent, q, offer) && out == [Description(q.local.value)] && p.local.None?)
  {
    ContinueOnly(p, sdp);
    var h := p.handlers[0];
    hide Flush, Continue;
    match h
    case SettingRemote(purpose, d) => FlushFrame(ApplyRemote(p, purpose, d), purpose, p.pendingCandidates);
    case Flushing(purpose, rest) => FlushFrame(p, purpose, rest);
    case _ =>
  }

  lemma AnswererContinues(phase: Phase, o: Side, r: Side, toR: multiset<Signal>, toO: multiset<Signal>,
          sdp: nat) returns (next: Phase)
    requires In(phase, o, r, toR, toO) && r.peer.Some? && r.peer.value.handlers != []
    ensures var (q, out) := Continue(r.peer.value, 0, sdp);
            In(next, o, r.(peer := Some(q)), toR, toO + multiset(out))
  {
    var p, offer := r.peer.value, LocalOf(o).GetOr(Offer(0));
    assert phase == OfferApplying || phase == Answering;
    AnswererStep(phase, p, offer, sdp);
    var (q, out) := Continue(p, 0, sdp);
    hide Continue;
    if out == [] {
      next := Answering;
      assert toO + multiset(out) == toO;
    } else {
      next := AnswerSent;
      PlainPlusOne(toO, q.local.value);
      assert multiset(out) == multiset{Description(q.local.value)};
    }
  }

  lemma PlainPlusOne(signals: multiset<Signal>, d: Desc)
    requires Plain(signals)
    ensures OnlyDescription(signals + multiset{Description(d)}, d)
  {
  }

  lemma OffererStep(phase: Phase, p: Peer, answer: Option<Desc>, sdp: nat)
    requires OffererIn(phase, p, answer) && p.handlers != []
    ensures var (q, out) := Continue(p, 0, sdp);
            OffererIn(Settled, q, answer) && out == [] && q.local == p.local
  {
    ContinueOnly(p, sdp);
    var h := p.handlers[0];
    hide Flush, Continue;
    match h
    case SettingRemote(purpose, d) => FlushFrame(ApplyRemote(p, purpose, d), purpose, p.pendingCandidates);
    case Flushing(purpose, rest) => FlushFrame(p, purpose, rest);
    case _ =>
  }

  lemma OffererContinues(phase: Phase, o: Side, r: Side, toR: multiset<Signal>, toO: multiset<Signal>, sdp: nat)
    requires In(phase, o, r, toR, toO) && o.peer.Some? && o.peer.value.handlers != []
    ensures var (q, out) := Continue(o.peer.value, 0, sdp);
            In(Settled, o.(peer := Some(q)), r, toR + multiset(out), toO)
  {
    assert phase == AnswerApplying || phase == Settled;
    OffererStep(phase, o.peer.value, LocalOf(r), sdp);
    var (q, out) := Continue(o.peer.value, 0, sdp);
    assert toR + multiset(out) == toR;
    hide Continue;
  }

  lemma KeptContinues(y: Side, sdp: nat)
    requires Kept(y) && y.peer.Some? && y.peer.value.handlers != []
    ensures Kept(y.(peer := Some(Continue(y.peer.value, 0, sdp).0)))
  {
    ContinueConserves(y.peer.value, 0, sdp);
    hide Conserved, Continue;
  }

  lemma OneHandler(xOffers: bool, x: Side, y: Side, toY: multiset<Signal>, toX: multiset<Signal>)
    requires Pair(xOffers, x, y, toY, toX) && y.peer.Some?
    ensures |y.peer.value.handlers| <= 1
  {
    if xOffers {
      var phase :| In(phase, x, y, toY, toX);
    } else {
      var phase :| In(phase, y, x, toX, toY);
    }
    hide Kept, Plain, OnlyDescription;
  }

  /** The waiting handler of one end runs to its next `await`. */
  lemma Continues(xOffers: bool, x: Side, y: Side, toY: multiset<Signal>, toX: multiset<Signal>, i: nat, sdp: nat)
    requires Pair(xOffers, x, y, toY, toX) && y.peer.Some? && i < |y.peer.value.handlers|
    ensures i == 0
    ensures var (q, out) := Continue(y.peer.value, i, sdp);
            Pair(xOffers, x, y.(peer := Some(q)), toY, toX + multiset(out))
  {
    OneHandler(xOffers, x, y, toY, toX);
    KeptContinues(y, sdp);
    hide Kept, In, Continue;
    if xOffers {
      var phase :| In(phase, x, y, toY, toX);
      var next := AnswererContinues(phase, x, y, toY, toX, sdp);
    } else {
      var phase :| In(phase, y, x, toX, toY);
      OffererContinues(phase, y, x, toX, toY, sdp);
    }
  }

  /** `createMeshPeers` creates the connection of one end; an offering end starts its offer. */
  lemma Creates(xOffers: bool, x: Side, y: Side, toY: multiset<Signal>, toX: multiset<Signal>, id: Id)
    requires Pair(xOffers, x, y, toY, toX) && y.peer.None?
    ensures Pair(xOffers, x, Side(Some(NewPeer(id)), !xOffers), toY, toX)
  {
    var y' := Side(Some(NewPeer(id)), !xOffers);
    if xOffers {
      var phase :| In(phase, x, y, toY, toX);
      assert In(phase, x, y', toY, toX);
    } else {
      var phase :| In(phase, y, x, toX, toY);
      assert In(phase, y', x, toX, toY);
    }
  }

  /** The offer of one end is set locally and sent. */
  lemma Offers(xOffers: bool, x: Side, y: Side, toY: multiset<Signal>, toX: multiset<Signal>, sdp: nat)
    requires Pair(xOffers, x, y, toY, toX) && y.making && y.peer.Some?
    ensures SetLocalOffer(y.peer.value, Offer(sdp)).Some?
    ensures Pair(xOffers, x, Side(SetLocalOffer(y.peer.value, Offer(sdp)), false), toY,
            toX + multiset{Description(Offer(sdp))})
  {
    assert !xOffers;
    assert In(Before, y, x, toX, toY);
    var y' := Side(SetLocalOffer(y.peer.value, Offer(sdp)), false);
    assert Kept(y');
    assert In(OfferSent, y', x, toX + multiset{Description(Offer(sdp))}, toY);
  }

  /** The browser reports a candidate of one end, which is sent. */
  lemma Gathers(xOffers: bool, x: Side, y: Side, toY: multiset<Signal>, toX: multiset<Signal>, c: Candidate)
    requires Pair(xOffers, x, y, toY, toX)
    ensures Pair(xOffers, x, y, toY, toX + multiset{IceCandidate(c)})
  {
    var (o, r) := if xOffers then (x, y) else (y, x);
    var (toR, toO) := if xOffers then (toY, toX) else (toX, toY);
    var phase :| In(phase, o, r, toR, toO);
    CandidateLeaves(toR, c, LocalOf(o).GetOr(Offer(0)));
    CandidateLeaves(toO, c, LocalOf(r).GetOr(Offer(0)));
    hide Plain, OnlyDescription, OffererIn, AnswererIn;
    if xOffers {
      assert In(phase, o, r, toR, toO + multiset{IceCandidate(c)});
    } else {
      assert In(phase, o, r, toR + multiset{IceCandidate(c)}, toO);
    }
  }

  // ---------------------------------------------------------------------------
  // Where it ends
  // ---------------------------------------------------------------------------

  /** Both ends agree: each is stable and ready, and holds the other's description. */
  predicate Agreed(o: Peer, r: Peer) {
    && o.signaling == Stable && r.signaling == Stable && o.ready && r.ready
    && o.local.Some? && o.local.value.Offer? && r.local.Some? && r.local.value.Answer?
    && r.remote == o.local && o.remote == r.local
    && r.local.value.to == o.local.value.sdp
  }

  /** With nothing on the way and no handler waiting, the handshake is over and both ends agree. */
  lemma QuietPairAgrees(o: Side, r: Side)
    requires Handshake(o, r, multiset{}, multiset{})
    requires o.peer.Some? && r.peer.Some? && !o.making
    requires o.peer.value.handlers == [] && r.peer.value.handlers == []
    ensures Agreed(o.peer.value, r.peer.value)
    ensures Conserved(o.peer.value) && Conserved(r.peer.value)
  {
    var phase :| In(phase, o, r, multiset{}, multiset{});
  }
}
