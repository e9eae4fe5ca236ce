/**
  One end of one mesh connection (src/hooks/useWebRTC.ts): the browser's signalling state, the
  hook's `ready` flag and candidate buffer, and the signal handlers that are waiting at an
  `await` for this connection.

  A step runs from one `await` to the next. What the browser does when the awaited promise
  settles (sections 4.3.1 and 4.4 of W3C WebRTC 1.0, section 3.2 of RFC 8829) happens at the
  start of the step that continues the handler.
 */
module MeshPeer {
  import opened Wrappers

  type Id = nat

  type Candidate = nat

  /** A session description. An answer carries the number of the offer it answers. */
  datatype Desc = Offer(sdp: nat) | Answer(sdp: nat, to: nat)

  datatype Signal = Description(desc: Desc) | IceCandidate(candidate: Candidate)

  datatype SignalingState = Stable | HaveLocalOffer | HaveRemoteOffer

  datatype Purpose = ForOffer | ForAnswer

  /** Where a description handler waits; `rest` is what is left of the buffer it iterates over. */
  datatype Handler =
    | RollingBack(offer: Desc)
    | SettingRemote(purpose: Purpose, desc: Desc)
    | Flushing(purpose: Purpose, rest: seq<Candidate>)
    | Flushed(purpose: Purpose)
    | CreatingAnswer
    | SettingLocalAnswer(answer: Desc)

  /**
    `added` logs the candidates handed to `addIceCandidate`, `seen` the signals this connection's
    handler was run for, in order. `adding` counts candidate handlers waiting for the browser.
   */
  datatype Peer = Peer(
    peerId: Id,
    signaling: SignalingState,
    local: Option<Desc>,
    remote: Option<Desc>,
    ready: bool,
    pendingCandidates: seq<Candidate>,
    handlers: seq<Handler>,
    adding: nat,
    added: seq<Candidate>,
    seen: seq<Signal>)

  function NewPeer(id: Id): Peer {
    Peer(id, Stable, None, None, false, [], [], 0, [], [])
  }

  /** The part of `handleSignal` that runs at once when its peer exists. */
  function OnSignal(p: Peer, from: Id, s: Signal): Peer {
    var p := p.(seen := p.seen + [s]);
    match s
    case Description(Offer(sdp)) =>
      if p.signaling == Stable then
        p.(handlers := p.handlers + [SettingRemote(ForOffer, s.desc)])
      else if p.signaling == HaveLocalOffer && !(p.peerId < from) then
        p.(handlers := p.handlers + [RollingBack(s.desc)])
      else
        p
    case Description(Answer(sdp, to)) =>
      if p.signaling == HaveLocalOffer then
        p.(handlers := p.handlers + [SettingRemote(ForAnswer, s.desc)])
      else
        p
    case IceCandidate(c) =>
      if p.ready then
        p.(added := p.added + [c], adding := p.adding + 1)
      else
        p.(pendingCandidates := p.pendingCandidates + [c])
  }

  /**
    `flushCandidates` up to its next `await`, with `rest` still to be handed over. The loop goes
    on over the array it began with, also when another handler has replaced the buffer; nothing
    is buffered any more by then.
   */
  function Flush(p: Peer, purpose: Purpose, rest: seq<Candidate>): (Peer, Handler) {
    if rest != [] then (p.(added := p.added + [rest[0]]), Flushing(purpose, rest[1..]))
    else (p.(pendingCandidates := []), Flushed(purpose))
  }

  /** `setRemoteDescription` has settled (an offer over a local offer rolls that back), `ready` is set. */
  function ApplyRemote(p: Peer, purpose: Purpose, d: Desc): Peer {
    p.(signaling := if purpose == ForOffer then HaveRemoteOffer else Stable,
       local := if purpose == ForOffer && p.signaling == HaveLocalOffer then None else p.local,
       remote := Some(d),
       ready := true)
  }

  /**
    One handler continues up to its next `await`. `None` in place of a handler means that it
    returned or that the browser rejected what it awaited; `sdp` is the browser's choice for a
    created answer.
   */
  function Advance(p: Peer, h: Handler, sdp: nat): (Peer, Option<Handler>, seq<Signal>) {
    match h
    case RollingBack(d) =>
      if p.signaling != HaveLocalOffer then (p, None, [])
      else (p.(signaling := Stable, local := None), Some(SettingRemote(ForOffer, d)), [])
    case SettingRemote(purpose, d) =>
      if purpose == ForAnswer && p.signaling != HaveLocalOffer then (p, None, [])
      else
        var (q, h') := Flush(ApplyRemote(p, purpose, d), purpose, p.pendingCandidates);
        (q, Some(h'), [])
    case Flushing(purpose, rest) =>
      var (q, h') := Flush(p, purpose, rest);
      (q, Some(h'), [])
    case Flushed(purpose) =>
      if purpose == ForAnswer || p.signaling != HaveRemoteOffer then (p, None, [])
      else (p, Some(CreatingAnswer), [])
    case CreatingAnswer =>
      if p.remote.None? then (p, None, [])
      else (p, Some(SettingLocalAnswer(Answer(sdp, p.remote.value.sdp))), [])
    case SettingLocalAnswer(d) =>
      if p.signaling != HaveRemoteOffer then (p, None, [])
      else (p.(signaling := Stable, local := Some(d)), None, [Description(d)])
  }

  /** The `i`-th waiting handler of the connection continues. */
  function Continue(p: Peer, i: nat, sdp: nat): (Peer, seq<Signal>)
    requires i < |p.handlers|
  {
    var (q, h, out) := Advance(p, p.handlers[i], sdp);
    var rest := p.handlers[i + 1..];
    (q.(handlers := p.handlers[..i] + (if h.Some? then [h.value] else []) + rest), out)
  }

  /** `setLocalDescription(offer)` settles; `None` when the browser rejects it. */
  function SetLocalOffer(p: Peer, offer: Desc): Option<Peer> {
    if p.signaling == HaveRemoteOffer then None
    else Some(p.(signaling := HaveLocalOffer, local := Some(offer)))
  }

  // ---------------------------------------------------------------------------
  // Candidate conservation, for one connection under any schedule
  // ---------------------------------------------------------------------------

  function Candidates(seen: seq<Signal>): multiset<Candidate> {
    if seen == [] then multiset{}
    else
      var rest := Candidates(seen[..|seen| - 1]);
      match seen[|seen| - 1]
      case Description(_) => rest
      case IceCandidate(c) => rest + multiset{c}
  }

  lemma SeenAppend(seen: seq<Signal>, s: Signal)
    ensures Candidates(seen + [s]) == Candidates(seen) + (if s.IceCandidate? then multiset{s.candidate} else multiset{})
  {
    assert (seen + [s])[..|seen|] == seen;
  }

  predicate BeforeRemote(h: Handler) { h.RollingBack? || h.SettingRemote? }

  /** The first waiting handler still has a buffer to hand over, or the rest of one. */
  predicate StillToFlush(p: Peer) {
    p.handlers != [] && (!p.ready || p.handlers[0].Flushing?)
  }

  /** Everything received is either handed over already or still to be handed over, once. */
  ghost predicate Conserved(p: Peer) {
    if !p.ready then
      && p.added == [] && p.signaling != HaveRemoteOffer
      && multiset(p.pendingCandidates) == Candidates(p.seen)
      && |p.handlers| <= 1 && (p.handlers != [] ==> BeforeRemote(p.handlers[0]))
    else if StillToFlush(p) then
      && p.remote.Some?
      && |p.handlers| == 1 && p.pendingCandidates != []
      && multiset(p.added) + multiset(p.handlers[0].rest) == Candidates(p.seen)
    else
      && p.remote.Some?
      && p.pendingCandidates == [] && multiset(p.added) == Candidates(p.seen)
      && forall h | h in p.handlers :: !h.Flushing?
  }

  /** The signal is a description for which a handler starts to wait. */
  predicate Accepted(p: Peer, from: Id, s: Signal) {
    s.Description? && OnSignal(p, from, s).handlers != p.handlers
  }

  /** The description is accepted while another handler has still to flush. */
  predicate Overlaps(p: Peer, from: Id, s: Signal) {
    Accepted(p, from, s) && StillToFlush(p)
  }

  lemma NewPeerConserved(id: Id)
    ensures Conserved(NewPeer(id))
  {
  }

  lemma BufferedConserves(p: Peer, c: Candidate)
    requires Conserved(p) && !p.ready
    ensures Conserved(p.(seen := p.seen + [IceCandidate(c)], pendingCandidates := p.pendingCandidates + [c]))
  {
    SeenAppend(p.seen, IceCandidate(c));
    hide Candidates;
    assert multiset(p.pendingCandidates + [c]) == multiset(p.pendingCandidates) + multiset{c};
  }

  lemma AddedConserves(p: Peer, c: Candidate)
    requires Conserved(p) && p.ready
    ensures Conserved(p.(seen := p.seen + [IceCandidate(c)], added := p.added + [c], adding := p.adding + 1))
  {
    SeenAppend(p.seen, IceCandidate(c));
    hide Candidates;
    var q := p.(seen := p.seen + [IceCandidate(c)], added := p.added + [c], adding := p.adding + 1);
    assert multiset(q.added) == multiset(p.added) + multiset{c};
    assert StillToFlush(q) == StillToFlush(p);
    if StillToFlush(p) {
      var rest := multiset(p.handlers[0].rest);
      assert multiset(p.added) + multiset{c} + rest == multiset(p.added) + rest + multiset{c};
    }
  }

  lemma CandidateConserves(p: Peer, from: Id, c: Candidate)
    requires Conserved(p)
    ensures Conserved(OnSignal(p, from, IceCandidate(c)))
  {
    hide Conserved;
    if p.ready {
      AddedConserves(p, c);
    } else {
      BufferedConserves(p, c);
    }
  }

  /** A description adds at most one handler, and nothing else. */
  lemma DescriptionFrame(p: Peer, from: Id, s: Signal)
    requires s.Description?
    ensures var q := OnSignal(p, from, s);
            && q == p.(seen := p.seen + [s], handlers := q.handlers)
            && (q.handlers == p.handlers ||
                (|q.handlers| == |p.handlers| + 1 && q.handlers[..|p.handlers|] == p.handlers
                 && BeforeRemote(q.handlers[|p.handlers|])))
  {
  }

  /** With nothing left to flush, one more handler that has yet to apply its description does no harm. */
  lemma AcceptedConserves(p: Peer, s: Signal, h: Handler)
    requires Conserved(p) && s.Description? && !StillToFlush(p) && BeforeRemote(h)
    requires !p.ready ==> p.signaling != HaveRemoteOffer
    ensures Conserved(p.(seen := p.seen + [s], handlers := p.handlers + [h]))
  {
    SeenAppend(p.seen, s);
    hide Candidates;
    var q := p.(seen := p.seen + [s], handlers := p.handlers + [h]);
    if p.ready {
      assert q.handlers[0] == if p.handlers == [] then h else p.handlers[0];
      assert !StillToFlush(q);
      forall k | k in q.handlers ensures !k.Flushing? {
        assert k in p.handlers || k == h;
      }
    } else {
      assert p.handlers == [] && q.handlers == [h];
    }
  }

  lemma IgnoredConserves(p: Peer, s: Signal)
    requires Conserved(p) && s.Description?
    ensures Conserved(p.(seen := p.seen + [s]))
  {
    SeenAppend(p.seen, s);
    hide Candidates;
  }

  lemma DescriptionConserves(p: Peer, from: Id, s: Signal)
    requires Conserved(p) && s.Description? && !Overlaps(p, from, s)
    ensures Conserved(OnSignal(p, from, s))
  {
    DescriptionFrame(p, from, s);
    var q := OnSignal(p, from, s);
    assert !p.ready ==> p.signaling != HaveRemoteOffer;
    hide OnSignal, Conserved, StillToFlush;
    if q.handlers != p.handlers {
      var h := q.handlers[|p.handlers|];
      assert q.handlers == p.handlers + [h];
      AcceptedConserves(p, s, h);
    } else {
      IgnoredConserves(p, s);
    }
  }

  lemma OnSignalConserves(p: Peer, from: Id, s: Signal)
    requires Conserved(p)
    requires !Overlaps(p, from, s)
    ensures Conserved(OnSignal(p, from, s))
  {
    hide *;
    match s
    case IceCandidate(c) => CandidateConserves(p, from, c);
    case Description(d) => DescriptionConserves(p, from, s);
  }

  /** Handing over one more buffered candidate moves it from the buffer to the log. */
  lemma FlushConserves(p: Peer, purpose: Purpose, rest: seq<Candidate>, got: multiset<Candidate>)
    requires multiset(p.added) + multiset(rest) == got
    ensures var (q, h) := Flush(p, purpose, rest);
            && q == p.(added := q.added, pendingCandidates := q.pendingCandidates)
            && (h.Flushing? || h.Flushed?)
            && (h.Flushing? ==>
                  rest != [] && q.pendingCandidates == p.pendingCandidates
                  && multiset(q.added) + multiset(h.rest) == got)
            && (h.Flushed? ==> q.pendingCandidates == [] && multiset(q.added) == got)
  {
    if rest != [] {
      assert rest == [rest[0]] + rest[1..];
    }
  }

  lemma ContinueOnly(p: Peer, sdp: nat)
    requires |p.handlers| == 1
    ensures var (q, h, out) := Advance(p, p.handlers[0], sdp);
            Continue(p, 0, sdp) == (q.(handlers := if h.Some? then [h.value] else []), out)
  {
    hide Advance;
    var (q, h, out) := Advance(p, p.handlers[0], sdp);
    var kept := if h.Some? then [h.value] else [];
    assert p.handlers[..0] + kept + p.handlers[1..] == kept;
  }

  /** A handler that flushes: the flush goes on with `rest` on a peer that has just become, or was, ready. */
  lemma FlushedPeerConserved(p: Peer, purpose: Purpose, rest: seq<Candidate>)
    requires p.ready && p.remote.Some? && (rest != [] ==> p.pendingCandidates != [])
    requires multiset(p.added) + multiset(rest) == Candidates(p.seen)
    ensures var (q, h) := Flush(p, purpose, rest); Conserved(q.(handlers := [h]))
  {
    FlushConserves(p, purpose, rest, Candidates(p.seen));
    hide Candidates;
  }

  lemma FirstFlushConserves(p: Peer, sdp: nat)
    requires Conserved(p) && StillToFlush(p) && (p.handlers[0].SettingRemote? || p.handlers[0].Flushing?)
    ensures var (q, h, out) := Advance(p, p.handlers[0], sdp);
            Conserved(q.(handlers := if h.Some? then [h.value] else []))
  {
    var h := p.handlers[0];
    if h.SettingRemote? {
      FlushedPeerConserved(ApplyRemote(p, h.purpose, h.desc), h.purpose, p.pendingCandidates);
    } else {
      FlushedPeerConserved(p, h.purpose, h.rest);
    }
    hide Candidates, Flush;
  }

  lemma RollbackConserves(p: Peer, sdp: nat)
    requires Conserved(p) && StillToFlush(p) && p.handlers[0].RollingBack?
    ensures var (q, h, out) := Advance(p, p.handlers[0], sdp);
            Conserved(q.(handlers := if h.Some? then [h.value] else []))
  {
    hide Candidates, Flush;
  }

  lemma FlushedAdvance(p: Peer, i: nat, sdp: nat)
    requires Conserved(p) && p.ready && !StillToFlush(p) && i < |p.handlers|
    ensures var (q, h, out) := Advance(p, p.handlers[i], sdp);
            && q == p.(signaling := q.signaling, local := q.local, remote := q.remote) && q.remote.Some?
            && (h.Some? ==> !h.value.Flushing?)
  {
    assert p.handlers[i] in p.handlers;
    hide Candidates;
  }

  /** Once the buffer is empty for good, any number of handlers may come and go. */
  lemma FlushedConserves(p: Peer, i: nat, sdp: nat)
    requires Conserved(p) && p.ready && !StillToFlush(p) && i < |p.handlers|
    ensures Conserved(Continue(p, i, sdp).0)
  {
    var (q, h, out) := Advance(p, p.handlers[i], sdp);
    var p' := Continue(p, i, sdp).0;
    assert p.handlers[i] in p.handlers;
    FlushedAdvance(p, i, sdp);
    hide Advance, Candidates;
    forall k | k in p'.handlers ensures !k.Flushing? {
      assert k in p.handlers || (h.Some? && k == h.value);
    }
  }

  lemma ContinueConserves(p: Peer, i: nat, sdp: nat)
    requires Conserved(p) && i < |p.handlers|
    ensures Conserved(Continue(p, i, sdp).0)
  {
    if StillToFlush(p) {
      assert |p.handlers| == 1;
      ContinueOnly(p, sdp);
      if p.handlers[0].RollingBack? {
        RollbackConserves(p, sdp);
      } else {
        FirstFlushConserves(p, sdp);
      }
      hide Conserved, Advance, Continue;
    } else {
      FlushedConserves(p, i, sdp);
    }
  }

  // ---------------------------------------------------------------------------
  // One description, start to finish
  // ---------------------------------------------------------------------------

  /** The first waiting handler continues `k` times, and what is sent meanwhile. */
  function Continued(p: Peer, k: nat, sdp: nat): (Peer, seq<Signal>)
    decreases k
  {
    if k == 0 || p.handlers == [] then (p, [])
    else
      var (q, out) := Continue(p, 0, sdp);
      var (r, more) := Continued(q, k - 1, sdp);
      (r, out + more)
  }

  lemma ContinuedStep(p: Peer, h: Handler, k: nat, sdp: nat)
    requires p.handlers == [h] && k > 0
    ensures var (q, h', out) := Advance(p, h, sdp);
            var (r, more) := Continued(q.(handlers := if h'.Some? then [h'.value] else []), k - 1, sdp);
            Continued(p, k, sdp) == (r, if out == [] then more else out + more)
  {
    ContinueOnly(p, sdp);
    hide Advance, Continue;
    assert forall more: seq<Signal> :: [] + more == more;
  }

  lemma FlushingStep(p: Peer, purpose: Purpose, rest: seq<Candidate>, k: nat, sdp: nat)
    requires p.handlers == [Flushing(purpose, rest)] && k > 0
    ensures Continued(p, k, sdp) ==
            Continued(if rest == [] then p.(handlers := [Flushed(purpose)], pendingCandidates := [])
                      else p.(handlers := [Flushing(purpose, rest[1..])], added := p.added + [rest[0]]), k - 1, sdp)
  {
    ContinuedStep(p, Flushing(purpose, rest), k, sdp);
    hide Continued;
  }

  function Emptied(p: Peer, purpose: Purpose, rest: seq<Candidate>): Peer {
    p.(handlers := [Flushed(purpose)], pendingCandidates := [], added := p.added + rest)
  }

  lemma EmptiedOne(p: Peer, purpose: Purpose, rest: seq<Candidate>, handlers: seq<Handler>)
    requires rest != []
    ensures Emptied(p.(handlers := handlers, added := p.added + [rest[0]]), purpose, rest[1..]) ==
            Emptied(p, purpose, rest)
    ensures Emptied(p, purpose, []) == p.(handlers := [Flushed(purpose)], pendingCandidates := [])
  {
    assert p.added + [rest[0]] + rest[1..] == p.added + rest;
    assert p.added + [] == p.added;
  }

  /** A flush hands over the rest of the buffer in order, one candidate a step, and empties the buffer. */
  lemma {:induction false} FlushedInOrder(p: Peer, purpose: Purpose, rest: seq<Candidate>, k: nat, sdp: nat)
    requires p.handlers == [Flushing(purpose, rest)]
    ensures Continued(p, |rest| + 1 + k, sdp) == Continued(Emptied(p, purpose, rest), k, sdp)
    decreases |rest|
  {
    hide *;
    FlushingStep(p, purpose, rest, |rest| + 1 + k, sdp);
    if rest == [] {
      EmptiedOne(p, purpose, [0], []);
    } else {
      EmptiedOne(p, purpose, rest, [Flushing(purpose, rest[1..])]);
      FlushedInOrder(p.(handlers := [Flushing(purpose, rest[1..])], added := p.added + [rest[0]]),
                     purpose, rest[1..], k, sdp);
    }
  }

  lemma SettingStep(p: Peer, purpose: Purpose, d: Desc, k: nat, sdp: nat)
    requires p.handlers == [SettingRemote(purpose, d)] && (purpose == ForAnswer ==> p.signaling == HaveLocalOffer)
    requires k > 0
    ensures var q, buffer := ApplyRemote(p, purpose, d), p.pendingCandidates;
            && q.pendingCandidates == buffer && q.added == p.added
            && Continued(p, k, sdp) ==
               Continued(if buffer == [] then q.(handlers := [Flushed(purpose)], pendingCandidates := [])
                         else q.(handlers := [Flushing(purpose, buffer[1..])], added := q.added + [buffer[0]]),
                         k - 1, sdp)
  {
    ContinuedStep(p, SettingRemote(purpose, d), k, sdp);
    hide Continued;
  }

  /** A description that is being set is applied, and the buffered candidates follow it in order. */
  lemma SetThenFlushed(p: Peer, purpose: Purpose, d: Desc, k: nat, sdp: nat)
    requires p.handlers == [SettingRemote(purpose, d)] && (purpose == ForAnswer ==> p.signaling == HaveLocalOffer)
    ensures Continued(p, |p.pendingCandidates| + 1 + k, sdp) ==
            Continued(Emptied(ApplyRemote(p, purpose, d), purpose, p.pendingCandidates), k, sdp)
  {
    hide *;
    var q, buffer := ApplyRemote(p, purpose, d), p.pendingCandidates;
    SettingStep(p, purpose, d, |buffer| + 1 + k, sdp);
    if buffer == [] {
      EmptiedOne(q, purpose, [0], []);
    } else {
      EmptiedOne(q, purpose, buffer, [Flushing(purpose, buffer[1..])]);
      FlushedInOrder(q.(handlers := [Flushing(purpose, buffer[1..])], added := q.added + [buffer[0]]),
                     purpose, buffer[1..], k, sdp);
    }
  }

  lemma ContinuedNothing(p: Peer, sdp: nat)
    ensures Continued(p, 0, sdp) == (p, [])
  {
  }

  lemma LocalAnswerIsSent(p: Peer, desc: Desc, sdp: nat)
    requires p.handlers == [SettingLocalAnswer(desc)] && p.signaling == HaveRemoteOffer
    ensures Continued(p, 1, sdp) == (p.(handlers := [], signaling := Stable, local := Some(desc)), [Description(desc)])
  {
    var done := p.(handlers := [], signaling := Stable, local := Some(desc));
    ContinuedStep(p, SettingLocalAnswer(desc), 1, sdp);
    ContinuedNothing(done, sdp);
    hide Continued;
    assert [Description(desc)] + [] == [Description(desc)];
  }

  /** An offer that is set after an own one has come in between rolls that back. */
  lemma OfferOverLocalOffer(p: Peer, offer: Desc, sdp: nat)
    requires p.handlers == [SettingRemote(ForOffer, offer)]
    ensures var q := Continued(p, 1, sdp).0;
            && q.signaling == HaveRemoteOffer && q.remote == Some(offer) && q.ready
            && (p.signaling == HaveLocalOffer ==> q.local.None?) && (p.signaling == Stable ==> q.local == p.local)
  {
    ContinuedStep(p, SettingRemote(ForOffer, offer), 1, sdp);
  }

  lemma OfferFlushedIsAnswered(p: Peer, answer: nat)
    requires p.handlers == [Flushed(ForOffer)] && p.signaling == HaveRemoteOffer && p.remote.Some?
    ensures var desc := Answer(answer, p.remote.value.sdp);
            Continued(p, 3, answer) ==
            (p.(handlers := [], signaling := Stable, local := Some(desc)), [Description(desc)])
  {
    var desc := Answer(answer, p.remote.value.sdp);
    ContinuedStep(p, Flushed(ForOffer), 3, answer);
    ContinuedStep(p.(handlers := [CreatingAnswer]), CreatingAnswer, 2, answer);
    LocalAnswerIsSent(p.(handlers := [SettingLocalAnswer(desc)]), desc, answer);
    hide Continued;
  }

  /** The polite end of a glare takes its own offer back first. */
  lemma OfferIsSet(p: Peer, from: Id, sdp: nat, k: nat, answer: nat)
    requires p.handlers == [] && (p.signaling == Stable || (p.signaling == HaveLocalOffer && from <= p.peerId))
    ensures var signal := Description(Offer(sdp));
            Continued(OnSignal(p, from, signal), if p.signaling == Stable then k else k + 1, answer) ==
            Continued(p.(seen := p.seen + [signal], signaling := Stable,
                         local := if p.signaling == Stable then p.local else None,
                         handlers := [SettingRemote(ForOffer, Offer(sdp))]), k, answer)
  {
    if p.signaling == HaveLocalOffer {
      var heard := OnSignal(p, from, Description(Offer(sdp)));
      assert heard.handlers == [RollingBack(Offer(sdp))];
      ContinuedStep(heard, RollingBack(Offer(sdp)), k + 1, answer);
    }
    hide Continued;
  }

  /**
    An offer is answered, also by the polite end of a glare, which takes its own offer back: once
    its handler has run, the offer is applied, every buffered candidate has been handed over in
    order, and one answer to this offer is set and sent.
   */
  lemma OfferIsAnswered(p: Peer, from: Id, sdp: nat, answer: nat)
    requires p.handlers == [] && (p.signaling == Stable || (p.signaling == HaveLocalOffer && from <= p.peerId))
    ensures var signal := Description(Offer(sdp));
            var k := |p.pendingCandidates| + 4;
            Continued(OnSignal(p, from, signal), if p.signaling == Stable then k else k + 1, answer) ==
            (p.(seen := p.seen + [signal], signaling := Stable, ready := true,
                remote := Some(Offer(sdp)), local := Some(Answer(answer, sdp)),
                pendingCandidates := [], added := p.added + p.pendingCandidates),
             [Description(Answer(answer, sdp))])
  {
    var offer, k := Offer(sdp), |p.pendingCandidates| + 4;
    OfferIsSet(p, from, sdp, k, answer);
    var setting := p.(seen := p.seen + [Description(offer)], signaling := Stable,
                      local := if p.signaling == Stable then p.local else None,
                      handlers := [SettingRemote(ForOffer, offer)]);
    hide *;
    SetOfferIsAnswered(setting, sdp, answer);
  }

  lemma SetOfferIsAnswered(p: Peer, sdp: nat, answer: nat)
    requires p.handlers == [SettingRemote(ForOffer, Offer(sdp))] && p.signaling == Stable
    ensures Continued(p, |p.pendingCandidates| + 4, answer) ==
            (p.(handlers := [], ready := true, remote := Some(Offer(sdp)), local := Some(Answer(answer, sdp)),
                pendingCandidates := [], added := p.added + p.pendingCandidates), [Description(Answer(answer, sdp))])
  {
    SetThenFlushed(p, ForOffer, Offer(sdp), 3, answer);
    hide Continued;
    OfferFlushedIsAnswered(Emptied(ApplyRemote(p, ForOffer, Offer(sdp)), ForOffer, p.pendingCandidates), answer);
  }

  /** An answer to the offer that is out is applied, and every buffered candidate handed over in order. */
  lemma AnswerIsApplied(p: Peer, from: Id, sdp: nat, to: nat)
    requires p.handlers == [] && p.signaling == HaveLocalOffer
    ensures var signal := Description(Answer(sdp, to));
            Continued(OnSignal(p, from, signal), |p.pendingCandidates| + 2, 0) ==
            (p.(seen := p.seen + [signal], signaling := Stable, ready := true, remote := Some(Answer(sdp, to)),
                pendingCandidates := [], added := p.added + p.pendingCandidates), [])
  {
    var heard := OnSignal(p, from, Description(Answer(sdp, to)));
    SetThenFlushed(heard, ForAnswer, Answer(sdp, to), 1, 0);
    var flushed := Emptied(ApplyRemote(heard, ForAnswer, Answer(sdp, to)), ForAnswer, p.pendingCandidates);
    ContinuedStep(flushed, Flushed(ForAnswer), 1, 0);
    ContinuedNothing(flushed.(handlers := []), 0);
    hide Continued;
  }

  /** Any other description is noted and ignored: an offer over another one, or in a glare at the impolite end. */
  lemma IgnoredExactly(p: Peer, from: Id, d: Desc)
    ensures OnSignal(p, from, Description(d)).handlers == p.handlers <==>
              if d.Offer? then p.signaling == HaveRemoteOffer || (p.signaling == HaveLocalOffer && p.peerId < from)
              else p.signaling != HaveLocalOffer
  {
  }

  /** What can happen to one connection. */
  datatype Event =
    | Receive(signal: Signal)
    | Resume(handler: nat, sdp: nat)
    | LocalOffer(offer: Desc)

  function Step(p: Peer, from: Id, e: Event): Peer {
    match e
    case Receive(s) => OnSignal(p, from, s)
    case Resume(i, sdp) => if i < |p.handlers| then Continue(p, i, sdp).0 else p
    case LocalOffer(d) => SetLocalOffer(p, d).GetOr(p)
  }

  function Run(p: Peer, from: Id, es: seq<Event>): Peer {
    if es == [] then p else Step(Run(p, from, es[..|es| - 1]), from, es[|es| - 1])
  }

  function Received(es: seq<Event>): seq<Signal> {
    if es == [] then []
    else Received(es[..|es| - 1]) + if es[|es| - 1].Receive? then [es[|es| - 1].signal] else []
  }

  lemma StepSees(p: Peer, from: Id, e: Event)
    ensures Step(p, from, e).seen == p.seen + if e.Receive? then [e.signal] else []
  {
  }

  lemma {:induction false} RunSees(id: Id, from: Id, es: seq<Event>)
    ensures Run(NewPeer(id), from, es).seen == Received(es)
  {
    if es != [] {
      RunSees(id, from, es[..|es| - 1]);
      StepSees(Run(NewPeer(id), from, es[..|es| - 1]), from, es[|es| - 1]);
      hide Step;
    }
  }

  /** No description of the run is accepted while another handler has still to flush. */
  predicate Separate(p: Peer, from: Id, es: seq<Event>) {
    es == [] ||
    (Separate(p, from, es[..|es| - 1]) &&
     (es[|es| - 1].Receive? ==> !Overlaps(Run(p, from, es[..|es| - 1]), from, es[|es| - 1].signal)))
  }

  /**
    Candidate conservation: in every interleaving of signals, handler steps and local offers, with
    any number of descriptions of which none overlaps a handler that has still to flush, every
    received candidate is handed to the connection exactly once, and none before the remote
    description is set. When the connection is ready and nothing is left to flush, all of them
    have been handed over.
   */
  lemma {:induction false} CandidateConservation(id: Id, from: Id, es: seq<Event>)
    requires Separate(NewPeer(id), from, es)
    ensures var p := Run(NewPeer(id), from, es);
            && multiset(p.added) <= Candidates(Received(es))
            && (p.added != [] ==> p.remote.Some?)
            && (p.ready && !StillToFlush(p) ==> multiset(p.added) == Candidates(Received(es)))
  {
    RunSees(id, from, es);
    NewPeerConserved(id);
    RunConserves(NewPeer(id), from, es);
  }

  lemma {:induction false} RunConserves(p: Peer, from: Id, es: seq<Event>)
    requires Conserved(p) && Separate(p, from, es)
    ensures Conserved(Run(p, from, es))
  {
    if es != [] {
      RunConserves(p, from, es[..|es| - 1]);
      StepConserves(Run(p, from, es[..|es| - 1]), from, es[|es| - 1]);
      hide Conserved, Step, Overlaps;
    }
  }

  lemma LocalOfferConserves(p: Peer, offer: Desc)
    requires Conserved(p)
    ensures Conserved(SetLocalOffer(p, offer).GetOr(p))
  {
    hide Candidates;
  }

  lemma StepConserves(p: Peer, from: Id, e: Event)
    requires Conserved(p)
    requires e.Receive? ==> !Overlaps(p, from, e.signal)
    ensures Conserved(Step(p, from, e))
  {
    hide OnSignal, Continue, Conserved, Overlaps, SetLocalOffer;
    match e
    case Receive(s) => OnSignalConserves(p, from, s);
    case Resume(i, sdp) =>
      if i < |p.handlers| {
        ContinueConserves(p, i, sdp);
      }
    case LocalOffer(d) => LocalOfferConserves(p, d);
  }

  lemma RunAppend(p: Peer, from: Id, es: seq<Event>, e: Event)
    ensures Run(p, from, es + [e]) == Step(Run(p, from, es), from, e)
    ensures Received(es + [e]) == Received(es) + if e.Receive? then [e.signal] else []
  {
    assert (es + [e])[..|es|] == es;
  }

  /**
    An overlap does harm. The signalling state only changes when the browser has
    applied an offer, so a second copy that arrives before that passes the same test, and both
    handlers flush the same buffer: the buffered candidate is handed over twice.
   */
  lemma RepeatedOfferHandsOverTwice()
    ensures var offer := Receive(Description(Offer(1)));
            var es := [Receive(IceCandidate(7))] + [offer] + [offer] + [Resume(0, 0)] + [Resume(1, 0)];
            Run(NewPeer(2), 2, es).added == [7, 7] && Candidates(Received(es)) == multiset{7}
  {
    var d := Offer(1);
    var offer := Receive(Description(d));
    var e0 := [Receive(IceCandidate(7))];
    var e1 := e0 + [offer];
    var e2 := e1 + [offer];
    var e3 := e2 + [Resume(0, 0)];
    var p0 := NewPeer(2);
    assert [] + e0 == e0;
    RunAppend(p0, 2, [], Receive(IceCandidate(7)));
    RunAppend(p0, 2, e0, offer);
    RunAppend(p0, 2, e1, offer);
    RunAppend(p0, 2, e2, Resume(0, 0));
    RunAppend(p0, 2, e3, Resume(1, 0));
    SeenAppend([], IceCandidate(7));
    SeenAppend(Received(e0), Description(d));
    SeenAppend(Received(e1), Description(d));
    assert Run(p0, 2, []) == p0 && Received([]) == [] && Candidates([]) == multiset{};
    assert Received(e3 + [Resume(1, 0)]) == Received(e0) + [Description(d)] + [Description(d)];
    hide Run, Received, Candidates;
    var waiting := SettingRemote(ForOffer, d);
    var p2 := Run(p0, 2, e2);
    assert p2.pendingCandidates == [7] && p2.handlers == [waiting, waiting] && p2.signaling == Stable;
    var p3 := Run(p0, 2, e3);
    assert p3 == Continue(p2, 0, 0).0;
    assert p2.handlers[..0] == [] && p2.handlers[1..] == [waiting];
    assert p2.pendingCandidates[1..] == [];
    assert p3.handlers == [Flushing(ForOffer, []), waiting] && p3.added == [7];
  }
}
