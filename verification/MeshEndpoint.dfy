/**
  One participant's side of the mesh (src/hooks/useWebRTC.ts): the peer map, the queue of signals
  whose peer does not exist yet, and the `createMeshPeers` call that is creating the peers.

  The class has the hook's refs as fields and one method per stretch of code between two
  `await`s. The functions on `Endpoint` specify them; the lemmas are about those functions.
 */
module MeshEndpoint {
  import opened Wrappers
  import opened MeshPeer

  datatype Participant = Participant(peerId: Id, offerer: bool)

  /**
    Where the call of `createMeshPeers` waits; `at` is the index of the participant. `Running`
    stands for a stretch of the participant loop between two waits.
   */
  datatype Creating =
    | FetchingIce
    | Running
    | CreatingOffer(at: nat)
    | SettingLocalOffer(at: nat, offer: Desc)
    | Returned
    | Rejected

  datatype Pending = Pending(from: Id, signal: Signal)

  datatype Sent = Sent(to: Id, signal: Signal)

  datatype Endpoint = Endpoint(
    me: Id,
    participants: seq<Participant>,
    peers: map<Id, Peer>,
    queue: seq<Pending>,
    creating: Creating)

  // ---------------------------------------------------------------------------
  // Specification of the methods
  // ---------------------------------------------------------------------------

  /** `createMeshPeers` up to its first `await`: `clear()`, then the ICE servers are fetched. */
  function Start(me: Id, participants: seq<Participant>): Endpoint {
    Endpoint(me, participants, map[], [], FetchingIce)
  }

  function Handle(e: Endpoint, from: Id, s: Signal): Endpoint {
    if from in e.peers then e.(peers := e.peers[from := OnSignal(e.peers[from], from, s)])
    else e.(queue := e.queue + [Pending(from, s)])
  }

  function HandleAll(e: Endpoint, sigs: seq<Pending>): (f: Endpoint)
    ensures f == e.(peers := f.peers, queue := f.queue) && f.peers.Keys == e.peers.Keys
    decreases |sigs|
  {
    if sigs == [] then e
    else HandleAll(Handle(e, sigs[0].from, sigs[0].signal), sigs[1..])
  }

  function Drain(e: Endpoint): Endpoint { HandleAll(e.(queue := []), e.queue) }

  function AddPeer(e: Endpoint, id: Id): Endpoint { Drain(e.(peers := e.peers[id := NewPeer(id)])) }

  predicate Skipped(e: Endpoint, k: nat)
    requires k < |e.participants|
  {
    e.participants[k].peerId == e.me || e.participants[k].peerId in e.peers
  }

  /** The loop of `createMeshPeers` from participant `k` on, up to the next `await`. */
  function CreateFrom(e: Endpoint, k: nat): Endpoint
    requires k <= |e.participants|
    decreases |e.participants| - k
  {
    if k == |e.participants| then Drain(e).(creating := Returned)
    else if Skipped(e, k) then CreateFrom(e, k + 1)
    else
      var added := AddPeer(e, e.participants[k].peerId);
      if e.participants[k].offerer then added.(creating := CreatingOffer(k))
      else CreateFrom(added, k + 1)
  }

  predicate CanCreate(e: Endpoint) {
    (e.creating.CreatingOffer? || e.creating.SettingLocalOffer? ==>
          e.creating.at < |e.participants| && e.participants[e.creating.at].peerId in e.peers)
  }

  /** The call of `createMeshPeers` continues; `sdp` is the browser's choice for a created offer. */
  function Create(e: Endpoint, sdp: nat): (Endpoint, seq<Sent>)
    requires CanCreate(e)
  {
    match e.creating
    case FetchingIce => (CreateFrom(e.(creating := Running), 0), [])
    case CreatingOffer(at) => (e.(creating := SettingLocalOffer(at, Offer(sdp))), [])
    case SettingLocalOffer(at, offer) =>
      var id := e.participants[at].peerId;
      (match SetLocalOffer(e.peers[id], offer)
       case None => (e.(creating := Rejected), [])
       case Some(p) =>
         (CreateFrom(e.(peers := e.peers[id := p], creating := Running), at + 1), [Sent(id, Description(offer))]))
    case _ => (e, [])
  }

  /** The `i`-th waiting handler of the peer `id` continues. */
  function Proceed(e: Endpoint, id: Id, i: nat, sdp: nat): (Endpoint, seq<Sent>)
    requires id in e.peers && i < |e.peers[id].handlers|
  {
    var (p, out) := Continue(e.peers[id], i, sdp);
    (e.(peers := e.peers[id := p]), seq(|out|, k requires 0 <= k < |out| => Sent(id, out[k])))
  }

  // ---------------------------------------------------------------------------
  // The hook
  // ---------------------------------------------------------------------------

  class Mesh {
    var me: Id
    var participants: seq<Participant>
    var peers: map<Id, Peer>
    var pendingSignals: seq<Pending>
    var creating: Creating

    function View(): Endpoint
      reads this
    {
      Endpoint(me, participants, peers, pendingSignals, creating)
    }

    constructor (me: Id, participants: seq<Participant>)
      ensures View() == Start(me, participants)
    {
      this.me, this.participants := me, participants;
      peers, pendingSignals, creating := map[], [], FetchingIce;
    }

    method Clear()
      modifies this
      ensures View() == old(View()).(peers := map[], queue := [])
    {
      peers := map[];
      pendingSignals := [];
    }

    method RemovePeer(id: Id)
      modifies this
      ensures View() == old(View()).(peers := old(peers) - {id})
    {
      peers := peers - {id};
    }

    method HandleSignal(from: Id, s: Signal)
      modifies this
      ensures View() == Handle(old(View()), from, s)
    {
      if from !in peers {
        pendingSignals := pendingSignals + [Pending(from, s)];
        return;
      }
      var peer := peers[from];
      peer := peer.(seen := peer.seen + [s]);
      match s {
        case Description(Offer(_)) =>
          if peer.signaling != Stable {
            if peer.signaling == HaveLocalOffer {
              if peer.peerId < from {
                peers := peers[from := peer];
                return;
              }
              peer := peer.(handlers := peer.handlers + [RollingBack(s.desc)]);
            }
          } else {
            peer := peer.(handlers := peer.handlers + [SettingRemote(ForOffer, s.desc)]);
          }
        case Description(Answer(_, _)) =>
          if peer.signaling == HaveLocalOffer {
            peer := peer.(handlers := peer.handlers + [SettingRemote(ForAnswer, s.desc)]);
          }
        case IceCandidate(c) =>
          if !peer.ready {
            peer := peer.(pendingCandidates := peer.pendingCandidates + [c]);
          } else {
            peer := peer.(added := peer.added + [c], adding := peer.adding + 1);
          }
      }
      peers := peers[from := peer];
    }

    method DrainPendingSignals()
      modifies this
      ensures View() == Drain(old(View()))
    {
      if |pendingSignals| == 0 {
        return;
      }
      var pending := pendingSignals;
      pendingSignals := [];
      ghost var start := View();
      for i := 0 to |pending|
        invariant HandleAll(View(), pending[i..]) == HandleAll(start, pending)
      {
        HandleSignal(pending[i].from, pending[i].signal);
        assert pending[i..][1..] == pending[i + 1..];
      }
    }

    /** The participant loop, from participant `k` up to its next `await`. */
    method CreatePeers(k: nat)
      requires k <= |participants|
      modifies this
      ensures View() == CreateFrom(old(View()), k)
    {
      var i := k;
      while i < |participants|
        invariant participants == old(participants) && me == old(me) && i <= |participants|
        invariant CreateFrom(View(), i) == CreateFrom(old(View()), k)
      {
        var participant := participants[i];
        if participant.peerId == me || participant.peerId in peers {
          i := i + 1;
          continue;
        }
        peers := peers[participant.peerId := NewPeer(participant.peerId)];
        DrainPendingSignals();
        if participant.offerer {
          creating := CreatingOffer(i);
          return;
        }
        i := i + 1;
      }
      DrainPendingSignals();
      creating := Returned;
    }

    method CreateMeshPeers(sdp: nat) returns (sent: seq<Sent>)
      requires CanCreate(View())
      modifies this
      ensures (View(), sent) == Create(old(View()), sdp)
    {
      sent := [];
      match creating {
        case FetchingIce =>
          creating := Running;
          CreatePeers(0);
        case CreatingOffer(at) =>
          creating := SettingLocalOffer(at, Offer(sdp));
        case SettingLocalOffer(at, offer) =>
          var id := participants[at].peerId;
          var peer := peers[id];
          if peer.signaling == HaveRemoteOffer {
            creating := Rejected;
            return;
          }
          peers := peers[id := peer.(signaling := HaveLocalOffer, local := Some(offer))];
          sent := [Sent(id, Description(offer))];
          creating := Running;
          CreatePeers(at + 1);
        case _ =>
      }
    }

    method ResumeHandler(id: Id, i: nat, sdp: nat) returns (sent: seq<Sent>)
      requires id in peers && i < |peers[id].handlers|
      modifies this
      ensures (View(), sent) == Proceed(old(View()), id, i, sdp)
    {
      var (peer, out) := Continue(peers[id], i, sdp);
      peers := peers[id := peer];
      sent := seq(|out|, k requires 0 <= k < |out| => Sent(id, out[k]));
    }
  }

  // ---------------------------------------------------------------------------
  // Early signals survive
  // ---------------------------------------------------------------------------

  /** The queued signals of one sender, in order. */
  function Waiting(queue: seq<Pending>, id: Id): seq<Signal> {
    if queue == [] then []
    else Waiting(queue[..|queue| - 1], id)
         + if queue[|queue| - 1].from == id then [queue[|queue| - 1].signal] else []
  }

  function Handled(e: Endpoint, id: Id): seq<Signal> {
    if id in e.peers then e.peers[id].seen else []
  }

  /** Everything that arrived from `id`: what its handler was run for, then what is still queued. */
  function Account(e: Endpoint, id: Id): seq<Signal> { Handled(e, id) + Waiting(e.queue, id) }

  /** No signal waits in the queue once its peer exists. */
  ghost predicate NoneOverdue(e: Endpoint) {
    forall k | 0 <= k < |e.queue| :: e.queue[k].from !in e.peers
  }

  lemma WaitingAppend(queue: seq<Pending>, p: Pending, id: Id)
    ensures Waiting(queue + [p], id) == Waiting(queue, id) + if p.from == id then [p.signal] else []
  {
    assert (queue + [p])[..|queue|] == queue;
  }

  lemma {:induction false} WaitingFirst(queue: seq<Pending>, id: Id)
    requires queue != []
    ensures Waiting(queue, id) == (if queue[0].from == id then [queue[0].signal] else []) + Waiting(queue[1..], id)
    decreases |queue|
  {
    var front := queue[..|queue| - 1];
    if front == [] {
      assert Waiting(front, id) == [];
    } else {
      WaitingFirst(front, id);
      assert queue[1..][..|queue| - 2] == front[1..];
    }
  }

  lemma {:induction false} WaitingNone(queue: seq<Pending>, id: Id)
    requires forall k | 0 <= k < |queue| :: queue[k].from != id
    ensures Waiting(queue, id) == []
    decreases |queue|
  {
    if queue != [] {
      WaitingNone(queue[..|queue| - 1], id);
    }
  }

  lemma HandleAccounts(e: Endpoint, from: Id, s: Signal, id: Id)
    requires NoneOverdue(e)
    ensures NoneOverdue(Handle(e, from, s))
    ensures Account(Handle(e, from, s), id) == Account(e, id) + if from == id then [s] else []
  {
    hide Waiting;
    var f := Handle(e, from, s);
    if from in e.peers {
      assert f.peers[from].seen == e.peers[from].seen + [s];
      WaitingNone(e.queue, from);
    } else {
      WaitingAppend(e.queue, Pending(from, s), id);
    }
  }

  lemma {:induction false} HandleAllAccounts(e: Endpoint, sigs: seq<Pending>, id: Id)
    requires NoneOverdue(e)
    ensures NoneOverdue(HandleAll(e, sigs))
    ensures Account(HandleAll(e, sigs), id) == Account(e, id) + Waiting(sigs, id)
    decreases |sigs|
  {
    hide Account, Handle, NoneOverdue;
    if sigs == [] {
      assert Account(e, id) + [] == Account(e, id);
    } else {
      HandleAccounts(e, sigs[0].from, sigs[0].signal, id);
      WaitingFirst(sigs, id);
      HandleAllAccounts(Handle(e, sigs[0].from, sigs[0].signal), sigs[1..], id);
    }
  }

  lemma DrainAccounts(e: Endpoint, id: Id)
    ensures NoneOverdue(Drain(e))
    ensures Account(Drain(e), id) == Account(e, id)
  {
    HandleAllAccounts(e.(queue := []), e.queue, id);
    assert Handled(e, id) + [] == Handled(e, id);
  }

  lemma AddPeerAccounts(e: Endpoint, added: Id, id: Id)
    requires added !in e.peers
    ensures NoneOverdue(AddPeer(e, added))
    ensures Account(AddPeer(e, added), id) == Account(e, id)
    ensures AddPeer(e, added).peers.Keys == e.peers.Keys + {added}
  {
    DrainAccounts(e.(peers := e.peers[added := NewPeer(added)]), id);
  }

  /** Every participant before the `k`-th has been given its peer. */
  ghost predicate Covered(e: Endpoint, k: nat) {
    k <= |e.participants| &&
    forall j | 0 <= j < k :: e.participants[j].peerId == e.me || e.participants[j].peerId in e.peers
  }

  ghost predicate Listed(participants: seq<Participant>, id: Id) {
    exists k | 0 <= k < |participants| :: participants[k].peerId == id
  }

  /** Every peer is a listed participant other than this one. */
  ghost predicate Rostered(e: Endpoint) {
    e.me !in e.peers && forall id | id in e.peers :: Listed(e.participants, id)
  }

  ghost predicate Progressing(e: Endpoint) {
    Rostered(e) &&
    match e.creating
    case FetchingIce => e.peers == map[]
    case Running => true
    case CreatingOffer(at) => Covered(e, at + 1) && e.participants[at].peerId in e.peers
    case SettingLocalOffer(at, offer) => Covered(e, at + 1) && e.participants[at].peerId in e.peers && offer.Offer?
    case Returned => Covered(e, |e.participants|)
    case Rejected => true
  }

  lemma {:induction false} CreateFromAccounts(e: Endpoint, k: nat, id: Id)
    requires Covered(e, k) && Rostered(e)
    ensures var f := CreateFrom(e, k);
            && NoneOverdue(f)
            && Account(f, id) == Account(e, id)
            && Progressing(f)
            && f.me == e.me && f.participants == e.participants
    decreases |e.participants| - k
  {
    if k == |e.participants| {
      DrainAccounts(e, id);
    } else if Skipped(e, k) {
      CreateFromAccounts(e, k + 1, id);
    } else {
      hide NoneOverdue, Account;
      var added := AddPeer(e, e.participants[k].peerId);
      AddPeerAccounts(e, e.participants[k].peerId, id);
      assert Covered(added, k + 1);
      if e.participants[k].offerer {
        UnwaitedAccount(added, CreatingOffer(k), id);
      } else {
        CreateFromAccounts(added, k + 1, id);
      }
    }
  }

  lemma UnwaitedAccount(e: Endpoint, c: Creating, id: Id)
    ensures Account(e.(creating := c), id) == Account(e, id)
    ensures NoneOverdue(e.(creating := c)) == NoneOverdue(e)
  {
  }

  datatype Event =
    | Arrive(from: Id, signal: Signal)
    | Resumed(id: Id, handler: nat, sdp: nat)
    | Created(sdp: nat)

  function Step(e: Endpoint, v: Event): Endpoint {
    match v
    case Arrive(from, s) => Handle(e, from, s)
    case Resumed(id, i, sdp) => if id in e.peers && i < |e.peers[id].handlers| then Proceed(e, id, i, sdp).0 else e
    case Created(sdp) => if CanCreate(e) then Create(e, sdp).0 else e
  }

  function Run(e: Endpoint, vs: seq<Event>): Endpoint {
    if vs == [] then e else Step(Run(e, vs[..|vs| - 1]), vs[|vs| - 1])
  }

  function ArrivedFrom(vs: seq<Event>, id: Id): seq<Signal> {
    if vs == [] then []
    else
      var v := vs[|vs| - 1];
      ArrivedFrom(vs[..|vs| - 1], id) + if v.Arrive? && v.from == id then [v.signal] else []
  }

  lemma ContinueSees(p: Peer, i: nat, sdp: nat)
    requires i < |p.handlers|
    ensures Continue(p, i, sdp).0.seen == p.seen
  {
  }

  /** Replacing a peer by one that has seen the same signals changes no account. */
  lemma SamePeerAccounts(e: Endpoint, at: Id, p: Peer, id: Id)
    requires at in e.peers && p.seen == e.peers[at].seen
    ensures var f := e.(peers := e.peers[at := p]);
            Account(f, id) == Account(e, id) && NoneOverdue(f) == NoneOverdue(e) && f.peers.Keys == e.peers.Keys
  {
  }

  lemma CreateAccounts(e: Endpoint, sdp: nat, id: Id)
    requires NoneOverdue(e) && Progressing(e) && CanCreate(e)
    ensures var f := Create(e, sdp).0;
            && NoneOverdue(f)
            && Account(f, id) == Account(e, id)
            && Progressing(f)
            && f.me == e.me && f.participants == e.participants
  {
    hide Account, NoneOverdue;
    UnwaitedAccount(e, Running, id);
    match e.creating
    case FetchingIce => CreateFromAccounts(e.(creating := Running), 0, id);
    case CreatingOffer(at) => UnwaitedAccount(e, SettingLocalOffer(at, Offer(sdp)), id);
    case SettingLocalOffer(at, offer) =>
      var peerId := e.participants[at].peerId;
      match SetLocalOffer(e.peers[peerId], offer) {
        case None => UnwaitedAccount(e, Rejected, id);
        case Some(p) =>
          SamePeerAccounts(e.(creating := Running), peerId, p, id);
          CreateFromAccounts(e.(peers := e.peers[peerId := p], creating := Running), at + 1, id);
      }
    case _ =>
  }

  lemma StepAccounts(e: Endpoint, v: Event, id: Id)
    requires NoneOverdue(e) && Progressing(e)
    ensures var f := Step(e, v);
            && NoneOverdue(f)
            && Progressing(f)
            && f.me == e.me && f.participants == e.participants
            && Account(f, id) == Account(e, id) + if v.Arrive? && v.from == id then [v.signal] else []
  {
    assert Account(e, id) + [] == Account(e, id);
    match v
    case Arrive(from, s) =>
      HandleAccounts(e, from, s, id);
    case Resumed(at, i, sdp) =>
      if at in e.peers && i < |e.peers[at].handlers| {
        ContinueSees(e.peers[at], i, sdp);
        SamePeerAccounts(e, at, Continue(e.peers[at], i, sdp).0, id);
        hide Continue, Account, NoneOverdue;
      }
    case Created(sdp) =>
      if CanCreate(e) {
        CreateAccounts(e, sdp, id);
      }
  }

  lemma {:induction false} RunAccounts(me: Id, participants: seq<Participant>, vs: seq<Event>, id: Id)
    ensures var e := Run(Start(me, participants), vs);
            && NoneOverdue(e)
            && Progressing(e)
            && e.me == me && e.participants == participants
            && Account(e, id) == ArrivedFrom(vs, id)
  {
    if vs != [] {
      RunAccounts(me, participants, vs[..|vs| - 1], id);
      StepAccounts(Run(Start(me, participants), vs[..|vs| - 1]), vs[|vs| - 1], id);
      hide Step, Account, NoneOverdue, Progressing;
    }
  }

  /**
    Early signals survive: from the `clear()` of `createMeshPeers` on, whatever arrives and however
    it interleaves with the creation of the peers, once the call has returned the handler of
    every listed participant has run for exactly the signals that arrived from it, each once and
    in order of arrival, and the queue holds only signals of ids that are not listed.
   */
  lemma EarlySignalsSurvive(me: Id, participants: seq<Participant>, vs: seq<Event>)
    ensures var e := Run(Start(me, participants), vs);
            e.creating.Returned? ==>
              && (forall id | Listed(participants, id) && id != me ::
                    id in e.peers && e.peers[id].seen == ArrivedFrom(vs, id))
              && (forall k | 0 <= k < |e.queue| :: e.queue[k].from == me || !Listed(participants, e.queue[k].from))
  {
    var e := Run(Start(me, participants), vs);
    RunAccounts(me, participants, vs, me);
    if e.creating.Returned? {
      forall id | Listed(participants, id) && id != me
        ensures id in e.peers && e.peers[id].seen == ArrivedFrom(vs, id)
      {
        RunAccounts(me, participants, vs, id);
        WaitingNone(e.queue, id);
      }
    }
  }
}
