/**
  Every run of the mesh comes to rest (src/hooks/useWebRTC.ts:383-491): each move that a signal, a handler
  or a call is waiting for lowers the work that is left, and once no such move is left the mesh
  is quiet.
 */
module MeshProgress {
  import opened Wrappers
  import opened MeshPeer
  import opened MeshEndpoint
  import opened MeshPair
  import opened MeshNetwork

  // ---------------------------------------------------------------------------
  // Sums
  // ---------------------------------------------------------------------------

  ghost function Sum<K(!new), V(!new)>(m: map<K, V>, f: V -> nat): nat
    decreases |m|
  {
    if m == map[] then 0
    else
      var k :| k in m;
      f(m[k]) + Sum(m - {k}, f)
  }

  lemma {:induction false} SumPick<K(!new), V(!new)>(m: map<K, V>, f: V -> nat, k: K)
    requires k in m
    ensures Sum(m, f) == f(m[k]) + Sum(m - {k}, f)
    decreases |m|
  {
    var j :| j in m && Sum(m, f) == f(m[j]) + Sum(m - {j}, f);
    if j != k {
      SumPick(m - {j}, f, k);
      SumPick(m - {k}, f, j);
      assert m - {j} - {k} == m - {k} - {j};
    }
  }

  lemma SumUpdate<K(!new), V(!new)>(m: map<K, V>, f: V -> nat, k: K, v: V)
    ensures Sum(m[k := v], f) + (if k in m then f(m[k]) else 0) == Sum(m, f) + f(v)
  {
    SumPick(m[k := v], f, k);
    if k in m {
      SumPick(m, f, k);
      assert m[k := v] - {k} == m - {k};
    } else {
      assert m[k := v] - {k} == m;
    }
  }

  /** What a signal weighs in a queue; on the way it weighs one more. */
  function SignalWork(s: Signal): nat {
    match s
    case IceCandidate(_) => 2
    case Description(Offer(_)) => 12
    case Description(Answer(_, _)) => 4
  }

  ghost function BagWork(b: multiset<Signal>): nat
    decreases |b|
  {
    if b == multiset{} then 0
    else
      var s :| s in b;
      SignalWork(s) + 1 + BagWork(b - multiset{s})
  }

  lemma {:induction false} BagPick(b: multiset<Signal>, s: Signal)
    requires s in b
    ensures BagWork(b) == SignalWork(s) + 1 + BagWork(b - multiset{s})
    decreases |b|
  {
    var r :| r in b && BagWork(b) == SignalWork(r) + 1 + BagWork(b - multiset{r});
    if r != s {
      hide *;
      var both := b - multiset{r} - multiset{s};
      assert both == b - multiset{s} - multiset{r};
      BagPick(b - multiset{r}, s);
      BagPick(b - multiset{s}, r);
    }
  }

  lemma BagPlus(b: multiset<Signal>, s: Signal)
    ensures BagWork(b + multiset{s}) == BagWork(b) + SignalWork(s) + 1
  {
    BagPick(b + multiset{s}, s);
    assert b + multiset{s} - multiset{s} == b;
  }

  function QueueWork(q: seq<Pending>): nat
    decreases |q|
  {
    if q == [] then 0 else SignalWork(q[0].signal) + QueueWork(q[1..])
  }

  lemma {:induction false} QueueAppend(q: seq<Pending>, p: Pending)
    ensures QueueWork(q + [p]) == QueueWork(q) + SignalWork(p.signal)
    decreases |q|
  {
    if q != [] {
      assert (q + [p])[1..] == q[1..] + [p];
      QueueAppend(q[1..], p);
    }
  }

  // ---------------------------------------------------------------------------
  // The work of one connection
  // ---------------------------------------------------------------------------

  /** The steps a handler has left, with what its answer costs the other end, but without its flush. */
  function HandlerWork(h: Handler): nat {
    match h
    case RollingBack(_) => 11
    case SettingRemote(ForOffer, _) => 10
    case SettingRemote(ForAnswer, _) => 3
    case Flushing(ForOffer, _) => 9
    case Flushing(ForAnswer, _) => 2
    case Flushed(ForOffer) => 8
    case Flushed(ForAnswer) => 1
    case CreatingAnswer => 7
    case SettingLocalAnswer(_) => 6
  }

  function HandlersWork(hs: seq<Handler>): nat {
    if hs == [] then 0 else HandlersWork(hs[..|hs| - 1]) + HandlerWork(hs[|hs| - 1])
  }

  /** The candidates that are still to be handed over from the buffer. */
  function FlushWork(p: Peer): nat {
    if !p.ready then |p.pendingCandidates|
    else if p.handlers != [] && p.handlers[0].Flushing? then |p.handlers[0].rest|
    else 0
  }

  function PeerWork(p: Peer): nat {
    HandlersWork(p.handlers) + FlushWork(p)
  }

  lemma HandlersAppend(hs: seq<Handler>, h: Handler)
    ensures HandlersWork(hs + [h]) == HandlersWork(hs) + HandlerWork(h)
  {
    assert (hs + [h])[..|hs|] == hs;
  }

  lemma SignalAddsLess(p: Peer, from: Id, s: Signal)
    ensures PeerWork(OnSignal(p, from, s)) < PeerWork(p) + SignalWork(s)
  {
    var q := OnSignal(p, from, s);
    if q.handlers != p.handlers {
      var h := q.handlers[|q.handlers| - 1];
      assert q.handlers == p.handlers + [h];
      HandlersAppend(p.handlers, h);
    }
  }

  /** What the signals sent by a step weigh on the way. */
  function OutWork(out: seq<Signal>): nat
    decreases |out|
  {
    if out == [] then 0 else SignalWork(out[0]) + 1 + OutWork(out[1..])
  }

  lemma OneHandlerWork(h: Handler)
    ensures HandlersWork([h]) == HandlerWork(h) && HandlersWork([]) == 0
  {
    assert [h][..0] == [];
  }

  lemma AnswerWeighs(d: Desc)
    requires d.Answer?
    ensures OutWork([Description(d)]) == 5
  {
    assert [Description(d)][1..] == [];
  }

  /** The answer a handler is about to set is an answer. */
  predicate Answering(p: Peer) {
    p.handlers != [] && p.handlers[0].SettingLocalAnswer? ==> p.handlers[0].answer.Answer?
  }

  lemma AdvanceLowers(p: Peer, sdp: nat)
    requires Conserved(p) && |p.handlers| == 1 && Answering(p)
    ensures var (q, h, out) := Advance(p, p.handlers[0], sdp);
            FlushWork(q.(handlers := if h.Some? then [h.value] else [])) + (if h.Some? then HandlerWork(h.value) else 0)
            + OutWork(out) < HandlerWork(p.handlers[0]) + FlushWork(p)
  {
    hide Candidates;
    if p.handlers[0].SettingLocalAnswer? {
      AnswerWeighs(p.handlers[0].answer);
    }
    assert OutWork([]) == 0;
  }

  /** A step of the only handler of a connection lowers its work by more than what it sends. */
  lemma ContinueLowers(p: Peer, sdp: nat)
    requires Conserved(p) && |p.handlers| == 1 && Answering(p)
    ensures var (q, out) := Continue(p, 0, sdp);
            PeerWork(q) + OutWork(out) < PeerWork(p)
  {
    ContinueOnly(p, sdp);
    AdvanceLowers(p, sdp);
    assert p.handlers == [p.handlers[0]];
    OneHandlerWork(p.handlers[0]);
    var (q, h, out) := Advance(p, p.handlers[0], sdp);
    if h.Some? {
      OneHandlerWork(h.value);
    }
    hide Advance, Conserved, Continue, FlushWork, HandlerWork;
  }

  // ---------------------------------------------------------------------------
  // The work of one endpoint
  // ---------------------------------------------------------------------------

  /** The waits that `createMeshPeers` has left, with what its offers cost the other ends. */
  function CreateWork(e: Endpoint): nat {
    match e.creating
    case FetchingIce => 15 * |e.participants| + 1
    case CreatingOffer(at) => if at < |e.participants| then 15 * (|e.participants| - at) else 0
    case SettingLocalOffer(at, _) => if at < |e.participants| then 15 * (|e.participants| - at) - 1 else 0
    case _ => 0
  }

  /** The work besides creating peers. */
  ghost function RestWork(e: Endpoint): nat {
    QueueWork(e.queue) + Sum(e.peers, PeerWork)
  }

  ghost function EndWork(e: Endpoint): nat {
    CreateWork(e) + RestWork(e)
  }

  lemma HandleAdds(e: Endpoint, from: Id, s: Signal)
    ensures RestWork(Handle(e, from, s)) <= RestWork(e) + SignalWork(s)
    ensures CreateWork(Handle(e, from, s)) == CreateWork(e)
  {
    if from in e.peers {
      SignalAddsLess(e.peers[from], from, s);
      SumUpdate(e.peers, PeerWork, from, OnSignal(e.peers[from], from, s));
    } else {
      QueueAppend(e.queue, Pending(from, s));
    }
    hide OnSignal, PeerWork, Sum, QueueWork, SignalWork;
  }

  lemma {:induction false} HandleAllAdds(e: Endpoint, sigs: seq<Pending>)
    ensures RestWork(HandleAll(e, sigs)) <= RestWork(e) + QueueWork(sigs)
    decreases |sigs|
  {
    if sigs != [] {
      HandleAdds(e, sigs[0].from, sigs[0].signal);
      hide RestWork, Handle;
      HandleAllAdds(Handle(e, sigs[0].from, sigs[0].signal), sigs[1..]);
    }
  }

  lemma DrainAdds(e: Endpoint)
    ensures RestWork(Drain(e)) <= RestWork(e)
  {
    HandleAllAdds(e.(queue := []), e.queue);
    assert QueueWork([]) == 0;
    hide HandleAll, Sum, QueueWork;
  }

  lemma AddPeerAdds(e: Endpoint, id: Id)
    requires id !in e.peers
    ensures RestWork(AddPeer(e, id)) <= RestWork(e)
  {
    assert PeerWork(NewPeer(id)) == 0;
    SumUpdate(e.peers, PeerWork, id, NewPeer(id));
    DrainAdds(e.(peers := e.peers[id := NewPeer(id)]));
    hide Drain, Sum, PeerWork, QueueWork;
  }

  lemma RestIgnoresCreating(e: Endpoint, c: Creating)
    ensures RestWork(e.(creating := c)) == RestWork(e)
  {
  }

  lemma {:induction false} CreateFromAdds(e: Endpoint, k: nat)
    requires k <= |e.participants|
    ensures RestWork(CreateFrom(e, k)) <= RestWork(e)
    ensures CreateWork(CreateFrom(e, k)) <= 15 * (|e.participants| - k)
    decreases |e.participants| - k
  {
    if k == |e.participants| {
      DrainAdds(e);
      RestIgnoresCreating(Drain(e), Returned);
      hide Drain, RestWork;
    } else if Skipped(e, k) {
      CreateFromAdds(e, k + 1);
      hide RestWork, CreateWork;
    } else {
      var added := AddPeer(e, e.participants[k].peerId);
      AddPeerAdds(e, e.participants[k].peerId);
      RestIgnoresCreating(added, CreatingOffer(k));
      assert added.participants == e.participants;
      if !e.participants[k].offerer {
        CreateFromAdds(added, k + 1);
      }
      hide RestWork, AddPeer;
    }
  }

  lemma SettingOfferIsFree(e: Endpoint, id: Id, offer: Desc)
    requires id in e.peers && SetLocalOffer(e.peers[id], offer).Some?
    ensures RestWork(e.(peers := e.peers[id := SetLocalOffer(e.peers[id], offer).value])) == RestWork(e)
  {
    var p := SetLocalOffer(e.peers[id], offer).value;
    assert PeerWork(p) == PeerWork(e.peers[id]);
    SumUpdate(e.peers, PeerWork, id, p);
    hide Sum, PeerWork, QueueWork;
  }

  /** What the signals of the creating call weigh on the way. */
  function SentWork(out: seq<Sent>): nat
    decreases |out|
  {
    if out == [] then 0 else SignalWork(out[0].signal) + 1 + SentWork(out[1..])
  }

  lemma OfferWeighs(id: Id, d: Desc)
    requires d.Offer?
    ensures SentWork([Sent(id, Description(d))]) == 13
  {
    assert [Sent(id, Description(d))][1..] == [];
  }

  lemma OfferSentLowers(e: Endpoint, sdp: nat)
    requires CanCreate(e) && Progressing(e) && e.creating.SettingLocalOffer?
    ensures var (f, out) := Create(e, sdp); EndWork(f) + SentWork(out) < EndWork(e)
  {
    var at, offer := e.creating.at, e.creating.offer;
    var id := e.participants[at].peerId;
    if SetLocalOffer(e.peers[id], offer).Some? {
      var p := SetLocalOffer(e.peers[id], offer).value;
      var e1 := e.(peers := e.peers[id := p], creating := Running);
      SettingOfferIsFree(e, id, offer);
      RestIgnoresCreating(e.(peers := e.peers[id := p]), Running);
      CreateFromAdds(e1, at + 1);
      OfferWeighs(id, offer);
    } else {
      RestIgnoresCreating(e, Rejected);
    }
    hide RestWork, CreateFrom, SetLocalOffer, Progressing;
  }

  lemma CreateLowers(e: Endpoint, sdp: nat)
    requires CanCreate(e) && Progressing(e)
    requires !e.creating.Returned? && !e.creating.Rejected? && !e.creating.Running?
    ensures var (f, out) := Create(e, sdp); EndWork(f) + SentWork(out) < EndWork(e)
  {
    match e.creating
    case FetchingIce =>
      RestIgnoresCreating(e, Running);
      CreateFromAdds(e.(creating := Running), 0);
      hide RestWork, CreateFrom, Progressing;
    case CreatingOffer(at) =>
      RestIgnoresCreating(e, SettingLocalOffer(at, Offer(sdp)));
      hide RestWork, Progressing;
    case SettingLocalOffer(at, offer) => OfferSentLowers(e, sdp);
  }

  // ---------------------------------------------------------------------------
  // The work of the mesh
  // ---------------------------------------------------------------------------

  ghost function Work(n: Network): nat {
    Sum(n.ends, EndWork) + Sum(n.wire, BagWork)
  }

  lemma PostAdds(n: Network, from: Id, to: Id, s: Signal)
    ensures Sum(Post(n, from, to, s).wire, BagWork) == Sum(n.wire, BagWork) + SignalWork(s) + 1
  {
    var l := (from, to);
    BagPlus(OnLink(n.wire, l), s);
    SumUpdate(n.wire, BagWork, l, OnLink(n.wire, l) + multiset{s});
    assert BagWork(multiset{}) == 0;
    hide BagWork, Sum;
  }

  lemma {:induction false} PostAllAdds(n: Network, from: Id, out: seq<Sent>)
    ensures var n' := PostAll(n, from, out);
            n'.ends == n.ends && Sum(n'.wire, BagWork) == Sum(n.wire, BagWork) + SentWork(out)
    decreases |out|
  {
    if out != [] {
      PostAdds(n, from, out[0].to, out[0].signal);
      PostAllAdds(Post(n, from, out[0].to, out[0].signal), from, out[1..]);
      hide BagWork, Sum;
    }
  }

  lemma DeliverLowers(n: Network, from: Id, to: Id, s: Signal)
    requires Enabled(n, Deliver(from, to, s))
    ensures Work(Next(n, Deliver(from, to, s))) < Work(n)
  {
    var l := (from, to);
    var f := Handle(n.ends[to], from, s);
    HandleAdds(n.ends[to], from, s);
    SumUpdate(n.ends, EndWork, to, f);
    BagPick(OnLink(n.wire, l), s);
    SumUpdate(n.wire, BagWork, l, OnLink(n.wire, l) - multiset{s});
    assert l in n.wire;
    hide BagWork, Sum, Handle, RestWork, CreateWork;
  }

  /** The end of a move and what it sends, against what the end was. */
  lemma EndMoveLowers(n: Network, m: Id, f: Endpoint, out: seq<Sent>)
    requires m in n.ends && EndWork(f) + SentWork(out) < EndWork(n.ends[m])
    ensures Work(PostAll(n.(ends := n.ends[m := f]), m, out)) < Work(n)
  {
    SumUpdate(n.ends, EndWork, m, f);
    PostAllAdds(n.(ends := n.ends[m := f]), m, out);
    hide Sum, EndWork, BagWork, PostAll, SentWork;
  }

  lemma {:induction false} SentWeighs(id: Id, out: seq<Signal>)
    ensures SentWork(seq(|out|, k requires 0 <= k < |out| => Sent(id, out[k]))) == OutWork(out)
    decreases |out|
  {
    var sent := seq(|out|, k requires 0 <= k < |out| => Sent(id, out[k]));
    if out != [] {
      var rest := out[1..];
      assert sent[1..] == seq(|rest|, k requires 0 <= k < |rest| => Sent(id, rest[k]));
      SentWeighs(id, rest);
    }
  }

  lemma ProceedLowers(e: Endpoint, id: Id, sdp: nat)
    requires id in e.peers && Conserved(e.peers[id]) && |e.peers[id].handlers| == 1 && Answering(e.peers[id])
    ensures var (f, out) := Proceed(e, id, 0, sdp); EndWork(f) + SentWork(out) < EndWork(e)
  {
    var (q, out) := Continue(e.peers[id], 0, sdp);
    ContinueLowers(e.peers[id], sdp);
    SumUpdate(e.peers, PeerWork, id, q);
    SentWeighs(id, out);
    hide Continue, PeerWork, Sum, OutWork, SentWork, Conserved, QueueWork;
  }

  /** In a mesh in order, a connection has one handler at most, which keeps its candidates. */
  lemma PeerInOrder(xOffers: bool, x: Side, y: Side, toY: multiset<Signal>, toX: multiset<Signal>)
    requires Pair(xOffers, x, y, toY, toX) && y.peer.Some?
    ensures Conserved(y.peer.value) && |y.peer.value.handlers| <= 1 && Answering(y.peer.value)
  {
    if xOffers {
      var phase :| In(phase, x, y, toY, toX);
    } else {
      var phase :| In(phase, y, x, toX, toY);
    }
    hide Conserved, Plain, OnlyDescription;
  }

  lemma HandlerStepLowers(lists: Lists, n: Network, m: Id, peer: Id, i: nat, sdp: nat)
    requires OneOffererEach(lists) && Fine(lists, n) && Enabled(n, HandlerStep(m, peer, i, sdp))
    ensures Work(Next(n, HandlerStep(m, peer, i, sdp))) < Work(n)
  {
    var e := n.ends[m];
    FineMember(lists, n, m);
    PeerIsMember(lists, n, m, peer);
    assert PairOf(lists, n, peer, m);
    hide Fine, OnLink, Work, PostAll, Proceed, EndWork, OneOffererEach;
    PeerInOrder(OffersTo(lists[peer], m), SideOf(n.ends[peer], m), SideOf(e, peer),
                OnLink(n.wire, (peer, m)) + multiset(Waiting(e.queue, peer)),
                OnLink(n.wire, (m, peer)) + multiset(Waiting(n.ends[peer].queue, m)));
    hide PairOf, At, Pair;
    assert i == 0;
    ProceedLowers(e, peer, sdp);
    EndMoveLowers(n, m, Proceed(e, peer, 0, sdp).0, Proceed(e, peer, 0, sdp).1);
  }

  lemma CreateStepLowers(lists: Lists, n: Network, m: Id, sdp: nat)
    requires Fine(lists, n) && Enabled(n, CreateStep(m, sdp)) && !n.ends[m].creating.Returned?
    ensures Work(Next(n, CreateStep(m, sdp))) < Work(n)
  {
    FineEnds(lists, n);
    assert EndFine(lists, m, n.ends[m]);
    hide Fine, Work, PostAll, EndWork, Create, EndsFine, SentWork;
    CreateLowers(n.ends[m], sdp);
    EndMoveLowers(n, m, Create(n.ends[m], sdp).0, Create(n.ends[m], sdp).1);
  }

  /** Each move that is waited for lowers the work that is left. */
  lemma PressingLowers(lists: Lists, n: Network, m: Move)
    requires OneOffererEach(lists) && Fine(lists, n) && Pressing(n, m)
    ensures Work(Next(n, m)) < Work(n)
  {
    assert Enabled(n, m) && !m.Gather? && (m.CreateStep? ==> !n.ends[m.at].creating.Returned?);
    hide *;
    match m
    case Deliver(from, to, s) => DeliverLowers(n, from, to, s);
    case HandlerStep(at, peer, i, sdp) => HandlerStepLowers(lists, n, at, peer, i, sdp);
    case CreateStep(at, sdp) => CreateStepLowers(lists, n, at, sdp);
  }

  // ---------------------------------------------------------------------------
  // Coming to rest
  // ---------------------------------------------------------------------------

  /** Every move of the schedule is waited for when its turn comes. */
  ghost predicate AllPressing(n: Network, moves: seq<Move>) {
    moves == [] ||
    (AllPressing(n, moves[..|moves| - 1]) && Pressing(Go(n, moves[..|moves| - 1]), moves[|moves| - 1]))
  }

  lemma {:induction false} ScheduleIsBounded(lists: Lists, n: Network, moves: seq<Move>)
    requires OneOffererEach(lists) && Fine(lists, n) && AllPressing(n, moves)
    ensures Fine(lists, Go(n, moves)) && |moves| + Work(Go(n, moves)) <= Work(n)
  {
    hide Work, Fine, OneOffererEach, Next;
    if moves != [] {
      var front, last := moves[..|moves| - 1], moves[|moves| - 1];
      ScheduleIsBounded(lists, n, front);
      PressingLowers(lists, Go(n, front), last);
      MoveKeepsFine(lists, Go(n, front), last);
    }
  }

  /**
    Rest: after any run, every further schedule of moves that are waited for, in any order, ends
    after a bounded number of moves, and wherever it cannot be continued the mesh is quiet.
   */
  lemma ComesToRest(lists: Lists, moves: seq<Move>, more: seq<Move>)
    requires OneOffererEach(lists) && AllPressing(Go(Begin(lists), moves), more)
    ensures var n := Go(Begin(lists), moves);
            && |more| <= Work(n)
            && ((forall m: Move :: !Pressing(Go(n, more), m)) ==> Quiet(Go(n, more)))
  {
    var n := Go(Begin(lists), moves);
    RunFine(lists, moves);
    ScheduleIsBounded(lists, n, more);
    FineEnds(lists, Go(n, more));
    hide *;
    if forall m: Move :: !Pressing(Go(n, more), m) {
      QuietUnlessPressing(lists, Go(n, more));
    }
  }

  lemma GoOn(n: Network, moves: seq<Move>, m: Move)
    requires AllPressing(n, moves) && Pressing(Go(n, moves), m)
    ensures AllPressing(n, moves + [m])
  {
    assert (moves + [m])[..|moves|] == moves;
  }

  /** So every run can be continued to a quiet mesh. */
  lemma RestIsReachable(lists: Lists, moves: seq<Move>) returns (more: seq<Move>)
    requires OneOffererEach(lists)
    ensures var n := Go(Begin(lists), moves);
            AllPressing(n, more) && |more| <= Work(n) && Quiet(Go(n, more))
  {
    var n := Go(Begin(lists), moves);
    more := [];
    assert AllPressing(n, []);
    ComesToRest(lists, moves, more);
    hide *;
    while exists m: Move :: Pressing(Go(n, more), m)
      invariant AllPressing(n, more) && |more| <= Work(n)
      decreases Work(n) - |more|
    {
      var m: Move :| Pressing(Go(n, more), m);
      GoOn(n, more, m);
      more := more + [m];
      ComesToRest(lists, moves, more);
    }
    ComesToRest(lists, moves, more);
  }
}
