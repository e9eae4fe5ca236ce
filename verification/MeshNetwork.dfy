/**
  A whole mesh of endpoints that run the hook, joined by channels that lose and repeat nothing
  but deliver in any order. Each pair has exactly one end whose list gives the other the role
  of offering to it, and `createMeshPeers` is called once by everyone.
 */
module MeshNetwork {
  import opened Wrappers
  import opened MeshPeer
  import opened MeshEndpoint
  import opened MeshPair

  type Lists = map<Id, seq<Participant>>

  type Link = (Id, Id)

  /** `wire` holds what was sent and not yet received; `sent` everything that was ever sent. */
  datatype Network = Network(
    ends: map<Id, Endpoint>,
    wire: map<Link, multiset<Signal>>,
    sent: map<Link, multiset<Signal>>)

  function OnLink(m: map<Link, multiset<Signal>>, l: Link): multiset<Signal> {
    if l in m then m[l] else multiset{}
  }

  /** The role a list gives to `id`: that of its first entry. */
  function OffersTo(list: seq<Participant>, id: Id): bool {
    if list == [] then false
    else if list[0].peerId == id then list[0].offerer
    else OffersTo(list[1..], id)
  }

  ghost predicate OneOffererEach(lists: Lists) {
    && (forall a, b | a in lists && b in lists && a != b ::
          Listed(lists[a], b) && OffersTo(lists[a], b) != OffersTo(lists[b], a))
    && (forall a, k | a in lists && 0 <= k < |lists[a]| :: lists[a][k].peerId in lists)
  }

  function Begin(lists: Lists): Network {
    Network(map a | a in lists :: Start(a, lists[a]), map[], map[])
  }

  function Post(n: Network, from: Id, to: Id, s: Signal): Network {
    n.(wire := n.wire[(from, to) := OnLink(n.wire, (from, to)) + multiset{s}],
       sent := n.sent[(from, to) := OnLink(n.sent, (from, to)) + multiset{s}])
  }

  function PostAll(n: Network, from: Id, out: seq<Sent>): Network
    decreases |out|
  {
    if out == [] then n else PostAll(Post(n, from, out[0].to, out[0].signal), from, out[1..])
  }

  datatype Move =
    | Deliver(from: Id, to: Id, signal: Signal)
    | HandlerStep(at: Id, peer: Id, handler: nat, sdp: nat)
    | CreateStep(at: Id, sdp: nat)
    | Gather(at: Id, peer: Id, candidate: Candidate)

  predicate Enabled(n: Network, m: Move) {
    match m
    case Deliver(from, to, s) => from in n.ends && to in n.ends && s in OnLink(n.wire, (from, to))
    case HandlerStep(at, peer, i, _) =>
      at in n.ends && peer in n.ends[at].peers && i < |n.ends[at].peers[peer].handlers|
    case CreateStep(at, _) => at in n.ends && CanCreate(n.ends[at])
    case Gather(at, peer, _) =>
      at in n.ends && peer in n.ends[at].peers && n.ends[at].peers[peer].local.Some?
  }

  function Next(n: Network, m: Move): Network
    requires Enabled(n, m)
  {
    match m
    case Deliver(from, to, s) =>
      n.(ends := n.ends[to := Handle(n.ends[to], from, s)],
         wire := n.wire[(from, to) := OnLink(n.wire, (from, to)) - multiset{s}])
    case HandlerStep(at, peer, i, sdp) =>
      var (e, out) := Proceed(n.ends[at], peer, i, sdp);
      PostAll(n.(ends := n.ends[at := e]), at, out)
    case CreateStep(at, sdp) =>
      var (e, out) := Create(n.ends[at], sdp);
      PostAll(n.(ends := n.ends[at := e]), at, out)
    case Gather(at, peer, c) => Post(n, at, peer, IceCandidate(c))
  }

  /** A move that is not possible leaves the network as it is. */
  function Go(n: Network, moves: seq<Move>): Network {
    if moves == [] then n
    else
      var before := Go(n, moves[..|moves| - 1]);
      if Enabled(before, moves[|moves| - 1]) then Next(before, moves[|moves| - 1]) else before
  }

  // ---------------------------------------------------------------------------
  // One endpoint, seen from one of its pairs
  // ---------------------------------------------------------------------------

  function Making(e: Endpoint, id: Id): bool {
    && (e.creating.CreatingOffer? || e.creating.SettingLocalOffer?)
    && e.creating.at < |e.participants| && e.participants[e.creating.at].peerId == id
  }

  function SideOf(e: Endpoint, id: Id): Side {
    Side(if id in e.peers then Some(e.peers[id]) else None, Making(e, id))
  }

  /** The pair of endpoint `e` with the side `x` of participant `a`. */
  ghost predicate At(xOffers: bool, x: Side, e: Endpoint, a: Id, toE: multiset<Signal>, toX: multiset<Signal>) {
    Pair(xOffers, x, SideOf(e, a), toE + multiset(Waiting(e.queue, a)), toX)
  }

  lemma HandleAt(xOffers: bool, x: Side, e: Endpoint, a: Id, toE: multiset<Signal>, toX: multiset<Signal>,
          from: Id, s: Signal)
    requires At(xOffers, x, e, a, toE + (if from == a then multiset{s} else multiset{}), toX)
    ensures At(xOffers, x, Handle(e, from, s), a, toE, toX)
  {
    hide Pair, Waiting, OnSignal;
    var f := Handle(e, from, s);
    if from in e.peers {
      assert f.queue == e.queue;
      if from == a {
        var all := toE + multiset{s} + multiset(Waiting(e.queue, a));
        Receives(xOffers, x, SideOf(e, a), all, toX, from, s);
        assert all - multiset{s} == toE + multiset(Waiting(f.queue, a));
        assert SideOf(f, a) == SideOf(e, a).(peer := Some(OnSignal(e.peers[a], from, s)));
      } else {
        assert SideOf(f, a) == SideOf(e, a);
        assert toE + multiset{} == toE;
      }
    } else {
      WaitingAppend(e.queue, Pending(from, s), a);
      assert SideOf(f, a) == SideOf(e, a);
      if from == a {
        assert toE + multiset{s} + multiset(Waiting(e.queue, a)) == toE + multiset(Waiting(f.queue, a));
      } else {
        assert toE + multiset{} == toE;
        assert Waiting(f.queue, a) == Waiting(e.queue, a);
      }
    }
  }

  lemma {:induction false} HandleAllAt(xOffers: bool, x: Side, e: Endpoint, a: Id, toE: multiset<Signal>,
          toX: multiset<Signal>, sigs: seq<Pending>)
    requires At(xOffers, x, e, a, toE + multiset(Waiting(sigs, a)), toX)
    ensures At(xOffers, x, HandleAll(e, sigs), a, toE, toX)
    decreases |sigs|
  {
    hide At, Handle;
    if sigs == [] {
      assert toE + multiset(Waiting(sigs, a)) == toE;
    } else {
      var p := sigs[0];
      var rest := multiset(Waiting(sigs[1..], a));
      var first := if p.from == a then multiset{p.signal} else multiset{};
      WaitingFirst(sigs, a);
      assert toE + multiset(Waiting(sigs, a)) == toE + rest + first;
      HandleAt(xOffers, x, e, a, toE + rest, toX, p.from, p.signal);
      HandleAllAt(xOffers, x, Handle(e, p.from, p.signal), a, toE, toX, sigs[1..]);
    }
  }

  lemma DrainAt(xOffers: bool, x: Side, e: Endpoint, a: Id, toE: multiset<Signal>, toX: multiset<Signal>)
    requires At(xOffers, x, e, a, toE, toX)
    ensures At(xOffers, x, Drain(e), a, toE, toX)
  {
    var empty := e.(queue := []);
    assert SideOf(empty, a) == SideOf(e, a);
    assert toE + multiset(Waiting(e.queue, a)) + multiset(Waiting(empty.queue, a)) ==
           toE + multiset(Waiting(e.queue, a));
    hide Pair;
    HandleAllAt(xOffers, x, empty, a, toE, toX, e.queue);
  }

  lemma {:induction false} HandleAllIgnoresCreating(e: Endpoint, sigs: seq<Pending>, c: Creating)
    ensures HandleAll(e.(creating := c), sigs) == HandleAll(e, sigs).(creating := c)
    decreases |sigs|
  {
    if sigs != [] {
      HandleAllIgnoresCreating(Handle(e, sigs[0].from, sigs[0].signal), sigs[1..], c);
    }
  }

  lemma {:induction false} FirstRole(list: seq<Participant>, k: nat, id: Id)
    requires k < |list| && list[k].peerId == id
    requires forall j | 0 <= j < k :: list[j].peerId != id
    ensures OffersTo(list, id) == list[k].offerer
  {
    if k > 0 {
      assert list[0].peerId != id;
      FirstRole(list[1..], k - 1, id);
    }
  }

  /** The peer of participant `k` is created and the queue drained; its offer, if any, is begun. */
  lemma AddPeerAt(x: Side, e: Endpoint, k: nat, a: Id, toE: multiset<Signal>, toX: multiset<Signal>)
    requires k < |e.participants| && Covered(e, k) && !Skipped(e, k) && e.creating == Running
    requires At(!OffersTo(e.participants, a), x, e, a, toE, toX)
    ensures var id := e.participants[k].peerId;
            var c := if e.participants[k].offerer then CreatingOffer(k) else Running;
            At(!OffersTo(e.participants, a), x, AddPeer(e, id).(creating := c), a, toE, toX)
  {
    var xOffers := !OffersTo(e.participants, a);
    var id := e.participants[k].peerId;
    var c := if e.participants[k].offerer then CreatingOffer(k) else Running;
    var f := e.(peers := e.peers[id := NewPeer(id)], creating := c);
    HandleAllIgnoresCreating(e.(peers := e.peers[id := NewPeer(id)], queue := []), e.queue, c);
    assert Drain(f) == AddPeer(e, id).(creating := c);
    hide Pair, Waiting;
    if id == a {
      FirstRole(e.participants, k, a);
      assert SideOf(e, a).peer.None?;
      Creates(xOffers, x, SideOf(e, a), toE + multiset(Waiting(e.queue, a)), toX, a);
      assert SideOf(f, a) == Side(Some(NewPeer(a)), !xOffers);
    } else {
      assert SideOf(f, a) == SideOf(e, a);
    }
    DrainAt(xOffers, x, f, a, toE, toX);
  }

  lemma {:induction false} CreateFromAt(x: Side, e: Endpoint, k: nat, a: Id, toE: multiset<Signal>,
          toX: multiset<Signal>)
    requires Covered(e, k) && e.creating == Running
    requires At(!OffersTo(e.participants, a), x, e, a, toE, toX)
    ensures At(!OffersTo(e.participants, a), x, CreateFrom(e, k), a, toE, toX)
    decreases |e.participants| - k
  {
    if k == |e.participants| {
      DrainAt(!OffersTo(e.participants, a), x, e, a, toE, toX);
      assert SideOf(CreateFrom(e, k), a) == SideOf(Drain(e), a);
    } else if Skipped(e, k) {
      CreateFromAt(x, e, k + 1, a, toE, toX);
    } else {
      AddPeerAt(x, e, k, a, toE, toX);
      hide At;
      var added := AddPeer(e, e.participants[k].peerId);
      if !e.participants[k].offerer {
        assert added.(creating := Running) == added;
        CreateFromAt(x, added, k + 1, a, toE, toX);
      }
    }
  }

  /** The call of `createMeshPeers` is not about to be rejected by the browser. */
  predicate OfferFits(e: Endpoint) {
    e.creating.SettingLocalOffer? && CanCreate(e) ==>
      SetLocalOffer(e.peers[e.participants[e.creating.at].peerId], e.creating.offer).Some?
  }

  lemma OfferAt(x: Side, e: Endpoint, a: Id, toE: multiset<Signal>, toX: multiset<Signal>)
    requires Progressing(e) && e.creating.SettingLocalOffer? && CanCreate(e) && OfferFits(e)
    requires At(!OffersTo(e.participants, a), x, e, a, toE, toX)
    ensures var id := e.participants[e.creating.at].peerId;
            var f := e.(peers := e.peers[id := SetLocalOffer(e.peers[id], e.creating.offer).value],
                creating := Running);
            At(!OffersTo(e.participants, a), x, f, a, toE,
               toX + PostedTo([Sent(id, Description(e.creating.offer))], a))
  {
    var xOffers := !OffersTo(e.participants, a);
    var id := e.participants[e.creating.at].peerId;
    var offer := e.creating.offer;
    var f := e.(peers := e.peers[id := SetLocalOffer(e.peers[id], offer).value], creating := Running);
    assert toX + multiset{} == toX;
    hide Pair, Waiting, SetLocalOffer;
    if id == a {
      Offers(xOffers, x, SideOf(e, a), toE + multiset(Waiting(e.queue, a)), toX, offer.sdp);
      assert SideOf(f, a) == Side(SetLocalOffer(e.peers[a], offer), false);
    } else {
      assert SideOf(f, a) == SideOf(e, a);
    }
  }

  lemma SameSideAt(xOffers: bool, x: Side, e: Endpoint, f: Endpoint, a: Id, toE: multiset<Signal>,
          toX: multiset<Signal>)
    requires SideOf(f, a) == SideOf(e, a) && f.queue == e.queue
    requires At(xOffers, x, e, a, toE, toX)
    ensures At(xOffers, x, f, a, toE, toX)
  {
  }

  lemma SetOfferAt(x: Side, e: Endpoint, sdp: nat, a: Id, toE: multiset<Signal>, toX: multiset<Signal>)
    requires Progressing(e) && CanCreate(e) && OfferFits(e) && e.creating.SettingLocalOffer?
    requires At(!OffersTo(e.participants, a), x, e, a, toE, toX)
    ensures At(!OffersTo(e.participants, a), x, Create(e, sdp).0, a, toE, toX + PostedTo(Create(e, sdp).1, a))
  {
    hide At, CreateFrom, SetLocalOffer;
    var id := e.participants[e.creating.at].peerId;
    var f := e.(peers := e.peers[id := SetLocalOffer(e.peers[id], e.creating.offer).value], creating := Running);
    assert Covered(f, e.creating.at + 1);
    assert Create(e, sdp) == (CreateFrom(f, e.creating.at + 1), [Sent(id, Description(e.creating.offer))]);
    hide *;
    OfferAt(x, e, a, toE, toX);
    CreateFromAt(x, f, e.creating.at + 1, a, toE, toX + PostedTo(Create(e, sdp).1, a));
  }

  /** What was posted to `a`, of the at most one signal that a step of the call posts. */
  function PostedTo(out: seq<Sent>, a: Id): multiset<Signal> {
    if out != [] && out[0].to == a then multiset{out[0].signal} else multiset{}
  }

  lemma CreateAt(x: Side, e: Endpoint, sdp: nat, a: Id, toE: multiset<Signal>, toX: multiset<Signal>)
    requires Progressing(e) && CanCreate(e) && OfferFits(e) && e.creating != Running && !e.creating.Rejected?
    requires At(!OffersTo(e.participants, a), x, e, a, toE, toX)
    ensures At(!OffersTo(e.participants, a), x, Create(e, sdp).0, a, toE, toX + PostedTo(Create(e, sdp).1, a))
  {
    hide At, CreateFrom, SetLocalOffer;
    var xOffers := !OffersTo(e.participants, a);
    assert !e.creating.SettingLocalOffer? ==> toX + PostedTo(Create(e, sdp).1, a) == toX;
    match e.creating
    case FetchingIce =>
      SameSideAt(xOffers, x, e, e.(creating := Running), a, toE, toX);
      CreateFromAt(x, e.(creating := Running), 0, a, toE, toX);
    case CreatingOffer(at) =>
      SameSideAt(xOffers, x, e, e.(creating := SettingLocalOffer(at, Offer(sdp))), a, toE, toX);
    case SettingLocalOffer(_, _) =>
      SetOfferAt(x, e, sdp, a, toE, toX);
    case _ =>
  }

  // ---------------------------------------------------------------------------
  // The invariant of the mesh
  // ---------------------------------------------------------------------------

  ghost predicate PairOf(lists: Lists, n: Network, a: Id, b: Id)
    requires a in lists && a in n.ends && b in n.ends
  {
    At(OffersTo(lists[a], b), SideOf(n.ends[a], b), n.ends[b], a,
       OnLink(n.wire, (a, b)), OnLink(n.wire, (b, a)) + multiset(Waiting(n.ends[a].queue, b)))
  }

  ghost predicate EndFine(lists: Lists, a: Id, e: Endpoint)
    requires a in lists
  {
    && e.me == a && e.participants == lists[a]
    && NoneOverdue(e) && Progressing(e) && !e.creating.Rejected? && e.creating != Running
  }

  ghost predicate PairsFine(lists: Lists, n: Network) {
    && n.ends.Keys == lists.Keys
    && forall a, b | a in lists && b in lists && a != b :: PairOf(lists, n, a, b)
  }

  /** Everything ever sent is on its way, queued, or handled: channels lose and repeat nothing. */
  ghost predicate LinkAccounted(n: Network, a: Id, b: Id)
    requires b in n.ends
  {
    OnLink(n.sent, (a, b)) == OnLink(n.wire, (a, b)) + multiset(Account(n.ends[b], a))
  }

  ghost predicate Accounted(n: Network) {
    forall a, b | a in n.ends && b in n.ends :: LinkAccounted(n, a, b)
  }

  ghost predicate EndsFine(lists: Lists, n: Network) {
    forall a | a in lists :: a in n.ends && EndFine(lists, a, n.ends[a]) && OnLink(n.wire, (a, a)) == multiset{}
  }

  ghost predicate Fine(lists: Lists, n: Network) {
    PairsFine(lists, n) && Accounted(n) && EndsFine(lists, n)
  }

  lemma PairOfSwaps(lists: Lists, n: Network, a: Id, b: Id)
    requires OneOffererEach(lists) && n.ends.Keys == lists.Keys && a in lists && b in lists && a != b
    requires PairOf(lists, n, a, b)
    ensures PairOf(lists, n, b, a)
  {
    var ab := OnLink(n.wire, (a, b)) + multiset(Waiting(n.ends[b].queue, a));
    var ba := OnLink(n.wire, (b, a)) + multiset(Waiting(n.ends[a].queue, b));
    assert Pair(OffersTo(lists[a], b), SideOf(n.ends[a], b), SideOf(n.ends[b], a), ab, ba);
    hide Handshake;
    assert Pair(OffersTo(lists[b], a), SideOf(n.ends[b], a), SideOf(n.ends[a], b), ba, ab);
  }

  lemma SamePair(lists: Lists, n: Network, n': Network, a: Id, b: Id)
    requires a in lists && a in n.ends && b in n.ends && a in n'.ends && b in n'.ends
    requires n'.ends[a] == n.ends[a] && n'.ends[b] == n.ends[b]
    requires OnLink(n'.wire, (a, b)) == OnLink(n.wire, (a, b)) && OnLink(n'.wire, (b, a)) == OnLink(n.wire, (b, a))
    requires PairOf(lists, n, a, b)
    ensures PairOf(lists, n', a, b)
  {
  }

  /** A move at `m` concerns only the pairs of `m`. */
  lemma OtherPairsStay(lists: Lists, n: Network, n': Network, m: Id, e: Endpoint)
    requires OneOffererEach(lists) && PairsFine(lists, n) && m in lists
    requires n'.ends == n.ends[m := e]
    requires forall l: Link | l.0 != m && l.1 != m :: OnLink(n'.wire, l) == OnLink(n.wire, l)
    requires forall a | a in lists && a != m :: PairOf(lists, n', a, m)
    ensures PairsFine(lists, n')
  {
    hide OnLink, PairOf, OneOffererEach;
    forall a, b | a in lists && b in lists && a != b ensures PairOf(lists, n', a, b) {
      if b == m {
      } else if a == m {
        PairOfSwaps(lists, n', b, m);
      } else {
        SamePair(lists, n, n', a, b);
      }
    }
  }

  lemma PostFrame(n: Network, from: Id, to: Id, s: Signal)
    ensures var n' := Post(n, from, to, s);
            && n'.ends == n.ends
            && (forall l: Link | l != (from, to) ::
                  OnLink(n'.wire, l) == OnLink(n.wire, l) && OnLink(n'.sent, l) == OnLink(n.sent, l))
            && OnLink(n'.wire, (from, to)) == OnLink(n.wire, (from, to)) + multiset{s}
            && OnLink(n'.sent, (from, to)) == OnLink(n.sent, (from, to)) + multiset{s}
  {
  }

  lemma {:induction false} PostAllFrame(n: Network, from: Id, out: seq<Sent>, to: Id)
    requires forall k | 0 <= k < |out| :: out[k].to == to
    ensures var n' := PostAll(n, from, out);
            && n'.ends == n.ends
            && (forall l: Link | l != (from, to) ::
                  OnLink(n'.wire, l) == OnLink(n.wire, l) && OnLink(n'.sent, l) == OnLink(n.sent, l))
            && OnLink(n'.wire, (from, to)) == OnLink(n.wire, (from, to)) + Signals(out)
            && OnLink(n'.sent, (from, to)) == OnLink(n.sent, (from, to)) + Signals(out)
    decreases |out|
  {
    hide OnLink, Post;
    if out == [] {
      assert OnLink(n.wire, (from, to)) + Signals(out) == OnLink(n.wire, (from, to));
      assert OnLink(n.sent, (from, to)) + Signals(out) == OnLink(n.sent, (from, to));
    } else {
      PostFrame(n, from, to, out[0].signal);
      PostAllFrame(Post(n, from, to, out[0].signal), from, out[1..], to);
      assert Signals(out) == multiset{out[0].signal} + Signals(out[1..]);
    }
  }

  function Signals(out: seq<Sent>): multiset<Signal>
    decreases |out|
  {
    if out == [] then multiset{} else multiset{out[0].signal} + Signals(out[1..])
  }

  lemma {:induction false} SignalsTo(id: Id, out: seq<Signal>)
    ensures Signals(seq(|out|, k requires 0 <= k < |out| => Sent(id, out[k]))) == multiset(out)
    decreases |out|
  {
    var sent := seq(|out|, k requires 0 <= k < |out| => Sent(id, out[k]));
    if out != [] {
      SignalsTo(id, out[1..]);
      assert sent[1..] == seq(|out[1..]|, k requires 0 <= k < |out[1..]| => Sent(id, out[1..][k]));
      assert out == [out[0]] + out[1..];
    }
  }

  lemma PairAt(lists: Lists, n: Network, a: Id, b: Id)
    requires PairsFine(lists, n) && a in lists && b in n.ends && a != b
    ensures a in n.ends && b in lists
    ensures At(OffersTo(lists[a], b), SideOf(n.ends[a], b), n.ends[b], a,
               OnLink(n.wire, (a, b)), OnLink(n.wire, (b, a)) + multiset(Waiting(n.ends[a].queue, b)))
  {
    assert PairOf(lists, n, a, b);
  }

  lemma PairFrom(lists: Lists, n: Network, a: Id, b: Id, toE: multiset<Signal>, toX: multiset<Signal>)
    requires a in lists && a in n.ends && b in n.ends
    requires At(OffersTo(lists[a], b), SideOf(n.ends[a], b), n.ends[b], a, toE, toX)
    requires toE == OnLink(n.wire, (a, b))
    requires toX == OnLink(n.wire, (b, a)) + multiset(Waiting(n.ends[a].queue, b))
    ensures PairOf(lists, n, a, b)
  {
  }

  // ---------------------------------------------------------------------------
  // Every move keeps it
  // ---------------------------------------------------------------------------

  lemma SameLink(n: Network, n': Network, a: Id, b: Id)
    requires b in n.ends && b in n'.ends && n'.ends[b] == n.ends[b]
    requires OnLink(n'.wire, (a, b)) == OnLink(n.wire, (a, b)) && OnLink(n'.sent, (a, b)) == OnLink(n.sent, (a, b))
    requires LinkAccounted(n, a, b)
    ensures LinkAccounted(n', a, b)
  {
  }

  lemma OtherLinksStay(n: Network, n': Network, m: Id, f: Endpoint)
    requires Accounted(n) && m in n.ends && n'.ends == n.ends[m := f]
    requires forall l: Link | l.0 != m && l.1 != m ::
               OnLink(n'.wire, l) == OnLink(n.wire, l) && OnLink(n'.sent, l) == OnLink(n.sent, l)
    requires forall a | a in n.ends :: LinkAccounted(n', a, m) && LinkAccounted(n', m, a)
    ensures Accounted(n')
  {
    hide OnLink, LinkAccounted;
    forall a, b | a in n'.ends && b in n'.ends ensures LinkAccounted(n', a, b) {
      if a == m || b == m {
      } else {
        SameLink(n, n', a, b);
      }
    }
  }

  lemma OtherEndsStay(lists: Lists, n: Network, n': Network, m: Id, f: Endpoint)
    requires EndsFine(lists, n) && m in lists && n'.ends == n.ends[m := f] && EndFine(lists, m, f)
    requires forall l: Link | l.0 != m && l.1 != m :: OnLink(n'.wire, l) == OnLink(n.wire, l)
    requires OnLink(n'.wire, (m, m)) == multiset{}
    ensures EndsFine(lists, n')
  {
    hide OnLink, EndFine;
    forall a | a in lists
      ensures a in n'.ends && EndFine(lists, a, n'.ends[a]) && OnLink(n'.wire, (a, a)) == multiset{}
    {
      if a != m {
        assert EndFine(lists, a, n.ends[a]);
        var l: Link := (a, a);
        assert OnLink(n'.wire, l) == OnLink(n.wire, l);
      }
    }
  }

  /** What a move at the end `m` has to keep so that the whole invariant is kept. */
  lemma MoveKeeps(lists: Lists, n: Network, n': Network, m: Id, f: Endpoint)
    requires m in lists && n.ends.Keys == lists.Keys && n'.ends == n.ends[m := f] && EndFine(lists, m, f)
    requires forall l: Link | l.0 != m && l.1 != m ::
               OnLink(n'.wire, l) == OnLink(n.wire, l) && OnLink(n'.sent, l) == OnLink(n.sent, l)
    requires forall a | a in lists && a != m :: PairOf(lists, n', a, m)
    requires forall a | a in lists :: LinkAccounted(n', a, m) && LinkAccounted(n', m, a)
    requires OnLink(n'.wire, (m, m)) == multiset{}
    requires OneOffererEach(lists) && Fine(lists, n)
    ensures Fine(lists, n')
  {
    OtherPairsStay(lists, n, n', m, f);
    OtherLinksStay(n, n', m, f);
    OtherEndsStay(lists, n, n', m, f);
    hide *;
    assert Fine(lists, n') by { FineParts(lists, n'); }
  }

  lemma FineMember(lists: Lists, n: Network, m: Id)
    requires Fine(lists, n) && m in n.ends
    ensures PairsFine(lists, n) && Accounted(n) && EndsFine(lists, n) && n.ends.Keys == lists.Keys
    ensures m in lists && EndFine(lists, m, n.ends[m]) && NoneOverdue(n.ends[m]) && Progressing(n.ends[m])
    ensures n.ends[m].creating != Running && !n.ends[m].creating.Rejected? && OnLink(n.wire, (m, m)) == multiset{}
  {
  }

  lemma FineParts(lists: Lists, n: Network)
    requires PairsFine(lists, n) && Accounted(n) && EndsFine(lists, n)
    ensures Fine(lists, n)
  {
  }

  lemma DeliverFrame(n: Network, from: Id, to: Id, s: Signal)
    requires Enabled(n, Deliver(from, to, s))
    ensures to in n.ends
    ensures var n' := Next(n, Deliver(from, to, s));
            && n'.ends == n.ends[to := Handle(n.ends[to], from, s)] && n'.sent == n.sent
            && (forall l: Link | l != (from, to) :: OnLink(n'.wire, l) == OnLink(n.wire, l))
            && OnLink(n.wire, (from, to)) == OnLink(n'.wire, (from, to)) + multiset{s}
  {
  }

  /** The signal of this link leaves the wire and is handled. */
  lemma DeliverFromAt(lists: Lists, n: Network, a: Id, to: Id, s: Signal)
    requires PairsFine(lists, n) && Enabled(n, Deliver(a, to, s)) && a in lists && a != to
    ensures PairOf(lists, Next(n, Deliver(a, to, s)), a, to)
  {
    hide *;
    var n' := Next(n, Deliver(a, to, s));
    DeliverFrame(n, a, to, s);
    PairAt(lists, n, a, to);
    var rest := OnLink(n'.wire, (a, to));
    var toX := OnLink(n.wire, (to, a)) + multiset(Waiting(n.ends[a].queue, to));
    HandleAt(OffersTo(lists[a], to), SideOf(n.ends[a], to), n.ends[to], a, rest, toX, a, s);
    PairFrom(lists, n', a, to, rest, toX);
  }

  /** A signal of another link is handled. */
  lemma DeliverElsewhereAt(lists: Lists, n: Network, from: Id, to: Id, s: Signal, a: Id)
    requires PairsFine(lists, n) && Enabled(n, Deliver(from, to, s)) && a in lists && a != to && from != to
    requires from != a
    ensures PairOf(lists, Next(n, Deliver(from, to, s)), a, to)
  {
    hide *;
    var n' := Next(n, Deliver(from, to, s));
    DeliverFrame(n, from, to, s);
    PairAt(lists, n, a, to);
    var toE := OnLink(n.wire, (a, to));
    var toX := OnLink(n.wire, (to, a)) + multiset(Waiting(n.ends[a].queue, to));
    assert toE + multiset{} == toE;
    HandleAt(OffersTo(lists[a], to), SideOf(n.ends[a], to), n.ends[to], a, toE, toX, from, s);
    PairFrom(lists, n', a, to, toE, toX);
  }

  lemma DeliverAt(lists: Lists, n: Network, from: Id, to: Id, s: Signal, a: Id)
    requires PairsFine(lists, n) && Enabled(n, Deliver(from, to, s)) && a in lists && a != to && from != to
    ensures PairOf(lists, Next(n, Deliver(from, to, s)), a, to)
  {
    hide *;
    if from == a {
      DeliverFromAt(lists, n, a, to, s);
    } else {
      DeliverElsewhereAt(lists, n, from, to, s, a);
    }
  }

  lemma BagsBalance<T>(sent: multiset<T>, sent': multiset<T>, wire: multiset<T>, wire': multiset<T>,
          got: multiset<T>, got': multiset<T>,
                       moved: multiset<T>, posted: multiset<T>)
    requires sent == wire + got && sent' == sent + posted
    requires wire + posted == wire' + moved && got' == got + moved
    ensures sent' == wire' + got'
  {
    assert sent' == wire + posted + got;
  }

  /** A link stays accounted for when what leaves the wire enters the account of its end. */
  lemma LinkStays(n: Network, n': Network, a: Id, b: Id, moved: multiset<Signal>, posted: multiset<Signal>)
    requires b in n.ends && b in n'.ends && LinkAccounted(n, a, b)
    requires OnLink(n.wire, (a, b)) + posted == OnLink(n'.wire, (a, b)) + moved
    requires OnLink(n'.sent, (a, b)) == OnLink(n.sent, (a, b)) + posted
    requires multiset(Account(n'.ends[b], a)) == multiset(Account(n.ends[b], a)) + moved
    ensures LinkAccounted(n', a, b)
  {
    hide OnLink, Account;
    BagsBalance(OnLink(n.sent, (a, b)), OnLink(n'.sent, (a, b)), OnLink(n.wire, (a, b)), OnLink(n'.wire, (a, b)),
                multiset(Account(n.ends[b], a)), multiset(Account(n'.ends[b], a)), moved, posted);
  }

  lemma DeliverAccounts(n: Network, from: Id, to: Id, s: Signal, a: Id)
    requires Accounted(n) && Enabled(n, Deliver(from, to, s)) && from != to && a in n.ends
    requires NoneOverdue(n.ends[to])
    ensures LinkAccounted(Next(n, Deliver(from, to, s)), a, to)
  {
    assert to in n.ends && LinkAccounted(n, a, to);
    hide *;
    var n' := Next(n, Deliver(from, to, s));
    var e := n.ends[to];
    DeliverFrame(n, from, to, s);
    HandleAccounts(e, from, s, a);
    var moved := if from == a then multiset{s} else multiset{};
    var none: multiset<Signal> := multiset{};
    assert multiset(Account(e, a) + if from == a then [s] else []) == multiset(Account(e, a)) + moved;
    assert OnLink(n.wire, (a, to)) + none == OnLink(n'.wire, (a, to)) + moved;
    assert OnLink(n'.sent, (a, to)) == OnLink(n.sent, (a, to)) + none;
    LinkStays(n, n', a, to, moved, none);
  }

  lemma DeliverLinks(n: Network, from: Id, to: Id, s: Signal, a: Id)
    requires Accounted(n) && Enabled(n, Deliver(from, to, s)) && from != to && a in n.ends
    requires NoneOverdue(n.ends[to])
    ensures LinkAccounted(Next(n, Deliver(from, to, s)), a, to)
    ensures LinkAccounted(Next(n, Deliver(from, to, s)), to, a)
  {
    DeliverAccounts(n, from, to, s, a);
    if a != to {
      DeliverFrame(n, from, to, s);
      assert LinkAccounted(n, to, a);
      hide Next, LinkAccounted, OnLink, Enabled, Accounted, NoneOverdue, Handle;
      SameLink(n, Next(n, Deliver(from, to, s)), to, a);
    }
  }

  /** Handling a signal or resuming a handler leaves an endpoint's own bookkeeping in order. */
  lemma StepKeepsEnd(lists: Lists, a: Id, e: Endpoint, v: MeshEndpoint.Event)
    requires a in lists && EndFine(lists, a, e) && !v.Created?
    ensures EndFine(lists, a, MeshEndpoint.Step(e, v))
  {
    StepAccounts(e, v, a);
    assert MeshEndpoint.Step(e, v).creating == e.creating;
    hide NoneOverdue, Progressing, Handle, Proceed;
  }

  lemma DeliverMoves(lists: Lists, n: Network, from: Id, to: Id, s: Signal)
    requires Fine(lists, n) && Enabled(n, Deliver(from, to, s))
    ensures from != to && from in n.ends && to in n.ends
    ensures MeshEndpoint.Step(n.ends[to], Arrive(from, s)) == Handle(n.ends[to], from, s)
  {
    FineMember(lists, n, to);
    hide Fine;
  }

  lemma DeliverKeeps(lists: Lists, n: Network, from: Id, to: Id, s: Signal)
    requires OneOffererEach(lists) && Fine(lists, n) && Enabled(n, Deliver(from, to, s))
    ensures Fine(lists, Next(n, Deliver(from, to, s)))
  {
    hide *;
    DeliverMoves(lists, n, from, to, s);
    FineMember(lists, n, to);
    DeliverFrame(n, from, to, s);
    StepKeepsEnd(lists, to, n.ends[to], Arrive(from, s));
    var n' := Next(n, Deliver(from, to, s));
    forall a | a in lists && a != to ensures PairOf(lists, n', a, to) {
      DeliverAt(lists, n, from, to, s, a);
    }
    forall a | a in lists ensures LinkAccounted(n', a, to) && LinkAccounted(n', to, a) {
      DeliverLinks(n, from, to, s, a);
    }
    MoveKeeps(lists, n, n', to, Handle(n.ends[to], from, s));
  }

  // A handler step and a step of the creating call post what they send on the links of their end.

  lemma PostedAccounts(n: Network, n': Network, m: Id, f: Endpoint, to: Id, out: multiset<Signal>, a: Id)
    requires Accounted(n) && m in n.ends && a in n.ends && to != m && n'.ends == n.ends[m := f]
    requires multiset(Account(f, a)) == multiset(Account(n.ends[m], a))
    requires forall l: Link | l != (m, to) ::
               OnLink(n'.wire, l) == OnLink(n.wire, l) && OnLink(n'.sent, l) == OnLink(n.sent, l)
    requires OnLink(n'.wire, (m, to)) == OnLink(n.wire, (m, to)) + out
    requires OnLink(n'.sent, (m, to)) == OnLink(n.sent, (m, to)) + out
    ensures LinkAccounted(n', a, m) && LinkAccounted(n', m, a)
  {
    assert LinkAccounted(n, a, m) && LinkAccounted(n, m, a);
    hide *;
    var none: multiset<Signal> := multiset{};
    var l: Link := (a, m);
    assert OnLink(n.sent, l) == OnLink(n.sent, l) + none;
    assert multiset(Account(n'.ends[m], a)) == multiset(Account(n.ends[m], a)) + none;
    assert OnLink(n.wire, l) + none == OnLink(n'.wire, l) + none;
    LinkStays(n, n', a, m, none, none);
    if a != m {
      var sent := if a == to then out else none;
      var k: Link := (m, a);
      assert OnLink(n'.wire, k) == OnLink(n.wire, k) + sent;
      assert OnLink(n'.sent, k) == OnLink(n.sent, k) + sent;
      assert multiset(Account(n'.ends[a], m)) == multiset(Account(n.ends[a], m)) + none;
      assert OnLink(n.wire, k) + sent == OnLink(n'.wire, k) + none;
      LinkStays(n, n', m, a, none, sent);
    }
  }

  /** A move at `m` that changes the pair with `to` and posts `out` to it. */
  lemma PostingKeeps(lists: Lists, n: Network, n': Network, m: Id, f: Endpoint, to: Id, out: multiset<Signal>)
    requires m in lists && to != m
    requires n.ends.Keys == lists.Keys && n'.ends == n.ends[m := f] && EndFine(lists, m, f)
    requires forall l: Link | l != (m, to) ::
               OnLink(n'.wire, l) == OnLink(n.wire, l) && OnLink(n'.sent, l) == OnLink(n.sent, l)
    requires OnLink(n'.wire, (m, to)) == OnLink(n.wire, (m, to)) + out
    requires OnLink(n'.sent, (m, to)) == OnLink(n.sent, (m, to)) + out
    requires forall a | a in lists :: multiset(Account(f, a)) == multiset(Account(n.ends[m], a))
    requires forall a | a in lists && a != m :: PairOf(lists, n', a, m)
    requires OneOffererEach(lists) && Fine(lists, n)
    ensures Fine(lists, n')
  {
    hide *;
    FineMember(lists, n, m);
    forall a | a in lists ensures LinkAccounted(n', a, m) && LinkAccounted(n', m, a) {
      PostedAccounts(n, n', m, f, to, out, a);
    }
    MoveKeeps(lists, n, n', m, f);
  }

  /** One stretch of a handler at `e`, seen from the pair with `a`. */
  lemma ProceedAt(xOffers: bool, x: Side, e: Endpoint, a: Id, toE: multiset<Signal>, toX: multiset<Signal>,
          peer: Id, i: nat, sdp: nat)
    requires peer in e.peers && i < |e.peers[peer].handlers|
    requires At(xOffers, x, e, a, toE, toX)
    ensures At(xOffers, x, Proceed(e, peer, i, sdp).0, a, toE,
               toX + if a == peer then multiset(Continue(e.peers[peer], i, sdp).1) else multiset{})
  {
    var (q, out) := Continue(e.peers[peer], i, sdp);
    var f := Proceed(e, peer, i, sdp).0;
    assert f == e.(peers := e.peers[peer := q]);
    hide Pair, Waiting, Continue, Proceed;
    if a == peer {
      Continues(xOffers, x, SideOf(e, a), toE + multiset(Waiting(e.queue, a)), toX, i, sdp);
      assert SideOf(f, a) == SideOf(e, a).(peer := Some(q));
    } else {
      assert SideOf(f, a) == SideOf(e, a);
      assert toX + multiset{} == toX;
    }
  }

  lemma HandlerStepAt(lists: Lists, n: Network, n': Network, m: Id, peer: Id, i: nat, sdp: nat, a: Id)
    requires PairsFine(lists, n) && m in n.ends && a in lists && a != m
    requires peer in n.ends[m].peers && i < |n.ends[m].peers[peer].handlers|
    requires n'.ends == n.ends[m := Proceed(n.ends[m], peer, i, sdp).0]
    requires OnLink(n'.wire, (a, m)) == OnLink(n.wire, (a, m))
    requires OnLink(n'.wire, (m, a)) == OnLink(n.wire, (m, a)) +
               if a == peer then multiset(Continue(n.ends[m].peers[peer], i, sdp).1) else multiset{}
    ensures a in n'.ends && PairOf(lists, n', a, m)
  {
    hide *;
    PairAt(lists, n, a, m);
    var toE, kept := OnLink(n.wire, (a, m)), OnLink(n.wire, (m, a));
    var queued := multiset(Waiting(n.ends[a].queue, m));
    var posted := if a == peer then multiset(Continue(n.ends[m].peers[peer], i, sdp).1) else multiset{};
    ProceedAt(OffersTo(lists[a], m), SideOf(n.ends[a], m), n.ends[m], a, toE, kept + queued, peer, i, sdp);
    assert kept + queued + posted == kept + posted + queued;
    PairFrom(lists, n', a, m, toE, kept + queued + posted);
  }

  lemma HandlerStepFrame(n: Network, m: Id, peer: Id, i: nat, sdp: nat)
    requires Enabled(n, HandlerStep(m, peer, i, sdp))
    ensures var n' := Next(n, HandlerStep(m, peer, i, sdp));
            var (q, out) := Continue(n.ends[m].peers[peer], i, sdp);
            && n'.ends == n.ends[m := Proceed(n.ends[m], peer, i, sdp).0]
            && (forall l: Link | l != (m, peer) ::
                  OnLink(n'.wire, l) == OnLink(n.wire, l) && OnLink(n'.sent, l) == OnLink(n.sent, l))
            && OnLink(n'.wire, (m, peer)) == OnLink(n.wire, (m, peer)) + multiset(out)
            && OnLink(n'.sent, (m, peer)) == OnLink(n.sent, (m, peer)) + multiset(out)
  {
    hide Continue, OnLink;
    var (f, sent) := Proceed(n.ends[m], peer, i, sdp);
    PostAllFrame(n.(ends := n.ends[m := f]), m, sent, peer);
    SignalsTo(peer, Continue(n.ends[m].peers[peer], i, sdp).1);
  }

  /** The peer a move speaks of is another member of the mesh. */
  lemma PeerIsMember(lists: Lists, n: Network, m: Id, peer: Id)
    requires OneOffererEach(lists) && EndsFine(lists, n) && m in lists && peer in n.ends[m].peers
    ensures peer in lists && peer != m
  {
    assert EndFine(lists, m, n.ends[m]);
    assert Listed(lists[m], peer);
  }

  lemma HandlerStepMoves(n: Network, m: Id, peer: Id, i: nat, sdp: nat)
    requires Enabled(n, HandlerStep(m, peer, i, sdp))
    ensures m in n.ends && peer in n.ends[m].peers && i < |n.ends[m].peers[peer].handlers|
    ensures Proceed(n.ends[m], peer, i, sdp).0 == MeshEndpoint.Step(n.ends[m], Resumed(peer, i, sdp))
  {
  }

  lemma HandlerStepKeeps(lists: Lists, n: Network, m: Id, peer: Id, i: nat, sdp: nat)
    requires OneOffererEach(lists) && Fine(lists, n) && Enabled(n, HandlerStep(m, peer, i, sdp))
    ensures Fine(lists, Next(n, HandlerStep(m, peer, i, sdp)))
  {
    hide *;
    HandlerStepMoves(n, m, peer, i, sdp);
    FineMember(lists, n, m);
    PeerIsMember(lists, n, m, peer);
    HandlerStepFrame(n, m, peer, i, sdp);
    var n' := Next(n, HandlerStep(m, peer, i, sdp));
    var e := n.ends[m];
    var v := Resumed(peer, i, sdp);
    var f := Proceed(e, peer, i, sdp).0;
    StepKeepsEnd(lists, m, e, v);
    forall a | a in lists ensures multiset(Account(f, a)) == multiset(Account(e, a)) {
      StepAccounts(e, v, a);
      assert Account(e, a) + [] == Account(e, a);
    }
    forall a | a in lists && a != m ensures a in n'.ends && PairOf(lists, n', a, m) {
      var l: Link, k: Link := (a, m), (m, a);
      assert OnLink(n'.wire, l) == OnLink(n.wire, l);
      assert a != peer ==> OnLink(n'.wire, k) == OnLink(n.wire, k) + multiset{};
      HandlerStepAt(lists, n, n', m, peer, i, sdp, a);
    }
    PostingKeeps(lists, n, n', m, f, peer, multiset(Continue(e.peers[peer], i, sdp).1));
  }

  lemma GatherAt(lists: Lists, n: Network, n': Network, m: Id, peer: Id, c: Candidate, a: Id)
    requires PairsFine(lists, n) && m in lists && a in lists && a != m && n'.ends == n.ends
    requires forall l: Link | l != (m, peer) :: OnLink(n'.wire, l) == OnLink(n.wire, l)
    requires OnLink(n'.wire, (m, peer)) == OnLink(n.wire, (m, peer)) + multiset{IceCandidate(c)}
    ensures PairOf(lists, n', a, m)
  {
    assert PairOf(lists, n, a, m);
    var l: Link, k: Link := (a, m), (m, a);
    assert OnLink(n'.wire, l) == OnLink(n.wire, l);
    hide OnLink, Pair, Waiting, PairsFine;
    if a == peer {
      var toE := OnLink(n.wire, l) + multiset(Waiting(n.ends[m].queue, a));
      var toX := OnLink(n.wire, k) + multiset(Waiting(n.ends[a].queue, m));
      Gathers(OffersTo(lists[a], m), SideOf(n.ends[a], m), SideOf(n.ends[m], a), toE, toX, c);
      assert toX + multiset{IceCandidate(c)} == OnLink(n'.wire, k) + multiset(Waiting(n.ends[a].queue, m));
    } else {
      assert OnLink(n'.wire, k) == OnLink(n.wire, k);
    }
  }

  lemma GatherFrame(lists: Lists, n: Network, m: Id, peer: Id, c: Candidate)
    requires Fine(lists, n) && Enabled(n, Gather(m, peer, c))
    ensures Next(n, Gather(m, peer, c)) == Post(n, m, peer, IceCandidate(c))
    ensures m in lists && EndFine(lists, m, n.ends[m]) && PairsFine(lists, n) && EndsFine(lists, n)
    ensures peer in n.ends[m].peers
  {
  }

  lemma GatherKeeps(lists: Lists, n: Network, m: Id, peer: Id, c: Candidate)
    requires OneOffererEach(lists) && Fine(lists, n) && Enabled(n, Gather(m, peer, c))
    ensures Fine(lists, Next(n, Gather(m, peer, c)))
  {
    hide *;
    var n' := Next(n, Gather(m, peer, c));
    GatherFrame(lists, n, m, peer, c);
    PeerIsMember(lists, n, m, peer);
    PostFrame(n, m, peer, IceCandidate(c));
    assert n.ends[m := n.ends[m]] == n.ends;
    forall a | a in lists && a != m ensures PairOf(lists, n', a, m) {
      GatherAt(lists, n, n', m, peer, c, a);
    }
    PostingKeeps(lists, n, n', m, n.ends[m], peer, multiset{IceCandidate(c)});
  }

  /** A pair with a side that makes an offer: the browser accepts it. */
  lemma MakingFits(xOffers: bool, x: Side, e: Endpoint, a: Id, toE: multiset<Signal>, toX: multiset<Signal>,
          sdp: nat)
    requires At(xOffers, x, e, a, toE, toX) && a in e.peers && Making(e, a)
    ensures SetLocalOffer(e.peers[a], Offer(sdp)).Some?
  {
    hide Pair, Waiting, SetLocalOffer;
    Offers(xOffers, x, SideOf(e, a), toE + multiset(Waiting(e.queue, a)), toX, sdp);
  }

  /** The peer whose offer is set next, and the offer. */
  lemma MadeOffer(lists: Lists, m: Id, e: Endpoint)
    requires m in lists && EndFine(lists, m, e) && e.creating.SettingLocalOffer? && CanCreate(e)
    ensures var id := e.participants[e.creating.at].peerId;
            id in e.peers && Making(e, id) && e.creating.offer == Offer(e.creating.offer.sdp)
  {
  }

  /** The pair of the participant whose offer is being made says that the browser accepts it. */
  lemma MadeOfferFits(lists: Lists, n: Network, m: Id)
    requires OneOffererEach(lists) && Fine(lists, n) && m in n.ends
    ensures OfferFits(n.ends[m])
  {
    var e := n.ends[m];
    FineMember(lists, n, m);
    if e.creating.SettingLocalOffer? && CanCreate(e) {
      MadeOffer(lists, m, e);
      hide Fine, PairsFine, EndFine, EndsFine, At, SetLocalOffer, SideOf, Making, OnLink, OneOffererEach, Accounted;
      var id := e.participants[e.creating.at].peerId;
      PeerIsMember(lists, n, m, id);
      PairAt(lists, n, id, m);
      MakingFits(OffersTo(lists[id], m), SideOf(n.ends[id], m), e, id, OnLink(n.wire, (id, m)),
                 OnLink(n.wire, (m, id)) + multiset(Waiting(n.ends[id].queue, m)), e.creating.offer.sdp);
    }
  }

  lemma CreateStepAt(lists: Lists, n: Network, n': Network, m: Id, sdp: nat, a: Id)
    requires OneOffererEach(lists) && PairsFine(lists, n) && m in lists && a in lists && a != m
    requires EndFine(lists, m, n.ends[m]) && CanCreate(n.ends[m]) && OfferFits(n.ends[m])
    requires var (f, out) := Create(n.ends[m], sdp);
             && n'.ends == n.ends[m := f]
             && OnLink(n'.wire, (a, m)) == OnLink(n.wire, (a, m))
             && OnLink(n'.wire, (m, a)) == OnLink(n.wire, (m, a))
                                           + PostedTo(out, a)
    ensures PairOf(lists, n', a, m)
  {
    var e := n.ends[m];
    var (f, out) := Create(e, sdp);
    assert PairOf(lists, n, a, m);
    assert OffersTo(lists[a], m) == !OffersTo(e.participants, a);
    var x := SideOf(n.ends[a], m);
    var toE := OnLink(n.wire, (a, m));
    var toX := OnLink(n.wire, (m, a)) + multiset(Waiting(n.ends[a].queue, m));
    assert At(!OffersTo(e.participants, a), x, e, a, toE, toX);
    assert Progressing(e) && e.creating != Running && !e.creating.Rejected?;
    hide *;
    CreateAt(x, e, sdp, a, toE, toX);
    var posted := PostedTo(out, a);
    assert toX + posted == OnLink(n'.wire, (m, a)) + multiset(Waiting(n.ends[a].queue, m));
    PairFrom(lists, n', a, m, toE, toX + posted);
  }

  lemma CreateSendsOne(e: Endpoint, sdp: nat)
    requires CanCreate(e)
    ensures var out := Create(e, sdp).1;
            && |out| <= 1
            && (out != [] ==> Signals(out) == multiset{out[0].signal} && out[0].to in e.peers)
  {
    var out := Create(e, sdp).1;
    if out != [] {
      assert out[1..] == [];
    }
  }

  lemma CreateStepMoves(n: Network, m: Id, sdp: nat)
    requires Enabled(n, CreateStep(m, sdp))
    ensures m in n.ends && CanCreate(n.ends[m])
    ensures var (f, out) := Create(n.ends[m], sdp);
            Next(n, CreateStep(m, sdp)) == PostAll(n.(ends := n.ends[m := f]), m, out)
  {
  }

  lemma CreateStepKeeps(lists: Lists, n: Network, m: Id, sdp: nat)
    requires OneOffererEach(lists) && Fine(lists, n) && Enabled(n, CreateStep(m, sdp))
    ensures Fine(lists, Next(n, CreateStep(m, sdp)))
  {
    hide *;
    CreateStepMoves(n, m, sdp);
    FineMember(lists, n, m);
    MadeOfferFits(lists, n, m);
    var n' := Next(n, CreateStep(m, sdp));
    var e := n.ends[m];
    var (f, out) := Create(e, sdp);
    CreateSendsOne(e, sdp);
    if out != [] {
      PeerIsMember(lists, n, m, out[0].to);
    }
    CreateStepEnd(lists, n, m, sdp);
    // With nothing sent, any link serves as the one on which nothing was posted.
    var to := if out != [] then out[0].to else m + 1;
    PostAllFrame(n.(ends := n.ends[m := f]), m, out, to);
    forall a | a in lists && a != m ensures PairOf(lists, n', a, m) {
      CreateStepPair(lists, n, n', m, sdp, a, to);
    }
    forall a | a in lists ensures multiset(Account(f, a)) == multiset(Account(e, a)) {
      CreateAccounts(e, sdp, a);
    }
    PostingKeeps(lists, n, n', m, f, to, Signals(out));
  }

  lemma CreateStepPair(lists: Lists, n: Network, n': Network, m: Id, sdp: nat, a: Id, to: Id)
    requires OneOffererEach(lists) && PairsFine(lists, n) && m in lists && a in lists && a != m
    requires EndFine(lists, m, n.ends[m]) && CanCreate(n.ends[m]) && OfferFits(n.ends[m])
    requires var (f, out) := Create(n.ends[m], sdp);
             && n'.ends == n.ends[m := f]
             && (forall l: Link | l != (m, to) :: OnLink(n'.wire, l) == OnLink(n.wire, l))
             && OnLink(n'.wire, (m, to)) == OnLink(n.wire, (m, to)) + Signals(out)
             && (out != [] ==> out[0].to == to && Signals(out) == multiset{out[0].signal})
    ensures PairOf(lists, n', a, m)
  {
    var (f, out) := Create(n.ends[m], sdp);
    assert PostedTo(out, a) == if a == to then Signals(out) else multiset{};
    hide *;
    var l: Link, k: Link := (a, m), (m, a);
    var posted := PostedTo(out, a);
    assert OnLink(n'.wire, l) == OnLink(n.wire, l);
    assert OnLink(n'.wire, k) == OnLink(n.wire, k) + posted;
    CreateStepAt(lists, n, n', m, sdp, a);
  }

  lemma {:induction false} CreateFromParks(e: Endpoint, k: nat)
    requires k <= |e.participants|
    ensures CreateFrom(e, k).creating.Returned? || CreateFrom(e, k).creating.CreatingOffer?
    decreases |e.participants| - k
  {
    if k < |e.participants| {
      if Skipped(e, k) {
        CreateFromParks(e, k + 1);
      } else if !e.participants[k].offerer {
        CreateFromParks(AddPeer(e, e.participants[k].peerId), k + 1);
      }
    }
  }

  lemma CreateStays(e: Endpoint, sdp: nat)
    requires CanCreate(e) && OfferFits(e) && !e.creating.Rejected? && e.creating != Running
    ensures var f := Create(e, sdp).0; !f.creating.Rejected? && f.creating != Running
  {
    match e.creating
    case FetchingIce => CreateFromParks(e.(creating := Running), 0);
    case SettingLocalOffer(at, offer) =>
      var id := e.participants[at].peerId;
      CreateFromParks(e.(peers := e.peers[id := SetLocalOffer(e.peers[id], offer).value], creating := Running), at + 1);
    case _ =>
  }

  lemma CreateStepEnd(lists: Lists, n: Network, m: Id, sdp: nat)
    requires OneOffererEach(lists) && Fine(lists, n) && m in lists && CanCreate(n.ends[m]) && OfferFits(n.ends[m])
    ensures EndFine(lists, m, Create(n.ends[m], sdp).0)
  {
    var e := n.ends[m];
    CreateAccounts(e, sdp, m);
    CreateStays(e, sdp);
    hide Create, NoneOverdue, Progressing;
  }

  // ---------------------------------------------------------------------------
  // Runs
  // ---------------------------------------------------------------------------

  lemma BeginsPaired(lists: Lists, a: Id, b: Id)
    requires a in lists && b in lists
    ensures PairOf(lists, Begin(lists), a, b)
  {
    Initially(OffersTo(lists[a], b));
    hide Pair;
    var none: multiset<Signal> := multiset{};
    assert Waiting([], a) == [] && Waiting([], b) == [] && none + multiset([]) == none;
  }

  lemma BeginsAccounted(lists: Lists)
    ensures Accounted(Begin(lists)) && EndsFine(lists, Begin(lists)) && Begin(lists).ends.Keys == lists.Keys
  {
  }

  lemma BeginsFine(lists: Lists)
    requires OneOffererEach(lists)
    ensures Fine(lists, Begin(lists))
  {
    BeginsAccounted(lists);
    hide PairOf, Accounted, EndsFine, Begin;
    forall a, b | a in lists && b in lists && a != b ensures PairOf(lists, Begin(lists), a, b) {
      BeginsPaired(lists, a, b);
    }
  }

  lemma MoveKeepsFine(lists: Lists, n: Network, m: Move)
    requires OneOffererEach(lists) && Fine(lists, n) && Enabled(n, m)
    ensures Fine(lists, Next(n, m))
  {
    hide *;
    match m
    case Deliver(from, to, s) => DeliverKeeps(lists, n, from, to, s);
    case HandlerStep(at, peer, i, sdp) => HandlerStepKeeps(lists, n, at, peer, i, sdp);
    case CreateStep(at, sdp) => CreateStepKeeps(lists, n, at, sdp);
    case Gather(at, peer, c) => GatherKeeps(lists, n, at, peer, c);
  }

  lemma {:induction false} RunFine(lists: Lists, moves: seq<Move>)
    requires OneOffererEach(lists)
    ensures Fine(lists, Go(Begin(lists), moves))
  {
    if moves == [] {
      BeginsFine(lists);
    } else {
      hide Fine, Enabled, Next;
      var before := Go(Begin(lists), moves[..|moves| - 1]);
      RunFine(lists, moves[..|moves| - 1]);
      if Enabled(before, moves[|moves| - 1]) {
        MoveKeepsFine(lists, before, moves[|moves| - 1]);
      }
    }
  }

  /** Nothing is on its way and nothing waits: every call of `createMeshPeers` and every handler has returned. */
  ghost predicate Quiet(n: Network) {
    && (forall a, b | a in n.ends && b in n.ends :: OnLink(n.wire, (a, b)) == multiset{})
    && (forall a | a in n.ends ::
          n.ends[a].creating.Returned? && forall id | id in n.ends[a].peers :: n.ends[a].peers[id].handlers == [])
  }

  /**
    Mesh agreement and candidate delivery: in every run, with any delivery order and any
    interleaving at the `await`s, once the mesh is quiet both ends of every pair are stable and
    ready, hold each other's descriptions, offer and answer, and have handed to their connection
    exactly the candidates the other end sent.
   */
  lemma MeshAgreement(lists: Lists, moves: seq<Move>, a: Id, b: Id)
    requires OneOffererEach(lists) && a in lists && b in lists && a != b && OffersTo(lists[a], b)
    requires Quiet(Go(Begin(lists), moves))
    ensures var n := Go(Begin(lists), moves);
            && a in n.ends && b in n.ends && b in n.ends[a].peers && a in n.ends[b].peers
            && Agreed(n.ends[a].peers[b], n.ends[b].peers[a])
            && Delivered(OnLink(n.sent, (a, b)), n.ends[b].peers[a])
            && Delivered(OnLink(n.sent, (b, a)), n.ends[a].peers[b])
  {
    var n := Go(Begin(lists), moves);
    RunFine(lists, moves);
    QuietEnds(lists, n, a, b);
    QuietEnds(lists, n, b, a);
    assert PairOf(lists, n, a, b);
    var none: multiset<Signal> := multiset{};
    assert none + multiset(Waiting(n.ends[b].queue, a)) == none && none + multiset(Waiting(n.ends[a].queue, b)) == none;
    QuietPairAgrees(SideOf(n.ends[a], b), SideOf(n.ends[b], a));
    QuietLink(n, a, b);
    QuietLink(n, b, a);
  }

  /** Every candidate ever sent on a link was handed to the connection exactly once, and nothing else was. */
  ghost predicate Delivered(sent: multiset<Signal>, p: Peer) {
    forall c: Candidate :: multiset(p.added)[c] == sent[IceCandidate(c)]
  }

  lemma {:induction false} CandidatesCounted(seen: seq<Signal>, c: Candidate)
    ensures Candidates(seen)[c] == multiset(seen)[IceCandidate(c)]
    decreases |seen|
  {
    if seen != [] {
      var front, last := seen[..|seen| - 1], seen[|seen| - 1];
      CandidatesCounted(front, c);
      SeenAppend(front, last);
      assert seen == front + [last];
      hide Candidates;
      assert multiset(seen) == multiset(front) + multiset{last};
    }
  }

  lemma QuietEnds(lists: Lists, n: Network, a: Id, b: Id)
    requires OneOffererEach(lists) && Fine(lists, n) && Quiet(n) && a in lists && b in lists && a != b
    ensures b in n.ends[a].peers && !Making(n.ends[a], b) && Waiting(n.ends[a].queue, b) == []
    ensures n.ends[a].peers[b].handlers == []
  {
    var e := n.ends[a];
    assert EndFine(lists, a, e);
    QuietEnd(e, b);
  }

  lemma QuietEnd(e: Endpoint, b: Id)
    requires Progressing(e) && NoneOverdue(e) && e.creating.Returned? && Listed(e.participants, b) && b != e.me
    ensures b in e.peers && !Making(e, b) && Waiting(e.queue, b) == []
  {
    WaitingNone(e.queue, b);
  }

  lemma QuietLink(n: Network, a: Id, b: Id)
    requires Accounted(n) && Quiet(n) && a in n.ends && b in n.ends && a in n.ends[b].peers
    requires Waiting(n.ends[b].queue, a) == [] && Conserved(n.ends[b].peers[a])
    requires n.ends[b].peers[a].ready && n.ends[b].peers[a].handlers == []
    ensures Delivered(OnLink(n.sent, (a, b)), n.ends[b].peers[a])
  {
    var p := n.ends[b].peers[a];
    assert LinkAccounted(n, a, b);
    assert Account(n.ends[b], a) == p.seen;
    hide OnLink;
    forall c: Candidate ensures multiset(p.added)[c] == OnLink(n.sent, (a, b))[IceCandidate(c)] {
      CandidatesCounted(p.seen, c);
    }
  }

  /** A move that some signal, handler or call is waiting for. */
  predicate Pressing(n: Network, m: Move) {
    Enabled(n, m) && !m.Gather? && (m.CreateStep? ==> !n.ends[m.at].creating.Returned?)
  }

  lemma UnfinishedCreates(lists: Lists, a: Id, e: Endpoint)
    requires a in lists && EndFine(lists, a, e) && !e.creating.Returned?
    ensures CanCreate(e)
  {
  }

  lemma SignalPresses(n: Network, a: Id, b: Id)
    requires a in n.ends && b in n.ends && OnLink(n.wire, (a, b)) != multiset{}
    ensures exists m: Move :: Pressing(n, m)
  {
    var s :| s in OnLink(n.wire, (a, b));
    assert Pressing(n, Deliver(a, b, s));
  }

  lemma CallPresses(lists: Lists, n: Network, a: Id)
    requires EndsFine(lists, n) && a in lists && a in n.ends && !n.ends[a].creating.Returned?
    ensures exists m: Move :: Pressing(n, m)
  {
    assert EndFine(lists, a, n.ends[a]);
    hide EndsFine, EndFine;
    UnfinishedCreates(lists, a, n.ends[a]);
    assert Pressing(n, CreateStep(a, 0));
  }

  lemma HandlerPresses(n: Network, a: Id, id: Id)
    requires a in n.ends && id in n.ends[a].peers && n.ends[a].peers[id].handlers != []
    ensures exists m: Move :: Pressing(n, m)
  {
    assert Pressing(n, HandlerStep(a, id, 0, 0));
  }

  lemma FineEnds(lists: Lists, n: Network)
    requires Fine(lists, n)
    ensures EndsFine(lists, n) && n.ends.Keys == lists.Keys
  {
    hide EndFine, Accounted, PairOf;
  }

  lemma QuietUnlessPressing(lists: Lists, n: Network)
    requires EndsFine(lists, n) && n.ends.Keys == lists.Keys
    requires forall m: Move :: !Pressing(n, m)
    ensures Quiet(n)
  {
    hide OnLink, Pressing, EndsFine;
    forall a, b | a in n.ends && b in n.ends ensures OnLink(n.wire, (a, b)) == multiset{} {
      if OnLink(n.wire, (a, b)) != multiset{} {
        SignalPresses(n, a, b);
      }
    }
    forall a | a in n.ends ensures n.ends[a].creating.Returned? {
      if !n.ends[a].creating.Returned? {
        CallPresses(lists, n, a);
      }
    }
    forall a, id | a in n.ends && id in n.ends[a].peers ensures n.ends[a].peers[id].handlers == [] {
      if n.ends[a].peers[id].handlers != [] {
        HandlerPresses(n, a, id);
      }
    }
  }

  /** No run gets stuck: while the mesh is not quiet, something that is awaited can happen. */
  lemma NeverStuck(lists: Lists, moves: seq<Move>)
    requires OneOffererEach(lists)
    ensures Quiet(Go(Begin(lists), moves)) || exists m: Move :: Pressing(Go(Begin(lists), moves), m)
  {
    hide *;
    var n := Go(Begin(lists), moves);
    RunFine(lists, moves);
    FineEnds(lists, n);
    if forall m: Move :: !Pressing(n, m) {
      QuietUnlessPressing(lists, n);
    }
  }
}
