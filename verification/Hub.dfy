/**
  The registry of live sockets (rust/src/matchmaking/sockets.rs:58-211): which sockets are open,
  which user each authenticated socket belongs to, and the bounded outbox of each socket.
 */
module Hubs {
  import opened Wrappers
  import Friends

  type SocketId = nat
  type UserId = Friends.UserId

  datatype Message =
    | PresenceList(users: seq<UserId>)
    | PresenceOnline(user: UserId)
    | PresenceOffline(user: UserId)
    | OtherMessage

  /** Frames an outbox can hold; one more and the hub drops the socket. */
  const SOCKET_OUTGOING_CAPACITY := 64

  datatype Registry = Registry(
    sockets: set<SocketId>,
    byUser: map<UserId, seq<SocketId>>,
    userOf: map<SocketId, UserId>,
    nextId: SocketId,
    outbox: map<SocketId, seq<Message>>)

  function Queue(h: Registry, s: SocketId): seq<Message> {
    if s in h.outbox then h.outbox[s] else []
  }

  function SocketsOf(h: Registry, u: UserId): seq<SocketId> {
    if u in h.byUser then h.byUser[u] else []
  }

  predicate Online(h: Registry, u: UserId) {
    u in h.byUser && h.byUser[u] != []
  }

  function Connect(h: Registry): Registry {
    h.(sockets := h.sockets + {h.nextId}, nextId := h.nextId + 1, outbox := h.outbox[h.nextId := []])
  }

  function Register(h: Registry, s: SocketId, u: UserId): Registry {
    if s in h.userOf && h.userOf[s] == u then h
    else
      var list := SocketsOf(h, u);
      h.(userOf := h.userOf[s := u], byUser := h.byUser[u := if s in list then list else list + [s]])
  }

  function Without(list: seq<SocketId>, s: SocketId): (r: seq<SocketId>)
    ensures forall k :: k in r <==> k in list && k != s
    ensures NoDuplicates(list) ==> NoDuplicates(r)
  {
    if list == [] then []
    else
      assert NoDuplicates(list) ==> NoDuplicates(list[1..]) && list[0] !in list[1..];
      if list[0] == s then Without(list[1..], s) else [list[0]] + Without(list[1..], s)
  }

  function Disconnect(h: Registry, s: SocketId): Registry {
    var closed := h.(sockets := h.sockets - {s}, userOf := h.userOf - {s});
    if s !in h.userOf || h.userOf[s] !in h.byUser then closed
    else
      var u := h.userOf[s];
      var list := Without(h.byUser[u], s);
      closed.(byUser := if list == [] then h.byUser - {u} else h.byUser[u := list])
  }

  function Push(h: Registry, s: SocketId, m: Message): Registry {
    if s !in h.sockets then h
    else if |Queue(h, s)| < SOCKET_OUTGOING_CAPACITY then h.(outbox := h.outbox[s := Queue(h, s) + [m]])
    else Disconnect(h, s)
  }

  function PushAll(h: Registry, list: seq<SocketId>, m: Message): Registry {
    if list == [] then h else Push(PushAll(h, list[..|list| - 1], m), list[|list| - 1], m)
  }

  function SendToUser(h: Registry, u: UserId, m: Message): Registry {
    PushAll(h, SocketsOf(h, u), m)
  }

  class Hub {
    var sockets: set<SocketId>
    var byUser: map<UserId, seq<SocketId>>
    var userOf: map<SocketId, UserId>
    var nextId: SocketId
    var outbox: map<SocketId, seq<Message>>

    function View(): Registry
      reads this
    {
      Registry(sockets, byUser, userOf, nextId, outbox)
    }

    constructor ()
      ensures View() == Registry({}, map[], map[], 1, map[])
    {
      sockets, byUser, userOf, nextId, outbox := {}, map[], map[], 1, map[];
    }

    method ConnectSocket() returns (id: SocketId)
      modifies this
      ensures View() == Connect(old(View())) && id == old(nextId)
    {
      id := nextId;
      nextId := nextId + 1;
      sockets := sockets + {id};
      outbox := outbox[id := []];
    }

    method RegisterUser(socket: SocketId, user: UserId)
      modifies this
      ensures View() == Register(old(View()), socket, user)
    {
      if socket in userOf && userOf[socket] == user {
        return;
      }
      userOf := userOf[socket := user];
      if user !in byUser {
        byUser := byUser[user := []];
      }
      if socket !in byUser[user] {
        byUser := byUser[user := byUser[user] + [socket]];
      }
    }

    method DisconnectSocket(socket: SocketId)
      modifies this
      ensures View() == Disconnect(old(View()), socket)
    {
      sockets := sockets - {socket};
      if socket in userOf {
        var user := userOf[socket];
        userOf := userOf - {socket};
        if user in byUser {
          byUser := byUser[user := Without(byUser[user], socket)];
          if byUser[user] == [] {
            byUser := byUser - {user};
          }
        }
      }
    }

    method PushFrame(socket: SocketId, m: Message)
      modifies this
      ensures View() == Push(old(View()), socket, m)
    {
      if socket in sockets {
        var queue := Queue(View(), socket);
        if |queue| < SOCKET_OUTGOING_CAPACITY {
          outbox := outbox[socket := queue + [m]];
        } else {
          DisconnectSocket(socket);
        }
      }
    }

    /** Every socket of the user gets the frame; one that overflows does not stop the others. */
    method SendUser(user: UserId, m: Message)
      modifies this
      ensures View() == SendToUser(old(View()), user, m)
    {
      var handles := SocketsOf(View(), user);
      var i := 0;
      while i < |handles|
        invariant 0 <= i <= |handles|
        invariant View() == PushAll(old(View()), handles[..i], m)
      {
        assert handles[..i + 1][..i] == handles[..i];
        PushFrame(handles[i], m);
        i := i + 1;
      }
      assert handles[..i] == handles;
    }
  }

  // ---------------------------------------------------------------------------
  // Consistency of the two directions
  // ---------------------------------------------------------------------------

  /** `byUser` and `userOf` say the same, nobody is listed with no socket, and ids are never reused. */
  ghost predicate Indexed(h: Registry) {
    && h.userOf.Keys <= h.sockets <= h.outbox.Keys
    && (forall s | s in h.outbox :: s < h.nextId)
    && (forall u | u in h.byUser :: h.byUser[u] != [] && NoDuplicates(h.byUser[u]))
    && (forall u, s :: u in h.byUser && s in h.byUser[u] <==> s in h.userOf && h.userOf[s] == u)
  }

  lemma ListedMeansBound(h: Registry, u: UserId, s: SocketId)
    requires Indexed(h)
    ensures u in h.byUser && s in h.byUser[u] <==> s in h.userOf && h.userOf[s] == u
  {
  }

  lemma OnlineMeansBound(h: Registry, u: UserId)
    requires Indexed(h)
    ensures Online(h, u) <==> exists s :: s in h.userOf && h.userOf[s] == u
  {
    if Online(h, u) {
      var s := h.byUser[u][0];
      assert s in h.byUser[u];
      assert s in h.userOf && h.userOf[s] == u;
    }
  }

  lemma DisconnectIndexed(h: Registry, s: SocketId)
    requires Indexed(h)
    ensures Indexed(Disconnect(h, s))
  {
    var h' := Disconnect(h, s);
    if s in h.userOf {
      assert h.userOf[s] in h.byUser;
    }
    forall u, k ensures u in h'.byUser && k in h'.byUser[u] <==> k in h'.userOf && h'.userOf[k] == u {
      assert u in h.byUser && k in h.byUser[u] <==> k in h.userOf && h.userOf[k] == u;
      if s in h.userOf && u == h.userOf[s] {
        assert k in Without(h.byUser[u], s) <==> k in h.byUser[u] && k != s;
      }
    }
  }

  /** Binding an open socket keeps the registry consistent exactly when no other user has it. */
  lemma RegisterIndexed(h: Registry, s: SocketId, u: UserId)
    requires Indexed(h) && s in h.sockets
    ensures Indexed(Register(h, s, u)) <==> (s in h.userOf ==> h.userOf[s] == u)
  {
    var h' := Register(h, s, u);
    if s !in h.userOf {
      var list := SocketsOf(h, u);
      assert s !in list;
      assert h'.byUser[u] == list + [s];
      forall v, k ensures v in h'.byUser && k in h'.byUser[v] <==> k in h'.userOf && h'.userOf[k] == v {
        assert v in h.byUser && k in h.byUser[v] <==> k in h.userOf && h.userOf[k] == v;
      }
    } else if h.userOf[s] != u {
      var v := h.userOf[s];
      assert v in h.byUser && s in h.byUser[v];
      assert h'.byUser[v] == h.byUser[v] && h'.userOf[s] != v;
      assert !(v in h'.byUser && s in h'.byUser[v] <==> s in h'.userOf && h'.userOf[s] == v);
    }
  }

  /** What that costs: the first user stays online after the socket is gone. */
  lemma ReboundSocketLeavesUserOnline(h: Registry, s: SocketId, u: UserId)
    requires Indexed(h) && s in h.userOf && h.userOf[s] != u
    ensures var after := Disconnect(Register(h, s, u), s);
            Online(after, h.userOf[s]) && s !in after.sockets && s in SocketsOf(after, h.userOf[s])
  {
    var v := h.userOf[s];
    assert v in h.byUser && s in h.byUser[v];
    assert Register(h, s, u).byUser[v] == h.byUser[v];
  }

  // ---------------------------------------------------------------------------
  // Sending one frame to several sockets
  // ---------------------------------------------------------------------------

  predicate HasRoom(h: Registry, s: SocketId) {
    |Queue(h, s)| < SOCKET_OUTGOING_CAPACITY
  }

  /** The sockets of a set that one more frame disconnects. */
  function Full(h: Registry, to: set<SocketId>): set<SocketId> {
    set s | s in to && !HasRoom(h, s)
  }

  function Kept(list: seq<SocketId>, gone: set<SocketId>): (r: seq<SocketId>)
    ensures forall k :: k in r <==> k in list && k !in gone
    ensures NoDuplicates(list) ==> NoDuplicates(r)
    ensures (forall k | k in list :: k !in gone) ==> r == list
  {
    if list == [] then []
    else
      assert NoDuplicates(list) ==> NoDuplicates(list[1..]) && list[0] !in list[1..];
      if list[0] in gone then Kept(list[1..], gone) else [list[0]] + Kept(list[1..], gone)
  }

  lemma {:induction false} KeptWithout(list: seq<SocketId>, gone: set<SocketId>, s: SocketId)
    ensures Without(Kept(list, gone), s) == Kept(list, gone + {s})
  {
    if list != [] {
      KeptWithout(list[1..], gone, s);
      if list[0] !in gone {
        assert ([list[0]] + Kept(list[1..], gone))[1..] == Kept(list[1..], gone);
      }
    }
  }

  /** The lists of every user without the sockets that are gone. */
  function Remaining(byUser: map<UserId, seq<SocketId>>, gone: set<SocketId>): map<UserId, seq<SocketId>> {
    map u | u in byUser && Kept(byUser[u], gone) != [] :: Kept(byUser[u], gone)
  }

  /** The registry after every socket in `to` was sent the frame: those without room are gone. */
  function Delivered(h: Registry, to: set<SocketId>, m: Message): Registry {
    var full := Full(h, to);
    Registry(
      h.sockets - full,
      Remaining(h.byUser, full),
      h.userOf - full,
      h.nextId,
      map s | s in h.outbox :: if s in to && s !in full then h.outbox[s] + [m] else h.outbox[s])
  }

  lemma DeliveredToNobody(h: Registry, m: Message)
    requires Indexed(h)
    ensures Delivered(h, {}, m) == h
  {
    assert Full(h, {}) == {};
    assert Delivered(h, {}, m).byUser == h.byUser;
    assert Delivered(h, {}, m).outbox == h.outbox;
  }

  lemma DeliveredListed(h: Registry, to: set<SocketId>, m: Message, u: UserId, s: SocketId)
    requires Indexed(h)
    ensures var h' := Delivered(h, to, m);
            u in h'.byUser && s in h'.byUser[u] <==> s in h'.userOf && h'.userOf[s] == u
  {
    ListedMeansBound(h, u, s);
    hide Indexed;
  }

  lemma DeliveredIndexed(h: Registry, to: set<SocketId>, m: Message)
    requires Indexed(h)
    ensures Indexed(Delivered(h, to, m))
  {
    var h' := Delivered(h, to, m);
    assert h'.userOf.Keys <= h'.sockets <= h.outbox.Keys && h'.outbox.Keys == h.outbox.Keys by {
      hide Kept, NoDuplicates;
    }
    assert forall u | u in h'.byUser :: h'.byUser[u] != [] && NoDuplicates(h'.byUser[u]) by {
      hide Full;
    }
    hide Delivered, Kept, NoDuplicates;
    forall u, s ensures u in h'.byUser && s in h'.byUser[u] <==> s in h'.userOf && h'.userOf[s] == u {
      DeliveredListed(h, to, m, u, s);
    }
  }

  lemma LandOneMore(h: Registry, to: set<SocketId>, s: SocketId, m: Message)
    requires Indexed(h) && s in h.sockets && s !in to && HasRoom(h, s)
    ensures Push(Delivered(h, to, m), s, m) == Delivered(h, to + {s}, m)
  {
    assert Full(h, to + {s}) == Full(h, to);
    assert Push(Delivered(h, to, m), s, m).outbox == Delivered(h, to + {s}, m).outbox;
  }

  lemma DropOneMore(h: Registry, to: set<SocketId>, s: SocketId, m: Message)
    requires Indexed(h) && s in h.sockets && s !in to && !HasRoom(h, s)
    ensures Push(Delivered(h, to, m), s, m) == Delivered(h, to + {s}, m)
  {
    var h1, h2 := Delivered(h, to, m), Delivered(h, to + {s}, m);
    var full := Full(h, to);
    assert Full(h, to + {s}) == full + {s};
    assert h2.outbox == h1.outbox && h1.outbox[s] == h.outbox[s];
    assert h2.userOf == h1.userOf - {s} && h2.sockets == h1.sockets - {s};
    assert Push(h1, s, m) == Disconnect(h1, s);
    DropFromIndex(h, h1, full, s);
    hide Delivered, Push, Indexed, HasRoom, Kept;
  }

  lemma DropFromList(h: Registry, full: set<SocketId>, s: SocketId, u: UserId)
    requires u in h.byUser && s !in full && (s in h.byUser[u] <==> s in h.userOf && h.userOf[s] == u)
    ensures Kept(h.byUser[u], full + {s}) ==
            if s in h.userOf && h.userOf[s] == u then Without(Kept(h.byUser[u], full), s)
            else Kept(h.byUser[u], full)
    ensures s in h.userOf && h.userOf[s] == u ==> s in Kept(h.byUser[u], full)
  {
    KeptWithout(h.byUser[u], full, s);
    if s !in h.byUser[u] {
      KeptSame(h.byUser[u], full, s);
    }
  }

  /** Disconnecting one more socket takes it out of its user's list, and the user out with the last one. */
  lemma DropFromIndex(h: Registry, h1: Registry, full: set<SocketId>, s: SocketId)
    requires Indexed(h) && s !in full && h1.userOf == h.userOf - full && h1.byUser == Remaining(h.byUser, full)
    ensures Disconnect(h1, s).byUser == Remaining(h.byUser, full + {s})
  {
    hide Indexed, Kept, Without, NoDuplicates;
    forall u | u in h.byUser
      ensures Kept(h.byUser[u], full + {s}) ==
              if s in h.userOf && h.userOf[s] == u then Without(Kept(h.byUser[u], full), s)
              else Kept(h.byUser[u], full)
      ensures s in h.userOf && h.userOf[s] == u ==> s in Kept(h.byUser[u], full)
    {
      ListedMeansBound(h, u, s);
      DropFromList(h, full, s, u);
    }
    if s in h.userOf {
      ListedMeansBound(h, h.userOf[s], s);
    }
  }

  lemma {:induction false} KeptSame(list: seq<SocketId>, gone: set<SocketId>, s: SocketId)
    requires s !in list
    ensures Kept(list, gone + {s}) == Kept(list, gone)
  {
    if list != [] {
      KeptSame(list[1..], gone, s);
    }
  }

  function SetOf<T>(list: seq<T>): set<T> {
    set x | x in list
  }

  lemma SplitLast<T>(list: seq<T>)
    requires list != []
    ensures SetOf(list) == SetOf(list[..|list| - 1]) + {list[|list| - 1]}
    ensures NoDuplicates(list) ==> NoDuplicates(list[..|list| - 1]) && list[|list| - 1] !in list[..|list| - 1]
    ensures forall x :: x in list[..|list| - 1] ==> x in list
  {
    assert list == list[..|list| - 1] + [list[|list| - 1]];
  }

  lemma {:induction false} PushMore(h: Registry, to: set<SocketId>, list: seq<SocketId>, m: Message)
    requires Indexed(h) && NoDuplicates(list) && forall s | s in list :: s in h.sockets && s !in to
    ensures PushAll(Delivered(h, to, m), list, m) == Delivered(h, to + SetOf(list), m)
  {
    if list == [] {
      assert to + SetOf(list) == to;
    } else {
      SplitLast(list);
      var init, last := list[..|list| - 1], list[|list| - 1];
      assert last in list && last !in SetOf(init);
      assert to + SetOf(list) == to + SetOf(init) + {last};
      hide NoDuplicates, Delivered, Push, HasRoom, SetOf, Indexed;
      PushMore(h, to, init, m);
      if HasRoom(h, last) {
        LandOneMore(h, to + SetOf(init), last, m);
      } else {
        DropOneMore(h, to + SetOf(init), last, m);
      }
    }
  }

  /**
    One frame to a list of sockets: those with room get it last, those without are gone from both
    indexes, and nothing else changes; with room for all, no socket is lost.
   */
  lemma PushAllDelivers(h: Registry, list: seq<SocketId>, m: Message)
    requires Indexed(h) && NoDuplicates(list) && forall s | s in list :: s in h.sockets
    ensures PushAll(h, list, m) == Delivered(h, SetOf(list), m)
    ensures (forall s | s in list :: HasRoom(h, s)) ==>
              PushAll(h, list, m) ==
              h.(outbox := map s | s in h.outbox :: if s in list then h.outbox[s] + [m] else h.outbox[s])
  {
    DeliveredToNobody(h, m);
    assert {} + SetOf(list) == SetOf(list);
    PushMore(h, {}, list, m);
    if forall s | s in list :: HasRoom(h, s) {
      AllLand(h, list, m);
    }
    hide Delivered, PushAll, Indexed, HasRoom;
  }

  /** An open socket with fewer than 64 frames waiting gets one more as the last; a 65th disconnects it. */
  lemma PushExactly(h: Registry, s: SocketId, m: Message)
    requires Indexed(h) && s in h.sockets
    ensures s in Push(h, s, m).sockets <==> |h.outbox[s]| <= 63
    ensures |h.outbox[s]| <= 63 ==> Push(h, s, m).outbox[s] == h.outbox[s] + [m]
  {
  }

  lemma AllLand(h: Registry, list: seq<SocketId>, m: Message)
    requires Indexed(h) && forall s | s in list :: HasRoom(h, s)
    ensures Delivered(h, SetOf(list), m) ==
            h.(outbox := map s | s in h.outbox :: if s in list then h.outbox[s] + [m] else h.outbox[s])
  {
    var h' := Delivered(h, SetOf(list), m);
    assert Full(h, SetOf(list)) == {};
    assert h'.byUser == h.byUser;
    assert h'.outbox == map s | s in h.outbox :: if s in list then h.outbox[s] + [m] else h.outbox[s];
  }
}
