/**
  Friend presence (rust/src/presence.rs, rust/src/ws/route.rs:95-147, src/store/socialStore.ts:60-77,
  src/App.tsx:182-184): the hub tells each authenticated socket which accepted friends are online,
  and each tab keeps the answer in its social store.

  Friendships do not change during a run. Announcing is not atomic with registering, and
  announcing that a user left is not atomic with the check before it: other steps may come between.
 */
module Presence {
  import opened Wrappers
  import opened Hubs
  import Friends

  // ---------------------------------------------------------------------------
  // The announcements
  // ---------------------------------------------------------------------------

  /** The users of a list who are online, in its order. */
  function OnlineAmong(h: Registry, users: seq<UserId>): (r: seq<UserId>)
    ensures forall v :: v in r <==> v in users && Online(h, v)
  {
    if users == [] then []
    else
      var init, last := users[..|users| - 1], users[|users| - 1];
      assert forall v :: v in users <==> v in init || v == last;
      if Online(h, last) then OnlineAmong(h, init) + [last] else OnlineAmong(h, init)
  }

  function SendToUsers(h: Registry, users: seq<UserId>, m: Message): Registry {
    if users == [] then h
    else SendToUser(SendToUsers(h, users[..|users| - 1], m), users[|users| - 1], m)
  }

  function AnnounceOnline(h: Registry, friends: seq<UserId>, user: UserId, socket: SocketId): Registry {
    if friends == [] then h
    else SendToUsers(Push(h, socket, PresenceList(OnlineAmong(h, friends))), friends, PresenceOnline(user))
  }

  method AnnounceUserOnline(hub: Hub, db: Friends.FriendStore, user: UserId, socket: SocketId)
    modifies hub
    ensures hub.View() == AnnounceOnline(old(hub.View()), Friends.FriendsOf(db.View(), user), user, socket)
  {
    var friends := db.AcceptedFriendIds(user);
    if friends == [] {
      return;
    }
    var online: seq<UserId> := [];
    var i := 0;
    while i < |friends|
      invariant 0 <= i <= |friends|
      invariant online == OnlineAmong(hub.View(), friends[..i])
      invariant hub.View() == old(hub.View())
    {
      assert friends[..i + 1][..i] == friends[..i];
      if Online(hub.View(), friends[i]) {
        online := online + [friends[i]];
      }
      i := i + 1;
    }
    assert friends[..i] == friends;
    hub.PushFrame(socket, PresenceList(online));
    SendEach(hub, friends, PresenceOnline(user));
  }

  method SendEach(hub: Hub, users: seq<UserId>, m: Message)
    modifies hub
    ensures hub.View() == SendToUsers(old(hub.View()), users, m)
  {
    var i := 0;
    while i < |users|
      invariant 0 <= i <= |users|
      invariant hub.View() == SendToUsers(old(hub.View()), users[..i], m)
    {
      assert users[..i + 1][..i] == users[..i];
      hub.SendUser(users[i], m);
      i := i + 1;
    }
    assert users[..i] == users;
  }

  /** The check and the sending in one go. */
  method AnnounceUserOffline(hub: Hub, db: Friends.FriendStore, user: UserId)
    modifies hub
    ensures var h := old(hub.View());
            hub.View() == if Online(h, user) then h
                          else SendToUsers(h, Friends.FriendsOf(db.View(), user), PresenceOffline(user))
  {
    if Online(hub.View(), user) {
      return;
    }
    var friends := db.AcceptedFriendIds(user);
    SendEach(hub, friends, PresenceOffline(user));
  }

  // ---------------------------------------------------------------------------
  // The view a tab keeps
  // ---------------------------------------------------------------------------

  function Effect(view: set<UserId>, m: Message): set<UserId> {
    match m
    case PresenceList(users) => set v | v in users
    case PresenceOnline(user) => view + {user}
    case PresenceOffline(user) => view - {user}
    case OtherMessage => view
  }

  class SocialStore {
    var onlineFriends: set<UserId>
    var version: nat

    constructor ()
      ensures onlineFriends == {} && version == 0
    {
      onlineFriends, version := {}, 0;
    }

    method SetOnlineFriends(ids: seq<UserId>)
      modifies this
      ensures onlineFriends == Effect(old(onlineFriends), PresenceList(ids)) && version == old(version) + 1
    {
      onlineFriends := set v | v in ids;
      version := version + 1;
    }

    method AddOnlineFriend(id: UserId)
      modifies this
      ensures onlineFriends == Effect(old(onlineFriends), PresenceOnline(id)) && version == old(version) + 1
    {
      onlineFriends := onlineFriends + {id};
      version := version + 1;
    }

    method RemoveOnlineFriend(id: UserId)
      modifies this
      ensures onlineFriends == Effect(old(onlineFriends), PresenceOffline(id)) && version == old(version) + 1
    {
      onlineFriends := onlineFriends - {id};
      version := version + 1;
    }
  }

  /** The view once every queued frame has been applied. */
  function Applied(view: set<UserId>, queue: seq<Message>): set<UserId> {
    if queue == [] then view else Effect(Applied(view, queue[..|queue| - 1]), queue[|queue| - 1])
  }

  lemma {:induction false} AppliedFirst(view: set<UserId>, queue: seq<Message>)
    requires queue != []
    ensures Applied(view, queue) == Applied(Effect(view, queue[0]), queue[1..])
  {
    if |queue| > 1 {
      var init := queue[..|queue| - 1];
      AppliedFirst(view, init);
      assert init[1..] == queue[1..][..|queue| - 2];
    }
  }

  lemma AppliedLast(view: set<UserId>, queue: seq<Message>, m: Message)
    ensures Applied(view, queue + [m]) == Effect(Applied(view, queue), m)
  {
    assert (queue + [m])[..|queue|] == queue;
  }

  // ---------------------------------------------------------------------------
  // Runs
  // ---------------------------------------------------------------------------

  /** Work a server task has still to do. */
  datatype Task =
    | Announce(socket: SocketId, user: UserId)
    | CheckOffline(socket: SocketId, user: UserId)
    | TellOffline(socket: SocketId, user: UserId)

  /** `views` holds what each tab shows, `brought` what it showed when its socket opened. */
  datatype World = World(
    hub: Registry,
    tasks: set<Task>,
    views: map<SocketId, set<UserId>>,
    brought: map<SocketId, set<UserId>>)

  datatype Step =
    | Open(view: set<UserId>)
    | Authenticate(socket: SocketId, user: UserId)
    | Proceed(task: Task)
    | Close(socket: SocketId)
    | OtherFrame(socket: SocketId)
    | Receive(socket: SocketId)

  predicate Announcing(w: World, s: SocketId) {
    exists t :: t in w.tasks && t.Announce? && t.socket == s
  }

  function DoTask(w: World, t: Friends.Table, task: Task): World {
    var done := w.(tasks := w.tasks - {task});
    match task
    case Announce(s, u) => done.(hub := AnnounceOnline(w.hub, Friends.FriendsOf(t, u), u, s))
    case CheckOffline(s, u) =>
      if Online(w.hub, u) then done else done.(tasks := done.tasks + {TellOffline(s, u)})
    case TellOffline(s, u) => done.(hub := SendToUsers(w.hub, Friends.FriendsOf(t, u), PresenceOffline(u)))
  }

  /** A step that cannot be taken changes nothing. A socket's own task handles one frame at a time. */
  function Do(w: World, t: Friends.Table, step: Step): World {
    match step
    case Open(view) =>
      var s := w.hub.nextId;
      w.(hub := Connect(w.hub), views := w.views[s := view], brought := w.brought[s := view])
    case Authenticate(s, u) =>
      if s !in w.hub.sockets || Announcing(w, s) then w
      else w.(hub := Register(w.hub, s, u), tasks := w.tasks + {Announce(s, u)})
    case Proceed(task) => if task in w.tasks then DoTask(w, t, task) else w
    case Close(s) =>
      if s !in w.hub.sockets || Announcing(w, s) then w
      else w.(hub := Disconnect(w.hub, s),
              tasks := if s in w.hub.userOf then w.tasks + {CheckOffline(s, w.hub.userOf[s])} else w.tasks)
    case OtherFrame(s) => w.(hub := Push(w.hub, s, OtherMessage))
    case Receive(s) =>
      if s in w.views && Queue(w.hub, s) != [] then
        w.(hub := w.hub.(outbox := w.hub.outbox[s := w.hub.outbox[s][1..]]),
           views := w.views[s := Effect(w.views[s], w.hub.outbox[s][0])])
      else w
  }

  const START := World(Registry({}, map[], map[], 1, map[]), {}, map[], map[])

  function Run(t: Friends.Table, steps: seq<Step>): World {
    if steps == [] then START else Do(Run(t, steps[..|steps| - 1]), t, steps[|steps| - 1])
  }

  predicate RoomFor(h: Registry, users: seq<UserId>) {
    forall s :: s in h.userOf && h.userOf[s] in users ==> HasRoom(h, s)
  }

  predicate Arriving(tasks: set<Task>, v: UserId) {
    exists t :: t in tasks && t.Announce? && t.user == v
  }

  predicate Leaving(tasks: set<Task>, v: UserId) {
    exists t :: t in tasks && !t.Announce? && t.user == v
  }

  /** The view a tab will have once its queued frames have arrived. */
  function Shown(w: World, s: SocketId): set<UserId> {
    Applied(if s in w.views then w.views[s] else {}, Queue(w.hub, s))
  }

  function Bound(h: Registry, users: seq<UserId>): set<SocketId> {
    set s | s in h.userOf && h.userOf[s] in users
  }

  /** The socket has been told its list, and `v` is a friend of its user. */
  predicate Watches(w: World, t: Friends.Table, s: SocketId, v: UserId) {
    && s in w.hub.userOf && Announce(s, w.hub.userOf[s]) !in w.tasks
    && v in Friends.FriendsOf(t, w.hub.userOf[s])
  }

  /** Some socket that is not among those about to go watches the user. */
  ghost predicate Watched(w: World, t: Friends.Table, gone: set<SocketId>, v: UserId) {
    exists s :: s !in gone && Watches(w, t, s, v)
  }

  /** Some such socket also shows the user. */
  ghost predicate ShownTo(w: World, t: Friends.Table, gone: set<SocketId>, v: UserId) {
    exists s :: s !in gone && Watches(w, t, s, v) && v in Shown(w, s)
  }

  ghost predicate StaysOnline(h: Registry, gone: set<SocketId>, v: UserId) {
    exists s :: s in h.userOf && s !in gone && h.userOf[s] == v
  }

  /** Dropping sockets does no harm: the user has another one, is on the way out, or is shown to nobody who stays. */
  ghost predicate LossHarmless(w: World, t: Friends.Table, gone: set<SocketId>, v: UserId) {
    StaysOnline(w.hub, gone, v) || Leaving(w.tasks, v) || !ShownTo(w, t, gone, v)
  }

  /**
    The news of leaving does no harm: the user is offline, or about to be announced, or nobody who
    stays watches; and none of the friends it drops for a full outbox would have to be told of.
   */
  ghost predicate TellHarmless(w: World, t: Friends.Table, u: UserId) {
    var friends := Friends.FriendsOf(t, u);
    var gone := Full(w.hub, Bound(w.hub, friends));
    && (!Online(w.hub, u) || Arriving(w.tasks, u) || !Watched(w, t, gone, u))
    && (forall v | v in friends :: LossHarmless(w, t, gone, v))
  }

  /**
    An announcement does no harm: its user is still online after it, or on the way out, or nobody
    who stays watches; and the same goes for every friend it drops, whom its own list may show too.
   */
  ghost predicate AnnounceHarmless(w: World, t: Friends.Table, s: SocketId, u: UserId) {
    var friends := Friends.FriendsOf(t, u);
    var gone := Full(w.hub, {s} + Bound(w.hub, friends));
    friends != [] ==>
      && (StaysOnline(w.hub, gone, u) || Leaving(w.tasks, u) || !Watched(w, t, gone, u))
      && (forall v | v in friends :: LossHarmless(w, t, gone, v))
      && (s in w.hub.userOf && s !in gone ==>
            forall v | v in friends && Online(w.hub, v) :: StaysOnline(w.hub, gone, v) || Leaving(w.tasks, v))
  }

  /** A login message binds a socket that belongs to another user. */
  predicate Rebinds(w: World, step: Step) {
    && step.Authenticate? && step.socket in w.hub.userOf && w.hub.userOf[step.socket] != step.user
    && !Announcing(w, step.socket)
  }

  /** The steps that do no harm; whether a step does can be told before it is taken. */
  ghost predicate Safe(w: World, t: Friends.Table, step: Step) {
    match step
    case Authenticate(_, _) => !Rebinds(w, step)
    case Proceed(Announce(s, u)) => step.task in w.tasks ==> AnnounceHarmless(w, t, s, u)
    case Proceed(TellOffline(s, u)) => step.task in w.tasks ==> TellHarmless(w, t, u)
    case OtherFrame(s) =>
      s in w.hub.userOf && !HasRoom(w.hub, s) ==> LossHarmless(w, t, {s}, w.hub.userOf[s])
    case _ => true
  }

  ghost predicate SafeRun(t: Friends.Table, steps: seq<Step>) {
    steps == [] ||
    (SafeRun(t, steps[..|steps| - 1]) && Safe(Run(t, steps[..|steps| - 1]), t, steps[|steps| - 1]))
  }

  // ---------------------------------------------------------------------------
  // What every run keeps
  // ---------------------------------------------------------------------------

  /** The friend is shown if online, and not if offline, unless the news is still to be sent. */
  predicate Right(h: Registry, tasks: set<Task>, shown: set<UserId>, v: UserId) {
    && (Online(h, v) && !Arriving(tasks, v) ==> v in shown)
    && (v in shown && !Online(h, v) ==> Leaving(tasks, v))
  }

  ghost predicate Knows(w: World, t: Friends.Table, s: SocketId) {
    s in w.hub.userOf ==>
      var friends := Friends.FriendsOf(t, w.hub.userOf[s]);
      if friends == [] then s in w.brought && Shown(w, s) == w.brought[s]
      else Announce(s, w.hub.userOf[s]) !in w.tasks ==>
        && (forall v | v in Shown(w, s) :: v in friends)
        && (forall v | v in friends :: Right(w.hub, w.tasks, Shown(w, s), v))
  }

  ghost predicate Framed(w: World) {
    && Indexed(w.hub)
    && w.hub.outbox.Keys == w.views.Keys == w.brought.Keys
    && (forall s, u | Announce(s, u) in w.tasks ::
          s in w.views && (s in w.hub.sockets ==> s in w.hub.userOf && w.hub.userOf[s] == u))
    && (forall s | s in w.hub.sockets && s !in w.hub.userOf :: Shown(w, s) == w.brought[s])
  }

  ghost predicate Good(w: World, t: Friends.Table) {
    Framed(w) && forall s :: Knows(w, t, s)
  }

  // ---------------------------------------------------------------------------
  // Frames to many users
  // ---------------------------------------------------------------------------

  lemma SendToUserDelivers(h: Registry, to: set<SocketId>, u: UserId, m: Message)
    requires Indexed(h) && to !! Bound(h, [u])
    ensures SendToUser(Delivered(h, to, m), u, m) == Delivered(h, to + Bound(h, [u]), m)
  {
    var list := SocketsOf(h, u);
    ListOf(h, u);
    assert Full(h, to) <= to;
    assert SocketsOf(Delivered(h, to, m), u) == list by {
      if u in h.byUser {
        assert Kept(h.byUser[u], Full(h, to)) == list;
      }
    }
    hide Delivered, Bound, Indexed, Full, SocketsOf;
    PushMore(h, to, list, m);
  }

  /** The list of a user's sockets, as a set. */
  lemma ListOf(h: Registry, u: UserId)
    requires Indexed(h)
    ensures var list := SocketsOf(h, u);
            && SetOf(list) == Bound(h, [u]) && NoDuplicates(list)
            && (forall s | s in list :: s in h.sockets && s in Bound(h, [u]))
            && (u in h.byUser ==> list != [])
  {
    forall s ensures s in SocketsOf(h, u) <==> s in h.userOf && h.userOf[s] == u {
      ListedMeansBound(h, u, s);
    }
  }

  lemma BoundSplit(h: Registry, users: seq<UserId>)
    requires users != []
    ensures var init, last := users[..|users| - 1], users[|users| - 1];
            && Bound(h, users) == Bound(h, init) + Bound(h, [last])
            && (NoDuplicates(users) ==> Bound(h, init) !! Bound(h, [last]) && NoDuplicates(init))
  {
    assert users == users[..|users| - 1] + [users[|users| - 1]];
  }

  lemma {:induction false} SendToUsersDelivers(h: Registry, users: seq<UserId>, m: Message)
    requires Indexed(h) && NoDuplicates(users)
    ensures SendToUsers(h, users, m) == Delivered(h, Bound(h, users), m)
  {
    if users == [] {
      DeliveredToNobody(h, m);
      assert Bound(h, users) == {};
    } else {
      var init, last := users[..|users| - 1], users[|users| - 1];
      BoundSplit(h, users);
      hide Delivered, Bound, NoDuplicates, Indexed, SendToUser;
      SendToUsersDelivers(h, init, m);
      SendToUserDelivers(h, Bound(h, init), last, m);
    }
  }

  lemma DeliveredShown(w: World, w': World, to: set<SocketId>, m: Message, s: SocketId)
    requires w'.hub == Delivered(w.hub, to, m) && w'.views == w.views && to <= w.hub.outbox.Keys
    ensures Shown(w', s) == if s in to && HasRoom(w.hub, s) then Effect(Shown(w, s), m) else Shown(w, s)
  {
    if s in to {
      AppliedLast(if s in w.views then w.views[s] else {}, Queue(w.hub, s), m);
    }
  }

  lemma OtherTask(tasks: set<Task>, task: Task, v: UserId)
    requires v != task.user
    ensures Arriving(tasks - {task}, v) == Arriving(tasks, v) == Arriving(tasks + {task}, v)
    ensures Leaving(tasks - {task}, v) == Leaving(tasks, v) == Leaving(tasks + {task}, v)
  {
    forall k | k in tasks && k.user == v ensures k in tasks - {task} && k in tasks + {task} {
    }
  }

  // ---------------------------------------------------------------------------
  // Each step
  // ---------------------------------------------------------------------------

  lemma OpenKnows(w: World, t: Friends.Table, view: set<UserId>, s: SocketId)
    requires Framed(w) && Knows(w, t, s)
    ensures Knows(Do(w, t, Open(view)), t, s)
  {
    var w' := Do(w, t, Open(view));
    if s in w.hub.userOf {
      assert s != w.hub.nextId;
      assert Shown(w', s) == Shown(w, s) && w'.brought[s] == w.brought[s];
      assert forall v :: Online(w'.hub, v) == Online(w.hub, v);
    }
  }

  lemma OpenKeeps(w: World, t: Friends.Table, view: set<UserId>)
    requires Good(w, t)
    ensures Good(Do(w, t, Open(view)), t)
  {
    var w' := Do(w, t, Open(view));
    assert Framed(w') by {
      forall s | s in w'.hub.sockets && s !in w'.hub.userOf ensures Shown(w', s) == w'.brought[s] {
        assert s != w.hub.nextId ==> Shown(w', s) == Shown(w, s);
      }
    }
    forall s ensures Knows(w', t, s) {
      assert Knows(w, t, s);
      OpenKnows(w, t, view, s);
    }
  }

  lemma AuthenticateKnows(w: World, t: Friends.Table, s0: SocketId, u0: UserId, s: SocketId)
    requires Framed(w) && Knows(w, t, s) && !Rebinds(w, Authenticate(s0, u0))
    ensures Knows(Do(w, t, Authenticate(s0, u0)), t, s)
  {
    var w' := Do(w, t, Authenticate(s0, u0));
    if w' != w {
      assert Shown(w', s) == Shown(w, s);
      if s in w.hub.userOf && s != s0 {
        var friends := Friends.FriendsOf(t, w.hub.userOf[s]);
        forall v | v in friends && Right(w.hub, w.tasks, Shown(w, s), v)
          ensures Right(w'.hub, w'.tasks, Shown(w', s), v)
        {
          RegisteredRight(w, s0, u0, Shown(w, s), v);
        }
      }
    }
  }

  lemma AuthenticateFrames(w: World, t: Friends.Table, s0: SocketId, u0: UserId)
    requires Framed(w)
    ensures Framed(Do(w, t, Authenticate(s0, u0))) <==> !Rebinds(w, Authenticate(s0, u0))
  {
    var w' := Do(w, t, Authenticate(s0, u0));
    assert (s0 in w.hub.userOf ==> s0 in w.hub.sockets) && (s0 in w.hub.sockets ==> s0 in w.views);
    if w' != w {
      hide Shown, Indexed;
      RegisterIndexed(w.hub, s0, u0);
      assert w'.hub.outbox == w.hub.outbox && w'.hub.sockets == w.hub.sockets && w'.views == w.views;
      forall s ensures Shown(w', s) == Shown(w, s) {
        SameShown(w, w', s);
      }
    }
    hide Shown, Indexed;
  }

  lemma SameShown(w: World, w': World, s: SocketId)
    requires w'.hub.outbox == w.hub.outbox && w'.views == w.views
    ensures Shown(w', s) == Shown(w, s)
  {
  }

  lemma AuthenticateExactly(w: World, t: Friends.Table, s0: SocketId, u0: UserId)
    requires Good(w, t)
    ensures Good(Do(w, t, Authenticate(s0, u0)), t) <==> !Rebinds(w, Authenticate(s0, u0))
  {
    AuthenticateFrames(w, t, s0, u0);
    if !Rebinds(w, Authenticate(s0, u0)) {
      forall s ensures Knows(Do(w, t, Authenticate(s0, u0)), t, s) {
        assert Knows(w, t, s);
        AuthenticateKnows(w, t, s0, u0, s);
      }
    }
    hide Do, Framed, Knows;
  }

  lemma RegisteredRight(w: World, s0: SocketId, u0: UserId, shown: set<UserId>, v: UserId)
    requires Right(w.hub, w.tasks, shown, v) && Indexed(w.hub)
    ensures Right(Register(w.hub, s0, u0), w.tasks + {Announce(s0, u0)}, shown, v)
  {
    if v == u0 {
      assert Announce(s0, u0) in w.tasks + {Announce(s0, u0)};
    } else {
      OtherTask(w.tasks, Announce(s0, u0), v);
    }
  }

  lemma CloseKeeps(w: World, t: Friends.Table, s0: SocketId)
    requires Good(w, t)
    ensures Good(Do(w, t, Close(s0)), t)
  {
    var w' := Do(w, t, Close(s0));
    if w' != w {
      DisconnectIndexed(w.hub, s0);
      assert Framed(w') by {
        forall s, u | Announce(s, u) in w'.tasks
          ensures s in w'.views && (s in w'.hub.sockets ==> s in w'.hub.userOf && w'.hub.userOf[s] == u)
        {
          assert Announce(s, u) in w.tasks;
        }
      }
      forall s ensures Knows(w', t, s) {
        assert Knows(w, t, s) && Shown(w', s) == Shown(w, s);
        if s in w'.hub.userOf {
          var friends := Friends.FriendsOf(t, w.hub.userOf[s]);
          forall v | v in friends && Right(w.hub, w.tasks, Shown(w, s), v)
            ensures Right(w'.hub, w'.tasks, Shown(w', s), v)
          {
            ClosedRight(w, t, s0, Shown(w, s), v);
          }
        }
      }
    }
  }

  lemma ClosedRight(w: World, t: Friends.Table, s0: SocketId, shown: set<UserId>, v: UserId)
    requires Right(w.hub, w.tasks, shown, v) && Indexed(w.hub) && s0 in w.hub.sockets && !Announcing(w, s0)
    ensures Right(Do(w, t, Close(s0)).hub, Do(w, t, Close(s0)).tasks, shown, v)
  {
    var w' := Do(w, t, Close(s0));
    if s0 in w.hub.userOf {
      var u0 := w.hub.userOf[s0];
      assert u0 in w.hub.byUser;
      if v == u0 {
        assert CheckOffline(s0, u0) in w'.tasks;
        forall k | k in w.tasks ensures k in w'.tasks {
        }
      } else {
        OtherTask(w.tasks, CheckOffline(s0, u0), v);
      }
    }
  }

  lemma CheckKeeps(w: World, t: Friends.Table, s0: SocketId, u0: UserId)
    requires Good(w, t) && CheckOffline(s0, u0) in w.tasks
    ensures Good(DoTask(w, t, CheckOffline(s0, u0)), t)
  {
    var w' := DoTask(w, t, CheckOffline(s0, u0));
    assert forall s, u :: Announce(s, u) in w'.tasks <==> Announce(s, u) in w.tasks;
    assert Framed(w') by {
      assert forall s :: Shown(w', s) == Shown(w, s);
    }
    forall s ensures Knows(w', t, s) {
      assert Knows(w, t, s) && Shown(w', s) == Shown(w, s);
      if s in w.hub.userOf {
        var friends := Friends.FriendsOf(t, w.hub.userOf[s]);
        forall v | v in friends && Right(w.hub, w.tasks, Shown(w, s), v)
          ensures Right(w'.hub, w'.tasks, Shown(w', s), v)
        {
          CheckedRight(w, t, s0, u0, Shown(w, s), v);
        }
      }
    }
  }

  lemma CheckedRight(w: World, t: Friends.Table, s0: SocketId, u0: UserId, shown: set<UserId>, v: UserId)
    requires Right(w.hub, w.tasks, shown, v)
    ensures Right(w.hub, DoTask(w, t, CheckOffline(s0, u0)).tasks, shown, v)
  {
    var check, tell := CheckOffline(s0, u0), TellOffline(s0, u0);
    if v != u0 {
      OtherTask(w.tasks, check, v);
      OtherTask(w.tasks - {check}, tell, v);
    } else if Online(w.hub, v) {
      if Arriving(w.tasks, v) {
        var k :| k in w.tasks && k.Announce? && k.user == v;
        assert k in w.tasks - {check};
      }
    } else {
      assert tell in (w.tasks - {check}) + {tell};
    }
  }

  /** The friends of a user, and nobody else, get the news of the user. */
  lemma NewsReaches(w: World, t: Friends.Table, s: SocketId, u0: UserId)
    requires Friends.OneRowPerPair(t) && s in w.hub.userOf
    ensures s in Bound(w.hub, Friends.FriendsOf(t, u0)) <==> u0 in Friends.FriendsOf(t, w.hub.userOf[s])
    ensures w.hub.userOf[s] == u0 ==> s !in Bound(w.hub, Friends.FriendsOf(t, u0))
  {
    Friends.Friendship(t, u0, w.hub.userOf[s]);
  }

  // ---------------------------------------------------------------------------
  // Dropped sockets
  // ---------------------------------------------------------------------------

  lemma OnlineAfter(h: Registry, h': Registry, gone: set<SocketId>, v: UserId)
    requires Indexed(h) && Indexed(h') && h'.userOf == h.userOf - gone
    ensures Online(h', v) <==> StaysOnline(h, gone, v)
    ensures StaysOnline(h, gone, v) ==> Online(h, v)
  {
    OnlineMeansBound(h', v);
    OnlineMeansBound(h, v);
    hide Indexed, Online;
    if s :| s in h.userOf && s !in gone && h.userOf[s] == v {
      assert s in h'.userOf && h'.userOf[s] == v;
    }
    if s :| s in h'.userOf && h'.userOf[s] == v {
      assert s in h.userOf && s !in gone && h.userOf[s] == v;
    }
  }

  /** Users who lose no socket stay online. */
  lemma OthersStay(h: Registry, gone: set<SocketId>, users: seq<UserId>, v: UserId)
    requires Indexed(h) && v !in users
    requires forall s | s in gone && s in h.userOf :: h.userOf[s] in users
    ensures StaysOnline(h, gone, v) <==> Online(h, v)
  {
    OnlineMeansBound(h, v);
    hide Indexed, Online;
  }

  /** What is shown of a user stays right exactly if the user, when shown, keeps a socket or is on the way out. */
  lemma LostRight(w: World, w': World, gone: set<SocketId>, shown: set<UserId>, v: UserId)
    requires Indexed(w.hub) && Indexed(w'.hub) && w'.hub.userOf == w.hub.userOf - gone
    requires Arriving(w'.tasks, v) == Arriving(w.tasks, v) && Leaving(w'.tasks, v) == Leaving(w.tasks, v)
    requires Right(w.hub, w.tasks, shown, v)
    ensures Right(w'.hub, w'.tasks, shown, v) <==>
              (v in shown ==> StaysOnline(w.hub, gone, v) || Leaving(w.tasks, v))
  {
    OnlineAfter(w.hub, w'.hub, gone, v);
    hide Indexed, Online, StaysOnline, Arriving, Leaving;
  }

  /** A socket that stays knows what it should exactly if everything shown of its friends is right. */
  lemma KnowsMeansRight(w: World, w': World, t: Friends.Table, s: SocketId)
    requires Knows(w, t, s) && s in w.hub.userOf && s in w'.hub.userOf && w'.hub.userOf[s] == w.hub.userOf[s]
    requires w'.brought == w.brought
    requires Announce(s, w.hub.userOf[s]) in w'.tasks <==> Announce(s, w.hub.userOf[s]) in w.tasks
    requires forall v | v in Shown(w', s) && v !in Shown(w, s) :: v in Friends.FriendsOf(t, w.hub.userOf[s])
    requires Friends.FriendsOf(t, w.hub.userOf[s]) == [] ==> Shown(w', s) == Shown(w, s)
    ensures Knows(w', t, s) <==> forall v | Watches(w, t, s, v) :: Right(w'.hub, w'.tasks, Shown(w', s), v)
  {
    hide Right, Shown;
  }

  // ---------------------------------------------------------------------------
  // The news of leaving
  // ---------------------------------------------------------------------------

  lemma TellShown(w: World, t: Friends.Table, s0: SocketId, u0: UserId)
    requires Framed(w) && Friends.OneRowPerPair(t)
    ensures var w' := DoTask(w, t, TellOffline(s0, u0));
            var to := Bound(w.hub, Friends.FriendsOf(t, u0));
            var gone := Full(w.hub, to);
            && Indexed(w'.hub) && w'.hub.userOf == w.hub.userOf - gone && w'.hub.sockets == w.hub.sockets - gone
            && w'.hub.outbox.Keys == w.hub.outbox.Keys && w'.views == w.views && w'.brought == w.brought
            && (forall s :: Shown(w', s) == if s in to && s !in gone then Shown(w, s) - {u0} else Shown(w, s))
  {
    var friends := Friends.FriendsOf(t, u0);
    var to := Bound(w.hub, friends);
    Friends.Friendship(t, u0, u0);
    SendToUsersDelivers(w.hub, friends, PresenceOffline(u0));
    DeliveredIndexed(w.hub, to, PresenceOffline(u0));
    var w' := DoTask(w, t, TellOffline(s0, u0));
    assert to <= w.hub.outbox.Keys && w'.hub == Delivered(w.hub, to, PresenceOffline(u0));
    hide Shown, HasRoom, Indexed, Bound, DoTask, Friends.OneRowPerPair;
    forall s ensures Shown(w', s) == if s in to && HasRoom(w.hub, s) then Shown(w, s) - {u0} else Shown(w, s) {
      DeliveredShown(w, w', to, PresenceOffline(u0), s);
    }
  }

  lemma TellFrames(w: World, t: Friends.Table, s0: SocketId, u0: UserId)
    requires Framed(w) && Friends.OneRowPerPair(t)
    ensures Framed(DoTask(w, t, TellOffline(s0, u0)))
  {
    var w' := DoTask(w, t, TellOffline(s0, u0));
    TellShown(w, t, s0, u0);
    assert w'.tasks == w.tasks - {TellOffline(s0, u0)};
    hide DoTask, Shown, Indexed, HasRoom;
  }

  /** The news leaves right what a socket that stays shows of one friend of its user. */
  ghost predicate TellFine(w: World, t: Friends.Table, gone: set<SocketId>, u0: UserId, s: SocketId, v: UserId) {
    if v == u0 then !Online(w.hub, u0) || Arriving(w.tasks, u0)
    else v in Friends.FriendsOf(t, u0) && v in Shown(w, s) ==> StaysOnline(w.hub, gone, v) || Leaving(w.tasks, v)
  }

  lemma ToldRight(w: World, t: Friends.Table, s0: SocketId, u0: UserId, s: SocketId, v: UserId)
    requires Framed(w) && Friends.OneRowPerPair(t) && Watches(w, t, s, v)
    requires TellOffline(s0, u0) in w.tasks && Right(w.hub, w.tasks, Shown(w, s), v)
    requires s !in Full(w.hub, Bound(w.hub, Friends.FriendsOf(t, u0)))
    ensures var w' := DoTask(w, t, TellOffline(s0, u0));
            var gone := Full(w.hub, Bound(w.hub, Friends.FriendsOf(t, u0)));
            Right(w'.hub, w'.tasks, Shown(w', s), v) <==> TellFine(w, t, gone, u0, s, v)
  {
    var w' := DoTask(w, t, TellOffline(s0, u0));
    var friends := Friends.FriendsOf(t, u0);
    var gone := Full(w.hub, Bound(w.hub, friends));
    TellShown(w, t, s0, u0);
    NewsReaches(w, t, s, u0);
    Friends.Friendship(t, u0, u0);
    assert Indexed(w.hub) && w'.tasks == w.tasks - {TellOffline(s0, u0)};
    assert forall k | k in gone && k in w.hub.userOf :: w.hub.userOf[k] in friends;
    hide DoTask, Shown, Indexed, HasRoom, Framed, Full, Bound, Friends.FriendsOf, Friends.OneRowPerPair;
    if v == u0 {
      OthersStay(w.hub, gone, friends, u0);
      OnlineAfter(w.hub, w'.hub, gone, u0);
      StillArriving(w.tasks, s0, u0);
    } else {
      OtherTask(w.tasks, TellOffline(s0, u0), v);
      LostRight(w, w', gone, Shown(w, s), v);
      if v !in friends {
        OthersStay(w.hub, gone, friends, v);
      }
    }
    hide Arriving, Leaving, Online, StaysOnline;
  }

  lemma StillArriving(tasks: set<Task>, s0: SocketId, u0: UserId)
    ensures Arriving(tasks - {TellOffline(s0, u0)}, u0) == Arriving(tasks, u0)
  {
    if k :| k in tasks && k.Announce? && k.user == u0 {
      assert k in tasks - {TellOffline(s0, u0)};
    }
  }

  lemma TellFrame(w: World, t: Friends.Table, s0: SocketId, u0: UserId, s: SocketId)
    requires Framed(w) && Friends.OneRowPerPair(t) && s in w.hub.userOf
    requires s !in Full(w.hub, Bound(w.hub, Friends.FriendsOf(t, u0)))
    ensures var w' := DoTask(w, t, TellOffline(s0, u0));
            && s in w'.hub.userOf && w'.hub.userOf[s] == w.hub.userOf[s] && w'.brought == w.brought
            && w'.tasks == w.tasks - {TellOffline(s0, u0)}
            && (forall v | v in Shown(w', s) :: v in Shown(w, s))
            && (Friends.FriendsOf(t, w.hub.userOf[s]) == [] ==> Shown(w', s) == Shown(w, s))
            && u0 !in Friends.FriendsOf(t, u0)
  {
    TellShown(w, t, s0, u0);
    NewsReaches(w, t, s, u0);
    Friends.Friendship(t, u0, u0);
    hide Shown, Indexed, Full, Bound, Framed, Friends.OneRowPerPair, Friends.FriendsOf;
  }

  lemma TellKnows(w: World, t: Friends.Table, s0: SocketId, u0: UserId, s: SocketId)
    requires Framed(w) && Knows(w, t, s) && Friends.OneRowPerPair(t) && TellOffline(s0, u0) in w.tasks
    requires s in w.hub.userOf && s !in Full(w.hub, Bound(w.hub, Friends.FriendsOf(t, u0)))
    ensures var gone := Full(w.hub, Bound(w.hub, Friends.FriendsOf(t, u0)));
            Knows(DoTask(w, t, TellOffline(s0, u0)), t, s) <==>
              forall v | Watches(w, t, s, v) :: TellFine(w, t, gone, u0, s, v)
  {
    hide *;
    var w' := DoTask(w, t, TellOffline(s0, u0));
    var gone := Full(w.hub, Bound(w.hub, Friends.FriendsOf(t, u0)));
    TellFrame(w, t, s0, u0, s);
    KnowsMeansRight(w, w', t, s);
    forall v | Watches(w, t, s, v)
      ensures Right(w'.hub, w'.tasks, Shown(w', s), v) <==> TellFine(w, t, gone, u0, s, v)
    {
      KnowsRight(w, t, s, v);
      ToldRight(w, t, s0, u0, s, v);
    }
  }

  lemma GoodParts(w: World, t: Friends.Table)
    requires Good(w, t)
    ensures Framed(w) && Indexed(w.hub) && forall s :: Knows(w, t, s)
  {
    hide Indexed, Knows;
  }

  lemma KnowsRight(w: World, t: Friends.Table, s: SocketId, v: UserId)
    requires Knows(w, t, s) && Watches(w, t, s, v)
    ensures Right(w.hub, w.tasks, Shown(w, s), v)
  {
    hide Shown, Right;
  }

  lemma TellHarmlessMeans(w: World, t: Friends.Table, u0: UserId)
    requires u0 !in Friends.FriendsOf(t, u0)
    ensures var gone := Full(w.hub, Bound(w.hub, Friends.FriendsOf(t, u0)));
            TellHarmless(w, t, u0) <==>
              forall s, v | s !in gone && Watches(w, t, s, v) :: TellFine(w, t, gone, u0, s, v)
  {
    hide Full, Bound, Shown, Online, Arriving, Leaving, StaysOnline, Watches, Friends.FriendsOf;
  }

  /** Exactly when the news of leaving keeps every view right. */
  lemma TellExactly(w: World, t: Friends.Table, s0: SocketId, u0: UserId)
    requires Good(w, t) && Friends.OneRowPerPair(t) && TellOffline(s0, u0) in w.tasks
    ensures Framed(DoTask(w, t, TellOffline(s0, u0)))
    ensures (forall s :: Knows(DoTask(w, t, TellOffline(s0, u0)), t, s)) <==> TellHarmless(w, t, u0)
  {
    hide *;
    GoodParts(w, t);
    var w' := DoTask(w, t, TellOffline(s0, u0));
    var gone := Full(w.hub, Bound(w.hub, Friends.FriendsOf(t, u0)));
    Friends.Friendship(t, u0, u0);
    TellFrames(w, t, s0, u0);
    TellShown(w, t, s0, u0);
    forall s
      ensures Knows(w', t, s) <==>
                forall v | s !in gone && Watches(w, t, s, v) :: TellFine(w, t, gone, u0, s, v)
    {
      if s in w.hub.userOf && s !in gone {
        TellKnows(w, t, s0, u0, s);
      } else {
        Unbound(w, w', t, s);
      }
    }
    TellHarmlessMeans(w, t, u0);
  }

  /** Nothing is asked of a socket without a user. */
  lemma Unbound(w: World, w': World, t: Friends.Table, s: SocketId)
    ensures s !in w'.hub.userOf ==> Knows(w', t, s)
    ensures s !in w.hub.userOf ==> forall v :: !Watches(w, t, s, v)
  {
  }

  // ---------------------------------------------------------------------------
  // Announcements
  // ---------------------------------------------------------------------------

  /** The list of online friends goes to the new socket, if it is still open. */
  lemma ListSent(w: World, s0: SocketId, list: Message)
    requires Framed(w)
    ensures var h1 := Push(w.hub, s0, list);
            var gone := Full(w.hub, {s0});
            && Indexed(h1) && h1.userOf == w.hub.userOf - gone && h1.sockets == w.hub.sockets - gone
            && h1.outbox.Keys == w.hub.outbox.Keys
            && (forall s | s != s0 :: Queue(h1, s) == Queue(w.hub, s))
            && (s0 in w.hub.sockets && HasRoom(w.hub, s0) ==> Queue(h1, s0) == Queue(w.hub, s0) + [list])
  {
    if s0 in w.hub.sockets && !HasRoom(w.hub, s0) {
      DisconnectIndexed(w.hub, s0);
    }
  }

  lemma BoundAfterList(w: World, t: Friends.Table, s0: SocketId, u0: UserId, h1: Registry)
    requires Framed(w) && Friends.OneRowPerPair(t) && Announce(s0, u0) in w.tasks
    requires h1.userOf == w.hub.userOf - Full(w.hub, {s0})
    requires forall s | s != s0 :: Queue(h1, s) == Queue(w.hub, s)
    ensures var to := Bound(w.hub, Friends.FriendsOf(t, u0));
            && s0 !in to && Bound(h1, Friends.FriendsOf(t, u0)) == to && Full(h1, to) == Full(w.hub, to)
            && Full(w.hub, {s0} + to) == Full(w.hub, {s0}) + Full(w.hub, to)
  {
    Friends.Friendship(t, u0, u0);
  }

  lemma DeliveredParts(h: Registry, to: set<SocketId>, m: Message)
    ensures var h' := Delivered(h, to, m);
            && h'.userOf == h.userOf - Full(h, to) && h'.sockets == h.sockets - Full(h, to)
            && h'.outbox.Keys == h.outbox.Keys
  {
  }

  /** No task of the server touches what a tab shows. */
  lemma Unviewed(w: World, t: Friends.Table, s0: SocketId, u0: UserId)
    ensures var w' := DoTask(w, t, Announce(s0, u0));
            && w'.views == w.views && w'.brought == w.brought && w'.tasks == w.tasks - {Announce(s0, u0)}
  {
  }

  lemma AnnounceDelivers(w: World, t: Friends.Table, s0: SocketId, u0: UserId)
    requires Framed(w) && Friends.OneRowPerPair(t) && Announce(s0, u0) in w.tasks
    requires Friends.FriendsOf(t, u0) != []
    ensures var w' := DoTask(w, t, Announce(s0, u0));
            var friends := Friends.FriendsOf(t, u0);
            var h1 := Push(w.hub, s0, PresenceList(OnlineAmong(w.hub, friends)));
            w'.hub == Delivered(h1, Bound(w.hub, friends), PresenceOnline(u0)) && Indexed(w'.hub)
  {
    var friends := Friends.FriendsOf(t, u0);
    var list := PresenceList(OnlineAmong(w.hub, friends));
    var h1 := Push(w.hub, s0, list);
    assert DoTask(w, t, Announce(s0, u0)).hub == SendToUsers(h1, friends, PresenceOnline(u0));
    hide *;
    ListSent(w, s0, list);
    BoundAfterList(w, t, s0, u0, h1);
    Friends.Friendship(t, u0, u0);
    SendToUsersDelivers(h1, friends, PresenceOnline(u0));
    DeliveredIndexed(h1, Bound(w.hub, friends), PresenceOnline(u0));
  }

  lemma AnnounceHub(w: World, t: Friends.Table, s0: SocketId, u0: UserId)
    requires Framed(w) && Friends.OneRowPerPair(t) && Announce(s0, u0) in w.tasks
    requires Friends.FriendsOf(t, u0) != []
    ensures var w' := DoTask(w, t, Announce(s0, u0));
            var gone := Full(w.hub, {s0} + Bound(w.hub, Friends.FriendsOf(t, u0)));
            && Indexed(w'.hub) && w'.hub.userOf == w.hub.userOf - gone && w'.hub.sockets == w.hub.sockets - gone
            && w'.hub.outbox.Keys == w.hub.outbox.Keys
            && w'.views == w.views && w'.brought == w.brought && w'.tasks == w.tasks - {Announce(s0, u0)}
  {
    hide *;
    var friends := Friends.FriendsOf(t, u0);
    var list := PresenceList(OnlineAmong(w.hub, friends));
    var h1 := Push(w.hub, s0, list);
    var to := Bound(w.hub, friends);
    AnnounceDelivers(w, t, s0, u0);
    ListSent(w, s0, list);
    BoundAfterList(w, t, s0, u0, h1);
    DeliveredParts(h1, to, PresenceOnline(u0));
    Unviewed(w, t, s0, u0);
    assert w.hub.userOf - Full(w.hub, {s0}) - Full(w.hub, to) == w.hub.userOf - (Full(w.hub, {s0}) + Full(w.hub, to));
  }

  /** What every socket sees of one announcement: its own user's list, or the news. */
  lemma AnnounceShown(w: World, t: Friends.Table, s0: SocketId, u0: UserId, s: SocketId)
    requires Framed(w) && Friends.OneRowPerPair(t) && Announce(s0, u0) in w.tasks
    requires Friends.FriendsOf(t, u0) != []
    ensures var w' := DoTask(w, t, Announce(s0, u0));
            var friends := Friends.FriendsOf(t, u0);
            var to := Bound(w.hub, friends);
            if s == s0 then
              s0 in w.hub.sockets && HasRoom(w.hub, s0) ==> Shown(w', s0) == (set v | v in friends && Online(w.hub, v))
            else Shown(w', s) == if s in to && HasRoom(w.hub, s) then Shown(w, s) + {u0} else Shown(w, s)
  {
    var friends := Friends.FriendsOf(t, u0);
    var list := PresenceList(OnlineAmong(w.hub, friends));
    var h1 := Push(w.hub, s0, list);
    var w1, w' := w.(hub := h1), DoTask(w, t, Announce(s0, u0));
    ListSent(w, s0, list);
    BoundAfterList(w, t, s0, u0, h1);
    AnnounceDelivers(w, t, s0, u0);
    assert HasRoom(h1, s) == HasRoom(w.hub, s) || s == s0;
    assert Bound(w.hub, friends) <= h1.outbox.Keys by {
      assert w.hub.userOf.Keys <= w.hub.outbox.Keys;
    }
    assert w1.views == w.views && w'.views == w1.views;
    assert s != s0 ==> Shown(w1, s) == Shown(w, s);
    if s == s0 && s0 in w.hub.sockets && HasRoom(w.hub, s0) {
      AppliedLast(if s in w.views then w.views[s] else {}, Queue(w.hub, s), list);
      assert Shown(w1, s0) == Effect(Shown(w, s0), list);
    }
    hide Shown, Push, DoTask, Framed, HasRoom, Delivered, Indexed, Bound, Friends.FriendsOf, Friends.OneRowPerPair;
    DeliveredShown(w1, w', Bound(w.hub, friends), PresenceOnline(u0), s);
  }

  lemma AnnounceFrames(w: World, t: Friends.Table, s0: SocketId, u0: UserId)
    requires Framed(w) && Friends.OneRowPerPair(t) && Announce(s0, u0) in w.tasks
    ensures Framed(DoTask(w, t, Announce(s0, u0)))
  {
    var w' := DoTask(w, t, Announce(s0, u0));
    assert w'.tasks == w.tasks - {Announce(s0, u0)};
    if Friends.FriendsOf(t, u0) != [] {
      AnnounceHub(w, t, s0, u0);
      hide DoTask, Shown, Indexed, Push, Delivered;
      forall s | s in w'.hub.sockets && s !in w'.hub.userOf ensures Shown(w', s) == w'.brought[s] {
        AnnounceShown(w, t, s0, u0, s);
      }
    }
  }

  lemma AnnounceToNobody(w: World, t: Friends.Table, s0: SocketId, u0: UserId, s: SocketId)
    requires Framed(w) && Knows(w, t, s) && Friends.OneRowPerPair(t) && Announce(s0, u0) in w.tasks
    requires Friends.FriendsOf(t, u0) == []
    ensures Knows(DoTask(w, t, Announce(s0, u0)), t, s)
  {
    var w' := DoTask(w, t, Announce(s0, u0));
    assert w'.tasks == w.tasks - {Announce(s0, u0)} && w'.hub == w.hub && Shown(w', s) == Shown(w, s);
    if s in w.hub.userOf && Friends.FriendsOf(t, w.hub.userOf[s]) != [] {
      NewsReaches(w, t, s, u0);
      var friends := Friends.FriendsOf(t, w.hub.userOf[s]);
      assert s != s0;
      forall v | v in friends && Right(w.hub, w.tasks, Shown(w, s), v)
        ensures Right(w'.hub, w'.tasks, Shown(w', s), v)
      {
        OtherTask(w.tasks, Announce(s0, u0), v);
      }
    }
  }

  /** The announcement leaves right what another socket that stays shows of one friend of its user. */
  ghost predicate AnnounceFine(w: World, t: Friends.Table, gone: set<SocketId>, u0: UserId, s: SocketId, v: UserId) {
    if v == u0 then StaysOnline(w.hub, gone, u0) || Leaving(w.tasks, u0)
    else v in Friends.FriendsOf(t, u0) && v in Shown(w, s) ==> StaysOnline(w.hub, gone, v) || Leaving(w.tasks, v)
  }

  /** The list is right about one friend. */
  ghost predicate ListFine(w: World, gone: set<SocketId>, v: UserId) {
    Online(w.hub, v) ==> StaysOnline(w.hub, gone, v) || Leaving(w.tasks, v)
  }

  lemma AnnouncedRight(w: World, t: Friends.Table, s0: SocketId, u0: UserId, s: SocketId, v: UserId)
    requires Framed(w) && Friends.OneRowPerPair(t) && Announce(s0, u0) in w.tasks && s != s0
    requires Friends.FriendsOf(t, u0) != [] && Watches(w, t, s, v) && Right(w.hub, w.tasks, Shown(w, s), v)
    requires s !in Full(w.hub, {s0} + Bound(w.hub, Friends.FriendsOf(t, u0)))
    ensures var w' := DoTask(w, t, Announce(s0, u0));
            var gone := Full(w.hub, {s0} + Bound(w.hub, Friends.FriendsOf(t, u0)));
            Right(w'.hub, w'.tasks, Shown(w', s), v) <==> AnnounceFine(w, t, gone, u0, s, v)
  {
    var w' := DoTask(w, t, Announce(s0, u0));
    var friends := Friends.FriendsOf(t, u0);
    var gone := Full(w.hub, {s0} + Bound(w.hub, friends));
    AnnounceHub(w, t, s0, u0);
    AnnounceShown(w, t, s0, u0, s);
    NewsReaches(w, t, s, u0);
    Friends.Friendship(t, u0, u0);
    assert Indexed(w.hub) && w'.tasks == w.tasks - {Announce(s0, u0)};
    assert forall k | k in gone && k in w.hub.userOf :: w.hub.userOf[k] in friends + [u0];
    hide DoTask, Shown, Indexed, HasRoom, Framed, Full, Bound, Friends.FriendsOf, Friends.OneRowPerPair;
    if v == u0 {
      OnlineAfter(w.hub, w'.hub, gone, u0);
      StillLeaving(w.tasks, s0, u0);
    } else {
      OtherTask(w.tasks, Announce(s0, u0), v);
      LostRight(w, w', gone, Shown(w, s), v);
      if v !in friends {
        OthersStay(w.hub, gone, friends + [u0], v);
      }
    }
    hide Arriving, Leaving, Online, StaysOnline;
  }

  lemma StillLeaving(tasks: set<Task>, s0: SocketId, u0: UserId)
    ensures Leaving(tasks - {Announce(s0, u0)}, u0) == Leaving(tasks, u0)
  {
    if k :| k in tasks && !k.Announce? && k.user == u0 {
      assert k in tasks - {Announce(s0, u0)};
    }
  }

  lemma AnnounceFrame(w: World, t: Friends.Table, s0: SocketId, u0: UserId, s: SocketId)
    requires Framed(w) && Friends.OneRowPerPair(t) && Announce(s0, u0) in w.tasks && s != s0
    requires Friends.FriendsOf(t, u0) != []
    requires s in w.hub.userOf && s !in Full(w.hub, {s0} + Bound(w.hub, Friends.FriendsOf(t, u0)))
    ensures var w' := DoTask(w, t, Announce(s0, u0));
            && s in w'.hub.userOf && w'.hub.userOf[s] == w.hub.userOf[s] && w'.brought == w.brought
            && w'.tasks == w.tasks - {Announce(s0, u0)}
            && (forall v | v in Shown(w', s) && v !in Shown(w, s) :: v in Friends.FriendsOf(t, w.hub.userOf[s]))
            && (Friends.FriendsOf(t, w.hub.userOf[s]) == [] ==> Shown(w', s) == Shown(w, s))
  {
    AnnounceHub(w, t, s0, u0);
    AnnounceShown(w, t, s0, u0, s);
    NewsReaches(w, t, s, u0);
    hide Shown, DoTask, Indexed, Full, Bound, Framed, HasRoom, Friends.OneRowPerPair, Friends.FriendsOf;
  }

  lemma AnnounceKnows(w: World, t: Friends.Table, s0: SocketId, u0: UserId, s: SocketId)
    requires Framed(w) && Knows(w, t, s) && Friends.OneRowPerPair(t) && Announce(s0, u0) in w.tasks && s != s0
    requires Friends.FriendsOf(t, u0) != []
    requires s in w.hub.userOf && s !in Full(w.hub, {s0} + Bound(w.hub, Friends.FriendsOf(t, u0)))
    ensures var gone := Full(w.hub, {s0} + Bound(w.hub, Friends.FriendsOf(t, u0)));
            Knows(DoTask(w, t, Announce(s0, u0)), t, s) <==>
              forall v | Watches(w, t, s, v) :: AnnounceFine(w, t, gone, u0, s, v)
  {
    hide *;
    var w' := DoTask(w, t, Announce(s0, u0));
    var gone := Full(w.hub, {s0} + Bound(w.hub, Friends.FriendsOf(t, u0)));
    AnnounceFrame(w, t, s0, u0, s);
    KnowsMeansRight(w, w', t, s);
    forall v | Watches(w, t, s, v)
      ensures Right(w'.hub, w'.tasks, Shown(w', s), v) <==> AnnounceFine(w, t, gone, u0, s, v)
    {
      KnowsRight(w, t, s, v);
      AnnouncedRight(w, t, s0, u0, s, v);
    }
  }

  lemma ListRight(w: World, w': World, gone: set<SocketId>, shown: set<UserId>, friends: seq<UserId>, v: UserId)
    requires Indexed(w.hub) && Indexed(w'.hub) && w'.hub.userOf == w.hub.userOf - gone
    requires Arriving(w'.tasks, v) == Arriving(w.tasks, v) && Leaving(w'.tasks, v) == Leaving(w.tasks, v)
    requires v in friends && shown == (set u | u in friends && Online(w.hub, u))
    ensures Right(w'.hub, w'.tasks, shown, v) <==> ListFine(w, gone, v)
  {
    LostRight(w, w', gone, shown, v);
  }

  /** The socket that is announced learns its list, which is right unless the announcement itself drops a friend. */
  lemma ListKnows(w: World, t: Friends.Table, s0: SocketId, u0: UserId)
    requires Framed(w) && Friends.OneRowPerPair(t) && Announce(s0, u0) in w.tasks
    requires Friends.FriendsOf(t, u0) != []
    requires s0 in w.hub.userOf && s0 !in Full(w.hub, {s0} + Bound(w.hub, Friends.FriendsOf(t, u0)))
    ensures var w' := DoTask(w, t, Announce(s0, u0));
            var gone := Full(w.hub, {s0} + Bound(w.hub, Friends.FriendsOf(t, u0)));
            Knows(w', t, s0) <==> forall v | v in Friends.FriendsOf(t, u0) :: ListFine(w, gone, v)
  {
    var w' := DoTask(w, t, Announce(s0, u0));
    var friends := Friends.FriendsOf(t, u0);
    var gone := Full(w.hub, {s0} + Bound(w.hub, friends));
    AnnounceHub(w, t, s0, u0);
    AnnounceShown(w, t, s0, u0, s0);
    Friends.Friendship(t, u0, u0);
    assert Indexed(w.hub) && s0 in w.hub.sockets && w.hub.userOf[s0] == u0;
    var shown := Shown(w', s0);
    hide DoTask, Shown, Indexed, HasRoom, Full, Bound, Arriving, Leaving, Friends.OneRowPerPair, Framed;
    hide Right, Online, ListFine, Friends.FriendsOf;
    forall v | v in friends ensures Right(w'.hub, w'.tasks, shown, v) <==> ListFine(w, gone, v) {
      OtherTask(w.tasks, Announce(s0, u0), v);
      ListRight(w, w', gone, shown, friends, v);
    }
  }

  lemma AnnounceHarmlessMeans(w: World, t: Friends.Table, s0: SocketId, u0: UserId)
    requires Friends.FriendsOf(t, u0) != [] && u0 !in Friends.FriendsOf(t, u0)
    ensures var friends := Friends.FriendsOf(t, u0);
            var gone := Full(w.hub, {s0} + Bound(w.hub, friends));
            AnnounceHarmless(w, t, s0, u0) <==>
              && (forall s, v | s !in gone && Watches(w, t, s, v) :: AnnounceFine(w, t, gone, u0, s, v))
              && (s0 in w.hub.userOf && s0 !in gone ==> forall v | v in friends :: ListFine(w, gone, v))
  {
    hide Full, Bound, Shown, Online, Leaving, StaysOnline, Watches, Friends.FriendsOf;
  }

  /** Exactly when an announcement keeps every view right. */
  lemma AnnounceExactly(w: World, t: Friends.Table, s0: SocketId, u0: UserId)
    requires Good(w, t) && Friends.OneRowPerPair(t) && Announce(s0, u0) in w.tasks
    ensures Framed(DoTask(w, t, Announce(s0, u0)))
    ensures (forall s :: Knows(DoTask(w, t, Announce(s0, u0)), t, s)) <==> AnnounceHarmless(w, t, s0, u0)
  {
    AnnounceFrames(w, t, s0, u0);
    assert Framed(w) && forall s :: Knows(w, t, s);
    if Friends.FriendsOf(t, u0) == [] {
      forall s ensures Knows(DoTask(w, t, Announce(s0, u0)), t, s) {
        AnnounceToNobody(w, t, s0, u0, s);
      }
    } else {
      AnnounceToFriends(w, t, s0, u0);
    }
    hide Knows, Framed, DoTask, Friends.FriendsOf;
  }

  lemma ListNotYetTold(w: World, t: Friends.Table, s0: SocketId, u0: UserId)
    requires Framed(w) && Announce(s0, u0) in w.tasks
    ensures forall v :: !Watches(w, t, s0, v)
  {
    hide Shown;
  }

  lemma AnnounceToFriends(w: World, t: Friends.Table, s0: SocketId, u0: UserId)
    requires Framed(w) && (forall s :: Knows(w, t, s)) && Friends.OneRowPerPair(t) && Announce(s0, u0) in w.tasks
    requires Friends.FriendsOf(t, u0) != []
    ensures (forall s :: Knows(DoTask(w, t, Announce(s0, u0)), t, s)) <==> AnnounceHarmless(w, t, s0, u0)
  {
    hide *;
    ListNotYetTold(w, t, s0, u0);
    var w' := DoTask(w, t, Announce(s0, u0));
    var gone := Full(w.hub, {s0} + Bound(w.hub, Friends.FriendsOf(t, u0)));
    Friends.Friendship(t, u0, u0);
    AnnounceHub(w, t, s0, u0);
    forall s | s != s0
      ensures Knows(w', t, s) <==>
                forall v | s !in gone && Watches(w, t, s, v) :: AnnounceFine(w, t, gone, u0, s, v)
    {
      if s in w.hub.userOf && s !in gone {
        AnnounceKnows(w, t, s0, u0, s);
      } else {
        Unbound(w, w', t, s);
      }
    }
    if s0 in w.hub.userOf && s0 !in gone {
      ListKnows(w, t, s0, u0);
    } else {
      Unbound(w, w', t, s0);
    }
    AnnounceHarmlessMeans(w, t, s0, u0);
  }

  // ---------------------------------------------------------------------------
  // Other frames
  // ---------------------------------------------------------------------------

  /** Frames and deliveries that change no view once everything queued has arrived. */
  lemma SameShownKeeps(w: World, w': World, t: Friends.Table)
    requires Good(w, t) && Indexed(w'.hub) && w'.tasks == w.tasks && w'.brought == w.brought
    requires w'.hub.userOf == w.hub.userOf && w'.hub.byUser == w.hub.byUser && w'.hub.sockets == w.hub.sockets
    requires w'.hub.outbox.Keys == w'.views.Keys == w.views.Keys
    requires forall s :: Shown(w', s) == Shown(w, s)
    ensures Good(w', t)
  {
    hide Shown, Indexed;
    forall s ensures Knows(w', t, s) {
      assert Knows(w, t, s);
      assert forall v :: Online(w'.hub, v) == Online(w.hub, v);
    }
  }

  lemma FrameLandsKeeps(w: World, t: Friends.Table, s0: SocketId)
    requires Good(w, t) && (s0 in w.hub.sockets ==> HasRoom(w.hub, s0))
    ensures Good(Do(w, t, OtherFrame(s0)), t)
  {
    var w' := Do(w, t, OtherFrame(s0));
    if s0 in w.hub.sockets {
      ListSent(w, s0, OtherMessage);
      AppliedLast(if s0 in w.views then w.views[s0] else {}, Queue(w.hub, s0), OtherMessage);
      assert forall s :: Shown(w', s) == Shown(w, s);
      assert w'.hub.userOf == w.hub.userOf && w'.hub.byUser == w.hub.byUser && w'.hub.sockets == w.hub.sockets;
      hide Shown, Push, Do;
      SameShownKeeps(w, w', t);
    }
  }

  /** A frame for a full outbox: the socket is dropped, and no task remembers it. */
  lemma FrameDrops(w: World, t: Friends.Table, s0: SocketId)
    requires Framed(w) && s0 in w.hub.sockets && !HasRoom(w.hub, s0)
    ensures var w' := Do(w, t, OtherFrame(s0));
            && w' == w.(hub := Disconnect(w.hub, s0)) && Framed(w')
            && w'.hub.userOf == w.hub.userOf - {s0} && w'.hub.outbox == w.hub.outbox
            && (forall s :: Shown(w', s) == Shown(w, s))
  {
    DisconnectIndexed(w.hub, s0);
    hide Indexed, HasRoom, Shown;
  }

  lemma DropRight(w: World, t: Friends.Table, s0: SocketId, s: SocketId, v: UserId)
    requires Framed(w) && s0 in w.hub.sockets && !HasRoom(w.hub, s0) && Right(w.hub, w.tasks, Shown(w, s), v)
    ensures var w' := Do(w, t, OtherFrame(s0));
            Right(w'.hub, w'.tasks, Shown(w, s), v) <==>
              (s0 in w.hub.userOf && v == w.hub.userOf[s0] && v in Shown(w, s) ==>
                StaysOnline(w.hub, {s0}, v) || Leaving(w.tasks, v))
  {
    var w' := Do(w, t, OtherFrame(s0));
    var users := if s0 in w.hub.userOf then [w.hub.userOf[s0]] else [];
    FrameDrops(w, t, s0);
    assert Indexed(w.hub) && Indexed(w'.hub) && w'.tasks == w.tasks;
    assert forall k | k in {s0} && k in w.hub.userOf :: w.hub.userOf[k] in users;
    hide Do, Framed, Indexed, Shown, Disconnect, HasRoom;
    LostRight(w, w', {s0}, Shown(w, s), v);
    if v !in users {
      OthersStay(w.hub, {s0}, users, v);
    }
    hide Right, Online, StaysOnline, Leaving;
  }

  lemma DropKnows(w: World, t: Friends.Table, s0: SocketId, s: SocketId)
    requires Framed(w) && Knows(w, t, s) && s0 in w.hub.sockets && !HasRoom(w.hub, s0)
    requires s in w.hub.userOf && s != s0
    ensures Knows(Do(w, t, OtherFrame(s0)), t, s) <==>
              (s0 in w.hub.userOf && Watches(w, t, s, w.hub.userOf[s0]) && w.hub.userOf[s0] in Shown(w, s) ==>
                StaysOnline(w.hub, {s0}, w.hub.userOf[s0]) || Leaving(w.tasks, w.hub.userOf[s0]))
  {
    var w' := Do(w, t, OtherFrame(s0));
    FrameDrops(w, t, s0);
    assert w'.tasks == w.tasks && w'.brought == w.brought;
    hide Do, Framed, Shown, Disconnect, HasRoom, Right, StaysOnline, Leaving;
    forall v | Watches(w, t, s, v)
      ensures Right(w'.hub, w'.tasks, Shown(w', s), v) <==>
                (s0 in w.hub.userOf && v == w.hub.userOf[s0] && v in Shown(w, s) ==>
                  StaysOnline(w.hub, {s0}, v) || Leaving(w.tasks, v))
    {
      DropRight(w, t, s0, s, v);
    }
  }

  lemma DropExactly(w: World, t: Friends.Table, s0: SocketId)
    requires Good(w, t) && s0 in w.hub.sockets && !HasRoom(w.hub, s0)
    ensures Framed(Do(w, t, OtherFrame(s0)))
    ensures (forall s :: Knows(Do(w, t, OtherFrame(s0)), t, s)) <==>
              (s0 in w.hub.userOf ==> LossHarmless(w, t, {s0}, w.hub.userOf[s0]))
  {
    var w' := Do(w, t, OtherFrame(s0));
    FrameDrops(w, t, s0);
    forall s
      ensures Knows(w', t, s) <==>
                (s != s0 && s0 in w.hub.userOf && Watches(w, t, s, w.hub.userOf[s0])
                 && w.hub.userOf[s0] in Shown(w, s) ==>
                  StaysOnline(w.hub, {s0}, w.hub.userOf[s0]) || Leaving(w.tasks, w.hub.userOf[s0]))
    {
      assert Knows(w, t, s);
      if s in w.hub.userOf && s != s0 {
        DropKnows(w, t, s0, s);
      }
    }
    hide Knows, Do, Framed, Shown, Disconnect, Leaving, StaysOnline;
  }

  /**
    Exactly when an ordinary frame keeps every view right: there is room for it, or its socket has
    no user, or dropping the socket does that user no harm. It always keeps the bookkeeping.
   */
  lemma OverflowExactly(w: World, t: Friends.Table, s0: SocketId)
    requires Good(w, t)
    ensures Framed(Do(w, t, OtherFrame(s0)))
    ensures (forall s :: Knows(Do(w, t, OtherFrame(s0)), t, s)) <==>
              (s0 in w.hub.userOf && !HasRoom(w.hub, s0) ==> LossHarmless(w, t, {s0}, w.hub.userOf[s0]))
  {
    assert s0 in w.hub.userOf ==> s0 in w.hub.sockets;
    if s0 in w.hub.sockets && !HasRoom(w.hub, s0) {
      DropExactly(w, t, s0);
    } else {
      FrameLandsKeeps(w, t, s0);
      assert Good(Do(w, t, OtherFrame(s0)), t);
    }
    hide Knows, Do, Framed, LossHarmless;
  }

  lemma ReceiveShown(w: World, t: Friends.Table, s0: SocketId, s: SocketId)
    requires w.hub.outbox.Keys == w.views.Keys
    ensures Shown(Do(w, t, Receive(s0)), s) == Shown(w, s)
  {
    if s == s0 && s0 in w.views && Queue(w.hub, s0) != [] {
      AppliedFirst(w.views[s0], Queue(w.hub, s0));
    }
  }

  lemma ReceiveKeeps(w: World, t: Friends.Table, s0: SocketId)
    requires Good(w, t)
    ensures Good(Do(w, t, Receive(s0)), t)
  {
    var w' := Do(w, t, Receive(s0));
    hide Shown;
    forall s ensures Shown(w', s) == Shown(w, s) {
      ReceiveShown(w, t, s0, s);
    }
    hide Knows;
    SameShownKeeps(w, w', t);
  }

  /**
    Exactly when a step keeps all that holds: for every step, and however full the outboxes are.
    Only binding a socket to a second user breaks the bookkeeping; every other unsafe step makes
    some view wrong.
   */
  lemma StepExactly(w: World, t: Friends.Table, step: Step)
    requires Good(w, t) && Friends.OneRowPerPair(t)
    ensures Good(Do(w, t, step), t) <==> Safe(w, t, step)
    ensures !Rebinds(w, step) ==> Framed(Do(w, t, step))
  {
    hide Framed, Knows, Shown, DoTask, Friends.OneRowPerPair, AnnounceHarmless, TellHarmless, LossHarmless;
    match step
    case Open(view) => OpenKeeps(w, t, view);
    case Authenticate(s, u) => AuthenticateExactly(w, t, s, u);
    case Close(s) => CloseKeeps(w, t, s);
    case OtherFrame(s) => OverflowExactly(w, t, s);
    case Receive(s) => ReceiveKeeps(w, t, s);
    case Proceed(task) =>
      if task in w.tasks {
        match task
        case Announce(s, u) => AnnounceExactly(w, t, s, u);
        case CheckOffline(s, u) => CheckKeeps(w, t, s, u);
        case TellOffline(s, u) => TellExactly(w, t, s, u);
      }
  }

  lemma StartGood(t: Friends.Table)
    ensures Good(START, t)
  {
  }

  /** Exactly the safe runs keep every view right all along. */
  lemma {:induction false} RunExactly(t: Friends.Table, steps: seq<Step>)
    requires Friends.OneRowPerPair(t)
    ensures SafeRun(t, steps) <==> forall k: nat | k <= |steps| :: Good(Run(t, steps[..k]), t)
  {
    hide Good, Do, Safe;
    if steps == [] {
      StartGood(t);
      assert Run(t, steps[..0]) == START;
    } else {
      var n := |steps| - 1;
      var front := steps[..n];
      RunExactly(t, front);
      assert steps[..|steps|] == steps;
      assert forall k: nat | k <= n :: front[..k] == steps[..k];
      assert front[..n] == front;
      if Good(Run(t, front), t) {
        StepExactly(Run(t, front), t, steps[n]);
      }
    }
  }

  lemma RunGood(t: Friends.Table, steps: seq<Step>)
    requires Friends.OneRowPerPair(t) && SafeRun(t, steps)
    ensures Good(Run(t, steps), t)
  {
    hide *;
    RunExactly(t, steps);
    assert steps[..|steps|] == steps;
  }

  function OnlineFriends(w: World, t: Friends.Table, u: UserId): set<UserId> {
    set v | v in Friends.FriendsOf(t, u) && Online(w.hub, v)
  }

  /**
    Presence converges: after any safe run, a socket that has been told its list shows, once its
    queued frames have arrived, exactly its online friends apart from those whose coming or going
    is still to be announced. A user without friends is never told anything, so there the tab
    agrees exactly if it brought an empty view.
   */
  lemma Convergence(t: Friends.Table, steps: seq<Step>, s: SocketId)
    requires Friends.OneRowPerPair(t) && SafeRun(t, steps)
    requires s in Run(t, steps).hub.userOf && Announce(s, Run(t, steps).hub.userOf[s]) !in Run(t, steps).tasks
    ensures var w := Run(t, steps);
            var u := w.hub.userOf[s];
            && (forall v | !Arriving(w.tasks, v) && !Leaving(w.tasks, v) && Friends.FriendsOf(t, u) != [] ::
                  v in Shown(w, s) <==> v in OnlineFriends(w, t, u))
            && (w.tasks == {} ==>
              s in w.brought &&
              (Shown(w, s) == OnlineFriends(w, t, u) <==> Friends.FriendsOf(t, u) != [] || w.brought[s] == {}))
  {
    var w := Run(t, steps);
    RunGood(t, steps);
    hide Run, Shown;
    var u := w.hub.userOf[s];
    assert Knows(w, t, s);
    assert s in w.brought;
    forall v | !Arriving(w.tasks, v) && !Leaving(w.tasks, v) && Friends.FriendsOf(t, u) != []
      ensures v in Shown(w, s) <==> v in OnlineFriends(w, t, u)
    {
      if v in Friends.FriendsOf(t, u) {
        assert Right(w.hub, w.tasks, Shown(w, s), v);
      }
    }
    if w.tasks == {} {
      assert Friends.FriendsOf(t, u) == [] ==> OnlineFriends(w, t, u) == {};
    }
  }

  // ---------------------------------------------------------------------------
  // Where it fails
  // ---------------------------------------------------------------------------

  lemma NobodyGone(h: Registry, users: seq<UserId>)
    requires RoomFor(h, users)
    ensures Full(h, Bound(h, users)) == {}
  {
  }

  /** Losing nobody does no harm. */
  lemma NoLoss(w: World, t: Friends.Table, s: SocketId, v: UserId)
    requires Framed(w) && Knows(w, t, s) && Watches(w, t, s, v)
    ensures StaysOnline(w.hub, {}, v) <==> Online(w.hub, v)
    ensures v in Shown(w, s) ==> StaysOnline(w.hub, {}, v) || Leaving(w.tasks, v)
  {
    OnlineMeansBound(w.hub, v);
    assert Right(w.hub, w.tasks, Shown(w, s), v);
  }

  /**
    News of a departure that is sent after the user came back, with nothing left to correct it,
    hides the user: with room, what a friend's tab is told is right exactly if the user is still
    offline, or the announcement of the return is still to come.
   */
  lemma LateOfflineHidesFriend(w: World, t: Friends.Table, s0: SocketId, u0: UserId, s: SocketId)
    requires Good(w, t) && Friends.OneRowPerPair(t) && RoomFor(w.hub, Friends.FriendsOf(t, u0))
    requires TellOffline(s0, u0) in w.tasks && Watches(w, t, s, u0)
    ensures var w' := Do(w, t, Proceed(TellOffline(s0, u0)));
            Knows(w', t, s) <==> !Online(w.hub, u0) || Arriving(w.tasks, u0)
  {
    NobodyGone(w.hub, Friends.FriendsOf(t, u0));
    assert Framed(w) && Knows(w, t, s);
    hide Good, Framed, Knows, DoTask, RoomFor, Full, Bound, Friends.OneRowPerPair, Friends.FriendsOf;
    assert s in w.hub.userOf;
    TellKnows(w, t, s0, u0, s);
    forall v | Watches(w, t, s, v)
      ensures v in Shown(w, s) ==> StaysOnline(w.hub, {}, v) || Leaving(w.tasks, v)
    {
      NoLoss(w, t, s, v);
    }
    hide StaysOnline, Leaving, Arriving, Online, Shown;
  }

  /** The way there: the only socket of a user closes, the check runs, and the user is back before the news is sent. */
  function QuickReturn(w: World, t: Friends.Table, s0: SocketId, u0: UserId, view: set<UserId>): World {
    var checked := Do(Do(w, t, Close(s0)), t, Proceed(CheckOffline(s0, u0)));
    Do(Do(checked, t, Open(view)), t, Authenticate(w.hub.nextId, u0))
  }

  lemma QuickReturnShape(w: World, t: Friends.Table, s0: SocketId, u0: UserId, view: set<UserId>)
    requires Good(w, t) && w.tasks == {} && s0 in w.hub.userOf && w.hub.userOf[s0] == u0
    requires SocketsOf(w.hub, u0) == [s0]
    ensures var w' := QuickReturn(w, t, s0, u0, view);
            && w'.tasks == {TellOffline(s0, u0), Announce(w.hub.nextId, u0)}
            && w'.hub.userOf == (w.hub.userOf - {s0})[w.hub.nextId := u0] && w.hub.nextId !in w.hub.userOf
            && w'.hub.outbox == w.hub.outbox[w.hub.nextId := []]
  {
    var w1 := Do(w, t, Close(s0));
    assert Without([s0], s0) == [];
    assert w1.tasks == {CheckOffline(s0, u0)} && !Online(w1.hub, u0) && w1.hub.nextId == w.hub.nextId;
    var w2 := Do(w1, t, Proceed(CheckOffline(s0, u0)));
    assert w2.tasks == {TellOffline(s0, u0)} && w2.hub == w1.hub;
    var w3 := Do(w2, t, Open(view));
    assert w.hub.nextId in w3.hub.sockets && !Announcing(w3, w.hub.nextId) && w.hub.nextId !in w3.hub.userOf;
  }

  lemma QuickReturnSafe(w: World, t: Friends.Table, s0: SocketId, u0: UserId, view: set<UserId>)
    requires Good(w, t) && w.tasks == {} && s0 in w.hub.userOf && w.hub.userOf[s0] == u0
    requires SocketsOf(w.hub, u0) == [s0]
    ensures var w1 := Do(w, t, Close(s0));
            var w2 := Do(w1, t, Proceed(CheckOffline(s0, u0)));
            var w3 := Do(w2, t, Open(view));
            && Safe(w, t, Close(s0)) && Safe(w1, t, Proceed(CheckOffline(s0, u0))) && Safe(w2, t, Open(view))
            && Safe(w3, t, Authenticate(w.hub.nextId, u0))
            && QuickReturn(w, t, s0, u0, view) == Do(w3, t, Authenticate(w.hub.nextId, u0))
  {
    QuickReturnShape(w, t, s0, u0, view);
    var w1 := Do(w, t, Close(s0));
    var w2 := Do(w1, t, Proceed(CheckOffline(s0, u0)));
    var w3 := Do(w2, t, Open(view));
    assert w.hub.nextId !in w3.hub.userOf;
    hide Do, Good;
  }

  lemma QuickReturnGood(w: World, t: Friends.Table, s0: SocketId, u0: UserId, view: set<UserId>)
    requires Good(w, t) && Friends.OneRowPerPair(t) && w.tasks == {} && s0 in w.hub.userOf && w.hub.userOf[s0] == u0
    requires SocketsOf(w.hub, u0) == [s0]
    ensures Good(QuickReturn(w, t, s0, u0, view), t)
  {
    hide *;
    var w1 := Do(w, t, Close(s0));
    var w2 := Do(w1, t, Proceed(CheckOffline(s0, u0)));
    var w3 := Do(w2, t, Open(view));
    QuickReturnSafe(w, t, s0, u0, view);
    StepExactly(w, t, Close(s0));
    StepExactly(w1, t, Proceed(CheckOffline(s0, u0)));
    StepExactly(w2, t, Open(view));
    StepExactly(w3, t, Authenticate(w.hub.nextId, u0));
  }

  /** Every outbox has room for two more frames. */
  predicate RoomForTwo(h: Registry) {
    forall k | k in h.outbox :: |h.outbox[k]| + 2 < SOCKET_OUTGOING_CAPACITY
  }

  /** After one announcement every outbox of a friend has at most one frame more. */
  lemma RoomLeft(w: World, t: Friends.Table, n: SocketId, u0: UserId)
    requires Framed(w) && Friends.OneRowPerPair(t) && Announce(n, u0) in w.tasks
    requires Friends.FriendsOf(t, u0) != [] && RoomForTwo(w.hub)
    ensures RoomFor(DoTask(w, t, Announce(n, u0)).hub, Friends.FriendsOf(t, u0))
  {
    var friends := Friends.FriendsOf(t, u0);
    var list := PresenceList(OnlineAmong(w.hub, friends));
    var h1, h2 := Push(w.hub, n, list), DoTask(w, t, Announce(n, u0)).hub;
    ListSent(w, n, list);
    BoundAfterList(w, t, n, u0, h1);
    AnnounceDelivers(w, t, n, u0);
    AnnounceHub(w, t, n, u0);
    hide Framed, DoTask, Push, Indexed, Friends.OneRowPerPair, Friends.FriendsOf, Full, OnlineAmong;
    forall s | s in h2.userOf && h2.userOf[s] in friends ensures HasRoom(h2, s) {
      assert s in Bound(w.hub, friends) && s != n;
      assert |Queue(h2, s)| <= |Queue(h1, s)| + 1;
    }
  }

  lemma ReturnAnnounced(w: World, t: Friends.Table, s0: SocketId, n: SocketId, u0: UserId)
    requires Framed(w) && Friends.OneRowPerPair(t) && w.tasks == {TellOffline(s0, u0), Announce(n, u0)}
    requires Friends.FriendsOf(t, u0) != [] && n in w.hub.userOf && w.hub.userOf[n] == u0 && RoomForTwo(w.hub)
    ensures var w2 := DoTask(w, t, Announce(n, u0));
            && Framed(w2) && w2.tasks == {TellOffline(s0, u0)} && w2.hub.userOf == w.hub.userOf
            && RoomFor(w2.hub, Friends.FriendsOf(t, u0))
  {
    AnnounceHub(w, t, n, u0);
    AnnounceFrames(w, t, n, u0);
    RoomLeft(w, t, n, u0);
    assert forall k :: HasRoom(w.hub, k);
    hide Framed, DoTask, HasRoom, RoomFor, Friends.OneRowPerPair, Friends.FriendsOf, Bound, Indexed;
    RoomForAll(w.hub, {n} + Bound(w.hub, Friends.FriendsOf(t, u0)));
    assert w.hub.userOf - {} == w.hub.userOf;
  }

  lemma LateTold(w: World, t: Friends.Table, s0: SocketId, n: SocketId, u0: UserId, s: SocketId)
    requires Framed(w) && Friends.OneRowPerPair(t) && w.tasks == {TellOffline(s0, u0)}
    requires RoomFor(w.hub, Friends.FriendsOf(t, u0)) && n in w.hub.userOf && w.hub.userOf[n] == u0
    requires s in w.hub.userOf && u0 in Friends.FriendsOf(t, w.hub.userOf[s])
    ensures var w' := DoTask(w, t, TellOffline(s0, u0));
            w'.tasks == {} && Online(w'.hub, u0) && u0 !in Shown(w', s) && s in w'.hub.userOf
  {
    var w' := DoTask(w, t, TellOffline(s0, u0));
    assert w'.tasks == {};
    NobodyGone(w.hub, Friends.FriendsOf(t, u0));
    hide DoTask, Shown, RoomFor, Framed, Friends.OneRowPerPair;
    TellShown(w, t, s0, u0);
    NewsReaches(w, t, s, u0);
    OnlineMeansBound(w'.hub, u0);
    assert n in w'.hub.userOf && w'.hub.userOf[n] == u0;
  }

  /** The announcement of the return, and then the late news of the departure. */
  lemma LateNews(w: World, t: Friends.Table, s0: SocketId, n: SocketId, u0: UserId, s: SocketId)
    requires Framed(w) && Friends.OneRowPerPair(t) && w.tasks == {TellOffline(s0, u0), Announce(n, u0)}
    requires s in w.hub.userOf && u0 in Friends.FriendsOf(t, w.hub.userOf[s]) && Friends.FriendsOf(t, u0) != []
    requires n in w.hub.userOf && w.hub.userOf[n] == u0 && RoomForTwo(w.hub)
    ensures var w' := DoTask(DoTask(w, t, Announce(n, u0)), t, TellOffline(s0, u0));
            w'.tasks == {} && Online(w'.hub, u0) && u0 !in Shown(w', s) && s in w'.hub.userOf
  {
    hide *;
    ReturnAnnounced(w, t, s0, n, u0);
    LateTold(DoTask(w, t, Announce(n, u0)), t, s0, n, u0, s);
  }

  /**
    A quick return is enough: in every quiet world, reloading the only tab of a user can leave a
    friend's tab without the user for good, though the user is online and nothing is on its way.
   */
  lemma ReloadCanHideFriend(w: World, t: Friends.Table, s0: SocketId, u0: UserId, view: set<UserId>, s: SocketId)
    requires Good(w, t) && Friends.OneRowPerPair(t) && w.tasks == {} && s0 in w.hub.userOf && w.hub.userOf[s0] == u0
    requires SocketsOf(w.hub, u0) == [s0] && s in w.hub.userOf && u0 in Friends.FriendsOf(t, w.hub.userOf[s])
    requires RoomForTwo(w.hub)
    ensures var back := QuickReturn(w, t, s0, u0, view);
            var w' := Do(Do(back, t, Proceed(Announce(w.hub.nextId, u0))), t, Proceed(TellOffline(s0, u0)));
            w'.tasks == {} && Online(w'.hub, u0) && u0 !in Shown(w', s) && s in w'.hub.userOf
  {
    var n := w.hub.nextId;
    var w1 := QuickReturn(w, t, s0, u0, view);
    QuickReturnShape(w, t, s0, u0, view);
    QuickReturnGood(w, t, s0, u0, view);
    Friends.Friendship(t, u0, w.hub.userOf[s]);
    Friends.Friendship(t, u0, u0);
    assert s != s0 && Friends.FriendsOf(t, u0) != [] && Framed(w1);
    hide Good, Framed, Shown, DoTask, Safe, Online, SocketsOf, QuickReturn, Friends.FriendsOf, Friends.OneRowPerPair;
    ReturnHasRoom(w.hub, w1.hub, n);
    LateNews(w1, t, s0, n, u0, s);
    StillToTell(w1, t, s0, n, u0);
  }

  lemma ReturnHasRoom(h: Registry, h1: Registry, n: SocketId)
    requires h1.outbox == h.outbox[n := []] && RoomForTwo(h)
    ensures RoomForTwo(h1)
  {
  }

  lemma StillToTell(w: World, t: Friends.Table, s0: SocketId, n: SocketId, u0: UserId)
    requires w.tasks == {TellOffline(s0, u0), Announce(n, u0)}
    ensures TellOffline(s0, u0) in DoTask(w, t, Announce(n, u0)).tasks
  {
  }

  /** Sent in the other order, the same two announcements leave every view right. */
  lemma ReloadInOrder(w: World, t: Friends.Table, s0: SocketId, u0: UserId, view: set<UserId>)
    requires Good(w, t) && Friends.OneRowPerPair(t) && w.tasks == {} && s0 in w.hub.userOf && w.hub.userOf[s0] == u0
    requires SocketsOf(w.hub, u0) == [s0] && RoomForTwo(w.hub)
    ensures var back := QuickReturn(w, t, s0, u0, view);
            var w' := Do(Do(back, t, Proceed(TellOffline(s0, u0))), t, Proceed(Announce(w.hub.nextId, u0)));
            Good(w', t) && w'.tasks == {}
  {
    var n := w.hub.nextId;
    var back := QuickReturn(w, t, s0, u0, view);
    QuickReturnShape(w, t, s0, u0, view);
    QuickReturnGood(w, t, s0, u0, view);
    assert Announce(n, u0) in back.tasks && TellOffline(s0, u0) in back.tasks;
    assert Arriving(back.tasks, u0) && back.hub.userOf[n] == u0;
    hide *;
    ReturnHasRoom(w.hub, back.hub, n);
    NewsThenReturn(back, t, s0, n, u0);
  }

  lemma NobodyLost(w: World, t: Friends.Table, v: UserId)
    requires Good(w, t)
    ensures LossHarmless(w, t, {}, v)
  {
    if s :| s !in {} && Watches(w, t, s, v) && v in Shown(w, s) {
      assert Knows(w, t, s);
      NoLoss(w, t, s, v);
    }
  }

  lemma RoomyTell(w: World, t: Friends.Table, u0: UserId)
    requires Good(w, t) && RoomForTwo(w.hub) && Arriving(w.tasks, u0)
    ensures TellHarmless(w, t, u0)
  {
    RoomForAll(w.hub, Bound(w.hub, Friends.FriendsOf(t, u0)));
    hide RoomForTwo, Good, LossHarmless, Arriving, Online, Watched, Bound;
    forall v ensures LossHarmless(w, t, {}, v) {
      NobodyLost(w, t, v);
    }
  }

  lemma RoomForAll(h: Registry, to: set<SocketId>)
    requires forall s | s in to :: HasRoom(h, s)
    ensures Full(h, to) == {}
  {
  }

  lemma RoomyAnnounce(w: World, t: Friends.Table, n: SocketId, u0: UserId)
    requires Good(w, t) && n in w.hub.userOf && w.hub.userOf[n] == u0
    requires forall k | k in w.hub.outbox :: HasRoom(w.hub, k)
    ensures AnnounceHarmless(w, t, n, u0)
  {
    RoomForAll(w.hub, {n} + Bound(w.hub, Friends.FriendsOf(t, u0)));
    assert StaysOnline(w.hub, {}, u0);
    assert Indexed(w.hub);
    forall v ensures LossHarmless(w, t, {}, v) && (Online(w.hub, v) ==> StaysOnline(w.hub, {}, v)) {
      NobodyLost(w, t, v);
      OnlineMeansBound(w.hub, v);
    }
    hide Good, LossHarmless, Leaving, Online, StaysOnline, Watched, Bound, Indexed;
  }

  lemma NewsThenReturn(w: World, t: Friends.Table, s0: SocketId, n: SocketId, u0: UserId)
    requires Good(w, t) && Friends.OneRowPerPair(t) && RoomForTwo(w.hub)
    requires w.tasks == {TellOffline(s0, u0), Announce(n, u0)} && Arriving(w.tasks, u0)
    requires n in w.hub.userOf && w.hub.userOf[n] == u0
    ensures var w' := Do(Do(w, t, Proceed(TellOffline(s0, u0))), t, Proceed(Announce(n, u0)));
            Good(w', t) && w'.tasks == {}
  {
    var tell, news := Proceed(TellOffline(s0, u0)), Proceed(Announce(n, u0));
    var w1 := Do(w, t, tell);
    assert tell.task in w.tasks && w1 == DoTask(w, t, tell.task) && w1.tasks == {news.task};
    assert Do(w1, t, news) == DoTask(w1, t, news.task) && DoTask(w1, t, news.task).tasks == {};
    assert Safe(w, t, tell) by {
      RoomyTell(w, t, u0);
    }
    AfterTell(w, t, s0, n, u0);
    assert AnnounceHarmless(w1, t, n, u0) ==> Safe(w1, t, news);
    hide *;
    StepExactly(w, t, tell);
    RoomyAnnounce(w1, t, n, u0);
    StepExactly(w1, t, news);
  }

  lemma AfterTell(w: World, t: Friends.Table, s0: SocketId, n: SocketId, u0: UserId)
    requires Framed(w) && Friends.OneRowPerPair(t) && RoomForTwo(w.hub)
    requires n in w.hub.userOf && w.hub.userOf[n] == u0
    ensures var w1 := DoTask(w, t, TellOffline(s0, u0));
            && n in w1.hub.userOf && w1.hub.userOf[n] == u0 && forall k | k in w1.hub.outbox :: HasRoom(w1.hub, k)
  {
    var friends := Friends.FriendsOf(t, u0);
    var w1 := DoTask(w, t, TellOffline(s0, u0));
    Friends.Friendship(t, u0, u0);
    TellShown(w, t, s0, u0);
    SendToUsersDelivers(w.hub, friends, PresenceOffline(u0));
    RoomForAll(w.hub, Bound(w.hub, friends));
    assert w1.hub == Delivered(w.hub, Bound(w.hub, friends), PresenceOffline(u0));
    assert forall k | k in w1.hub.outbox :: |Queue(w1.hub, k)| <= |Queue(w.hub, k)| + 1;
    hide DoTask, Shown, Indexed, Delivered, Friends.OneRowPerPair;
  }

  /** The user of a socket has another one exactly if the registry lists more than it. */
  lemma OnlySocket(h: Registry, s0: SocketId)
    requires Indexed(h) && s0 in h.userOf
    ensures StaysOnline(h, {s0}, h.userOf[s0]) <==> SocketsOf(h, h.userOf[s0]) != [s0]
  {
    var u0 := h.userOf[s0];
    var list := SocketsOf(h, u0);
    ListedMeansBound(h, u0, s0);
    assert NoDuplicates(list);
    if list != [s0] {
      var k := if list[0] != s0 then list[0] else list[1];
      assert k in list;
      ListedMeansBound(h, u0, k);
    }
    if s :| s in h.userOf && s !in {s0} && h.userOf[s] == u0 {
      ListedMeansBound(h, u0, s);
    }
    hide Indexed;
  }

  /** The route's teardown finds the socket gone, so the friend's view stays wrong. */
  lemma OverflowIsNotAnnounced(w: World, t: Friends.Table, s0: SocketId, s: SocketId)
    requires Good(w, t) && Friends.OneRowPerPair(t)
    requires s0 in w.hub.userOf && SocketsOf(w.hub, w.hub.userOf[s0]) == [s0] && !HasRoom(w.hub, s0)
    requires Watches(w, t, s, w.hub.userOf[s0])
    requires !Arriving(w.tasks, w.hub.userOf[s0]) && !Leaving(w.tasks, w.hub.userOf[s0])
    ensures var w' := Do(Do(w, t, OtherFrame(s0)), t, Close(s0));
            var u0 := w.hub.userOf[s0];
            && !Online(w'.hub, u0) && u0 in Shown(w', s) && !Leaving(w'.tasks, u0)
            && !Knows(w', t, s)
  {
    var w' := Do(w, t, OtherFrame(s0));
    var u0 := w.hub.userOf[s0];
    FrameDrops(w, t, s0);
    assert Do(w', t, Close(s0)) == w';
    Friends.Friendship(t, u0, u0);
    OnlineMeansBound(w.hub, u0);
    assert s != s0 && Knows(w, t, s) && Right(w.hub, w.tasks, Shown(w, s), u0);
    hide Do, Shown, Disconnect, Indexed, HasRoom, Friends.OneRowPerPair, Friends.FriendsOf, SocketsOf;
    OnlySocket(w.hub, s0);
    OnlineAfter(w.hub, w'.hub, {s0}, u0);
    DropKnows(w, t, s0, s);
    hide Framed, Knows, StaysOnline;
  }

  /** With nothing left to be sent: a drop does harm exactly to a user's only socket while a friend is online. */
  lemma QuietOverflowExactly(w: World, t: Friends.Table, s0: SocketId)
    requires Good(w, t) && Friends.OneRowPerPair(t) && w.tasks == {}
    ensures (forall s :: Knows(Do(w, t, OtherFrame(s0)), t, s)) <==>
              || HasRoom(w.hub, s0)
              || s0 !in w.hub.userOf
              || SocketsOf(w.hub, w.hub.userOf[s0]) != [s0]
              || (forall v | v in Friends.FriendsOf(t, w.hub.userOf[s0]) :: !Online(w.hub, v))
  {
    OverflowExactly(w, t, s0);
    if s0 in w.hub.userOf {
      var u0 := w.hub.userOf[s0];
      assert Indexed(w.hub) && !Leaving(w.tasks, u0);
      OnlySocket(w.hub, s0);
      QuietShown(w, t, s0);
    }
    hide Good, Knows, Do, Indexed, Friends.FriendsOf, Online, StaysOnline, ShownTo, SocketsOf;
  }

  lemma QuietShown(w: World, t: Friends.Table, s0: SocketId)
    requires Good(w, t) && Friends.OneRowPerPair(t) && w.tasks == {} && s0 in w.hub.userOf
    ensures ShownTo(w, t, {s0}, w.hub.userOf[s0]) <==>
              exists v :: v in Friends.FriendsOf(t, w.hub.userOf[s0]) && Online(w.hub, v)
  {
    var u0 := w.hub.userOf[s0];
    OnlineMeansBound(w.hub, u0);
    Friends.Friendship(t, u0, u0);
    assert Framed(w) && Online(w.hub, u0) && forall s :: Knows(w, t, s);
    hide Good, Indexed, Shown, Friends.OneRowPerPair, Friends.FriendsOf;
    if s :| s !in {s0} && Watches(w, t, s, u0) && u0 in Shown(w, s) {
      Friends.Friendship(t, u0, w.hub.userOf[s]);
      OnlineMeansBound(w.hub, w.hub.userOf[s]);
    }
    if v :| v in Friends.FriendsOf(t, u0) && Online(w.hub, v) {
      Friends.Friendship(t, u0, v);
      OnlineMeansBound(w.hub, v);
      var s :| s in w.hub.userOf && w.hub.userOf[s] == v;
      assert Watches(w, t, s, u0) && Knows(w, t, s);
      assert Right(w.hub, w.tasks, Shown(w, s), u0);
      assert u0 in Shown(w, s) && s != s0;
    }
  }
}
