/**
  The lifecycle of the match socket (src/hooks/useMatchSocket.ts:50-147, 256-282, 440-456): one
  socket at a time, a heartbeat while it is open, a reconnect after it closes, and a new socket
  whenever the signed-in user changes. The browser's sockets and timers follow the WHATWG
  WebSockets and HTML standards: a message event fires only while a socket is open, and closing
  takes effect on the ready state at once.
 */
module MatchSocket {
  import opened Wrappers

  type SocketId = nat
  type TimerId = nat
  type Frame = nat

  /** A user, or `None` for a guest. */
  type Identity = Option<nat>

  datatype ReadyState = Connecting | Opened | Closing | Closed

  /**
    `openedFor` is the hook's identity when the socket was made. `cookies` is the user whose cookies
    went with the upgrade request, once the browser has sent it: the hook passes no identity.
   */
  datatype Browser = Browser(ready: ReadyState, attached: bool, openedFor: Identity, cookies: Option<Identity>)

  /** A frame that was handled, and the hook's identity then. */
  datatype Dispatch = Dispatch(socket: SocketId, frame: Frame, identity: Identity)

  /** `jar` is the user of the browser's cookies, which other tabs and the server change too. */
  datatype State = State(
    jar: Identity,
    sockets: map<SocketId, Browser>,
    intervals: set<TimerId>,
    timeouts: set<TimerId>,
    nextSocket: SocketId,
    nextTimer: TimerId,
    current: Option<SocketId>,
    heartbeat: Option<TimerId>,
    reconnect: Option<TimerId>,
    identity: Identity,
    connected: bool,
    mounted: bool,
    dispatched: seq<Dispatch>)

  predicate Live(b: Browser) {
    b.ready == Connecting || b.ready == Opened
  }

  function ClearHeartbeat(s: State): State {
    match s.heartbeat
    case None => s
    case Some(t) => s.(intervals := s.intervals - {t}, heartbeat := None)
  }

  function ClearReconnect(s: State): State {
    match s.reconnect
    case None => s
    case Some(t) => s.(timeouts := s.timeouts - {t}, reconnect := None)
  }

  function Ensured(s: State): State {
    if s.current.Some? && s.current.value in s.sockets && Live(s.sockets[s.current.value]) then s
    else
      s.(sockets := s.sockets[s.nextSocket := Browser(Connecting, true, s.identity, None)],
         nextSocket := s.nextSocket + 1,
         current := Some(s.nextSocket))
  }

  function Disposed(s: State): State {
    var stopped := ClearReconnect(ClearHeartbeat(s)).(current := None, connected := false);
    if s.current.None? || s.current.value !in s.sockets then stopped
    else
      var b := s.sockets[s.current.value];
      stopped.(sockets := s.sockets[s.current.value :=
                 b.(attached := false, ready := if Live(b) then Closing else b.ready)])
  }

  /** The handlers of a socket; each returns at once unless the socket is the current one. */
  function HandledOpen(s: State, k: SocketId): State {
    if s.current != Some(k) then s
    else
      var stopped := ClearHeartbeat(s);
      stopped.(connected := true, intervals := stopped.intervals + {s.nextTimer}, nextTimer := s.nextTimer + 1,
               heartbeat := Some(s.nextTimer))
  }

  function HandledClose(s: State, k: SocketId): State {
    if s.current != Some(k) then s
    else
      var stopped := ClearReconnect(ClearHeartbeat(s.(current := None, connected := false)));
      stopped.(timeouts := stopped.timeouts + {s.nextTimer}, nextTimer := s.nextTimer + 1,
               reconnect := Some(s.nextTimer))
  }

  function HandledMessage(s: State, k: SocketId, frame: Frame): State {
    if s.current != Some(k) then s else s.(dispatched := s.dispatched + [Dispatch(k, frame, s.identity)])
  }

  class MatchSocketHook {
    var jar: Identity
    var sockets: map<SocketId, Browser>
    var intervals: set<TimerId>
    var timeouts: set<TimerId>
    var nextSocket: SocketId
    var nextTimer: TimerId
    var current: Option<SocketId>
    var heartbeat: Option<TimerId>
    var reconnect: Option<TimerId>
    var identity: Identity
    var connected: bool
    var mounted: bool
    var dispatched: seq<Dispatch>

    function View(): State
      reads this
    {
      State(jar, sockets, intervals, timeouts, nextSocket, nextTimer, current, heartbeat, reconnect, identity,
            connected, mounted, dispatched)
    }

    constructor (user: Identity, cookies: Identity)
      ensures View() == Start(user, cookies)
    {
      jar := cookies;
      sockets, intervals, timeouts, nextSocket, nextTimer := map[], {}, {}, 1, 1;
      current, heartbeat, reconnect, identity := None, None, None, user;
      connected, mounted, dispatched := false, false, [];
    }

    method StopHeartbeat()
      modifies this
      ensures View() == ClearHeartbeat(old(View()))
    {
      if heartbeat.Some? {
        intervals := intervals - {heartbeat.value};
        heartbeat := None;
      }
    }

    method StopReconnect()
      modifies this
      ensures View() == ClearReconnect(old(View()))
    {
      if reconnect.Some? {
        timeouts := timeouts - {reconnect.value};
        reconnect := None;
      }
    }

    method EnsureSocket()
      modifies this
      ensures View() == Ensured(old(View()))
    {
      if current.Some? && current.value in sockets && Live(sockets[current.value]) {
        return;
      }
      sockets := sockets[nextSocket := Browser(Connecting, true, identity, None)];
      current := Some(nextSocket);
      nextSocket := nextSocket + 1;
    }

    method OnOpen(k: SocketId)
      modifies this
      ensures View() == HandledOpen(old(View()), k)
    {
      if current != Some(k) {
        return;
      }
      connected := true;
      StopHeartbeat();
      intervals := intervals + {nextTimer};
      heartbeat := Some(nextTimer);
      nextTimer := nextTimer + 1;
    }

    method OnClose(k: SocketId)
      modifies this
      ensures View() == HandledClose(old(View()), k)
    {
      if current != Some(k) {
        return;
      }
      current := None;
      connected := false;
      StopHeartbeat();
      StopReconnect();
      timeouts := timeouts + {nextTimer};
      reconnect := Some(nextTimer);
      nextTimer := nextTimer + 1;
    }

    method OnMessage(k: SocketId, frame: Frame)
      modifies this
      ensures View() == HandledMessage(old(View()), k, frame)
    {
      if current != Some(k) {
        return;
      }
      dispatched := dispatched + [Dispatch(k, frame, identity)];
    }

    method DisposeSocket()
      modifies this
      ensures View() == Disposed(old(View()))
    {
      StopHeartbeat();
      StopReconnect();
      var disposing := current;
      current := None;
      connected := false;
      if disposing.None? || disposing.value !in sockets {
        return;
      }
      var b := sockets[disposing.value].(attached := false);
      sockets := sockets[disposing.value := if Live(b) then b.(ready := Closing) else b];
    }

    method ReconnectForAuthChange(user: Identity)
      modifies this
      ensures View() == ChangedUser(old(View()), user)
    {
      if identity == user {
        return;
      }
      identity := user;
      DisposeSocket();
      EnsureSocket();
    }
  }

  function ChangedUser(s: State, user: Identity): State {
    if s.identity == user then s else Ensured(Disposed(s.(identity := user)))
  }

  // ---------------------------------------------------------------------------
  // Runs
  // ---------------------------------------------------------------------------

  /** What the browser, the page and the user may do, in any order. */
  datatype Event =
    | Mount
    | Unmount
    | SignIn(user: Identity)
    | CookiesChange(user: Identity)
    | Call
    | SocketUpgrades(socket: SocketId)
    | SocketOpens(socket: SocketId)
    | SocketBeginsClosing(socket: SocketId)
    | SocketCloses(socket: SocketId)
    | SocketReceives(socket: SocketId, frame: Frame)
    | TimeoutFires(timer: TimerId)

  function Start(user: Identity, jar: Identity): State {
    State(jar, map[], {}, {}, 1, 1, None, None, None, user, false, false, [])
  }

  /** An event that cannot happen changes nothing. `Call` is any call that needs a socket, such as `join`. */
  function Do(s: State, e: Event): State {
    match e
    case Mount => if s.mounted then s else Ensured(s.(mounted := true))
    case Unmount => if s.mounted then Disposed(s.(mounted := false)) else s
    case SignIn(user) => if s.mounted then ChangedUser(s, user) else s.(identity := user)
    case CookiesChange(user) => s.(jar := user)
    case Call => if s.mounted then Ensured(s) else s
    case SocketUpgrades(k) =>
      if k in s.sockets && s.sockets[k].ready == Connecting && s.sockets[k].cookies.None? then
        s.(sockets := s.sockets[k := s.sockets[k].(cookies := Some(s.jar))])
      else s
    case SocketOpens(k) =>
      if k in s.sockets && s.sockets[k].ready == Connecting && s.sockets[k].cookies.Some? then
        var b := s.sockets[k].(ready := Opened);
        var s' := s.(sockets := s.sockets[k := b]);
        if b.attached then HandledOpen(s', k) else s'
      else s
    case SocketBeginsClosing(k) =>
      if k in s.sockets && Live(s.sockets[k]) then
        s.(sockets := s.sockets[k := s.sockets[k].(ready := Closing)])
      else s
    case SocketCloses(k) =>
      if k in s.sockets && s.sockets[k].ready != Closed then
        var b := s.sockets[k].(ready := Closed);
        var s' := s.(sockets := s.sockets[k := b]);
        if b.attached then HandledClose(s', k) else s'
      else s
    case SocketReceives(k, frame) =>
      if k in s.sockets && s.sockets[k].ready == Opened && s.sockets[k].attached then HandledMessage(s, k, frame) else s
    case TimeoutFires(t) =>
      if t in s.timeouts then Ensured(s.(timeouts := s.timeouts - {t})) else s
  }

  function Run(user: Identity, jar: Identity, events: seq<Event>): State {
    if events == [] then Start(user, jar) else Do(Run(user, jar, events[..|events| - 1]), events[|events| - 1])
  }

  // ---------------------------------------------------------------------------
  // What every run keeps
  // ---------------------------------------------------------------------------

  /** The current socket exists, is heard, and was opened for the identity the hook has now. */
  predicate CurrentFits(s: State) {
    s.current.Some? ==>
      && s.current.value in s.sockets && s.sockets[s.current.value].attached
      && s.sockets[s.current.value].openedFor == s.identity
  }

  /** A live timer is the one its variable names, so there is at most one of each. */
  predicate TimersFit(s: State) {
    && (forall t | t in s.intervals :: s.heartbeat == Some(t))
    && (forall t | t in s.timeouts :: s.reconnect == Some(t))
  }

  ghost predicate SocketsFit(s: State) {
    && (forall k | k in s.sockets :: k < s.nextSocket)
    && (forall k | k in s.sockets && Live(s.sockets[k]) :: s.current == Some(k))
    && (forall d | d in s.dispatched :: d.socket in s.sockets && s.sockets[d.socket].openedFor == d.identity)
    && (forall k | k in s.sockets && s.sockets[k].ready == Opened :: s.sockets[k].cookies.Some?)
    && (forall d | d in s.dispatched :: s.sockets[d.socket].cookies.Some?)
  }

  ghost predicate Fits(s: State) {
    && CurrentFits(s) && TimersFit(s) && SocketsFit(s)
    && (s.current.Some? && s.sockets[s.current.value].ready == Opened ==> s.intervals != {})
  }

  ghost predicate Good(s: State) {
    && Fits(s)
    && (s.mounted && s.current.None? ==> s.timeouts != {})
    && (!s.mounted ==> s.current.None? && s.intervals == {} && s.timeouts == {})
  }

  lemma EnsuredGood(s: State)
    requires Fits(s) && s.mounted
    ensures Good(Ensured(s)) && Ensured(s).current.Some?
  {
  }

  lemma StoppedTimers(s: State)
    requires TimersFit(s)
    ensures var s' := ClearReconnect(ClearHeartbeat(s));
            && s'.intervals == {} && s'.timeouts == {} && s'.heartbeat.None? && s'.reconnect.None?
            && s' == s.(intervals := {}, timeouts := {}, heartbeat := None, reconnect := None)
  {
  }

  /** Disposing leaves no socket that is heard and no timer, whoever is signed in by now. */
  lemma DisposedFits(s: State, user: Identity)
    requires Fits(s)
    ensures var s' := Disposed(s.(identity := user));
            Fits(s') && s'.current.None? && s'.intervals == {} && s'.timeouts == {}
  {
    StoppedTimers(s.(identity := user));
    hide ClearHeartbeat, ClearReconnect;
  }

  /** Only a mounted hook may be called: a call after disposal opens a socket again. */
  lemma CallAfterUnmountLeaks(s: State)
    requires Good(s) && !s.mounted
    ensures var s' := Ensured(s);
            s'.current.Some? && Live(s'.sockets[s'.current.value]) && !Good(s')
  {
  }

  lemma SignInGood(s: State, user: Identity)
    requires Good(s)
    ensures Good(Do(s, SignIn(user)))
  {
    if s.mounted && s.identity != user {
      DisposedFits(s, user);
      EnsuredGood(Disposed(s.(identity := user)));
    }
  }

  lemma OpensGood(s: State, k: SocketId)
    requires Good(s)
    ensures Good(Do(s, SocketOpens(k)))
  {
    var s' := Do(s, SocketOpens(k));
    if s' != s {
      assert s.current == Some(k) && s.sockets[k].attached;
      assert s'.intervals == {s.nextTimer} by {
        assert forall t | t in s.intervals :: s.heartbeat == Some(t);
      }
    }
  }

  lemma ClosedCurrent(s: State, k: SocketId)
    requires Good(s) && s.current == Some(k)
    ensures var s' := HandledClose(s, k);
            s' == s.(current := None, connected := false, intervals := {}, heartbeat := None,
                     timeouts := {s.nextTimer}, nextTimer := s.nextTimer + 1, reconnect := Some(s.nextTimer))
  {
    StoppedTimers(s.(current := None, connected := false));
    hide ClearHeartbeat, ClearReconnect;
  }

  lemma ClosedGood(s: State, k: SocketId)
    requires Good(s) && k in s.sockets
    ensures Good(s.(sockets := s.sockets[k := s.sockets[k].(ready := Closed)]))
  {
  }

  lemma CloseHandledGood(s: State, k: SocketId)
    requires Good(s) && k in s.sockets && s.sockets[k].ready == Closed
    ensures Good(HandledClose(s, k))
  {
    if s.current == Some(k) {
      ClosedCurrent(s, k);
      hide HandledClose;
    }
  }

  lemma ClosesGood(s: State, k: SocketId)
    requires Good(s)
    ensures Good(Do(s, SocketCloses(k)))
  {
    if k in s.sockets && s.sockets[k].ready != Closed {
      // The timers and the current socket do not depend on the ready state.
      var closed := s.(sockets := s.sockets[k := s.sockets[k].(ready := Closed)]);
      assert Do(s, SocketCloses(k)) == if s.sockets[k].attached then HandledClose(closed, k) else closed;
      hide Do;
      ClosedGood(s, k);
      CloseHandledGood(closed, k);
    }
  }

  /** The events that may open a socket: mounting, a call, and a reconnect. */
  lemma EnsuringGood(s: State, e: Event)
    requires Good(s) && (e.Mount? || e.Call? || e.TimeoutFires?)
    ensures Good(Do(s, e))
  {
    match e
    case Mount => if !s.mounted { EnsuredGood(s.(mounted := true)); }
    case Call => if s.mounted { EnsuredGood(s); }
    case TimeoutFires(t) => if t in s.timeouts { EnsuredGood(s.(timeouts := s.timeouts - {t})); }
    hide Ensured;
  }

  lemma UnmountGood(s: State)
    requires Good(s)
    ensures Good(Do(s, Unmount))
  {
    if s.mounted {
      DisposedFits(s.(mounted := false), s.identity);
      assert s.(mounted := false).(identity := s.identity) == s.(mounted := false);
    }
    hide Disposed, SocketsFit;
  }

  lemma UpgradeGood(s: State, k: SocketId)
    requires Good(s)
    ensures Good(Do(s, SocketUpgrades(k)))
  {
  }

  lemma BeginsClosingGood(s: State, k: SocketId)
    requires Good(s)
    ensures Good(Do(s, SocketBeginsClosing(k)))
  {
  }

  lemma ReceiveGood(s: State, k: SocketId, frame: Frame)
    requires Good(s)
    ensures Good(Do(s, SocketReceives(k, frame)))
  {
  }

  lemma CookiesGood(s: State, user: Identity)
    requires Good(s)
    ensures Good(Do(s, CookiesChange(user)))
  {
  }

  lemma EventGood(s: State, e: Event)
    requires Good(s)
    ensures Good(Do(s, e))
  {
    hide *;
    match e
    case Mount => EnsuringGood(s, e);
    case Unmount => UnmountGood(s);
    case SignIn(user) => SignInGood(s, user);
    case CookiesChange(user) => CookiesGood(s, user);
    case SocketUpgrades(k) => UpgradeGood(s, k);
    case Call => EnsuringGood(s, e);
    case SocketOpens(k) => OpensGood(s, k);
    case SocketBeginsClosing(k) => BeginsClosingGood(s, k);
    case SocketCloses(k) => ClosesGood(s, k);
    case SocketReceives(k, frame) => ReceiveGood(s, k, frame);
    case TimeoutFires(t) => EnsuringGood(s, e);
  }

  lemma {:induction false} RunGood(user: Identity, jar: Identity, events: seq<Event>)
    ensures Good(Run(user, jar, events))
  {
    hide *;
    if events == [] {
      StartGood(user, jar);
      RunStart(user, jar);
    } else {
      RunGood(user, jar, events[..|events| - 1]);
      EventGood(Run(user, jar, events[..|events| - 1]), events[|events| - 1]);
      RunStep(user, jar, events);
    }
  }

  lemma StartGood(user: Identity, jar: Identity)
    ensures Good(Start(user, jar))
  {
  }

  lemma RunStart(user: Identity, jar: Identity)
    ensures Run(user, jar, []) == Start(user, jar)
  {
  }

  lemma RunStep(user: Identity, jar: Identity, events: seq<Event>)
    requires events != []
    ensures Run(user, jar, events) == Do(Run(user, jar, events[..|events| - 1]), events[|events| - 1])
  {
  }

  /**
    Over every sequence of events: there is at most one live connection and it is the current
    one; at most one heartbeat and one reconnect timer are pending, and none after disposal; a
    mounted hook always has a socket or a reconnect pending; and an open current socket beats.
   */
  lemma Lifecycle(user: Identity, jar: Identity, events: seq<Event>)
    ensures var s := Run(user, jar, events);
            && (forall k | k in s.sockets && Live(s.sockets[k]) :: s.mounted && s.current == Some(k))
            && |s.intervals| <= 1 && |s.timeouts| <= 1
            && (!s.mounted ==> s.current == None && s.intervals == {} && s.timeouts == {})
            && (s.mounted ==> s.current.Some? || |s.timeouts| == 1)
            && (s.current.Some? && s.current.value in s.sockets && s.sockets[s.current.value].ready == Opened ==>
                  |s.intervals| == 1)
  {
    var s := Run(user, jar, events);
    RunGood(user, jar, events);
    hide Run;
    AtMostOne(s.intervals, s.heartbeat);
    AtMostOne(s.timeouts, s.reconnect);
  }

  lemma AtMostOne(timers: set<TimerId>, named: Option<TimerId>)
    requires forall t | t in timers :: named == Some(t)
    ensures |timers| <= 1 && (timers != {} ==> |timers| == 1)
  {
    if t :| t in timers {
      assert timers == {t};
    }
  }

  /**
    A frame is dispatched exactly if it came over the open current socket, and that socket was made
    for the identity that the hook still has: a change of identity always brings another socket.
   */
  lemma FramesBelongToIdentity(user: Identity, jar: Identity, events: seq<Event>, k: SocketId, frame: Frame)
    ensures var s := Run(user, jar, events);
            var s' := Do(s, SocketReceives(k, frame));
            && (forall d | d in s.dispatched :: d.socket in s.sockets && s.sockets[d.socket].openedFor == d.identity)
            && (s' != s <==> s.current == Some(k) && k in s.sockets && s.sockets[k].ready == Opened)
            && (s' != s ==> s'.dispatched == s.dispatched + [Dispatch(k, frame, s.sockets[k].openedFor)])
  {
    RunGood(user, jar, events);
    hide Run;
  }

  /** The event that sends the upgrade request of a socket. */
  ghost predicate UpgradedAt(user: Identity, jar: Identity, events: seq<Event>, j: nat, k: SocketId) {
    && j < |events| && events[j] == SocketUpgrades(k)
    && var s := Run(user, jar, events[..j]);
       k in s.sockets && s.sockets[k].ready == Connecting && s.sockets[k].cookies.None?
  }

  lemma EnsuredSockets(s: State)
    requires SocketsFit(s)
    ensures var s' := Ensured(s);
            && s'.jar == s.jar && s'.identity == s.identity && s.sockets.Keys <= s'.sockets.Keys
            && (forall k | k in s.sockets :: s'.sockets[k] == s.sockets[k])
            && (forall k | k in s'.sockets && k !in s.sockets :: s'.sockets[k].cookies.None?)
  {
  }

  lemma DisposedSockets(s: State)
    ensures var s' := Disposed(s);
            && s'.jar == s.jar && s'.identity == s.identity && s'.sockets.Keys == s.sockets.Keys
            && (forall k | k in s.sockets ::
                  s'.sockets[k].cookies == s.sockets[k].cookies && s'.sockets[k].openedFor == s.sockets[k].openedFor)
  {
    StoppedSockets(s);
    hide ClearHeartbeat, ClearReconnect, Live;
  }

  lemma StoppedSockets(s: State)
    ensures var s' := ClearReconnect(ClearHeartbeat(s));
            s'.jar == s.jar && s'.identity == s.identity && s'.sockets == s.sockets && s'.current == s.current
  {
  }

  lemma HandledSockets(s: State, k: SocketId)
    ensures HandledOpen(s, k).sockets == s.sockets && HandledClose(s, k).sockets == s.sockets
  {
  }

  /** A socket keeps its identity and its cookies, and only its upgrade gives it cookies. */
  predicate Kept(s: State, s': State, k: SocketId) {
    && (k in s.sockets ==>
        && k in s'.sockets && s'.sockets[k].openedFor == s.sockets[k].openedFor
        && s'.sockets[k].cookies == s.sockets[k].cookies)
    && (k in s'.sockets && k !in s.sockets ==> s'.sockets[k].cookies.None?)
  }

  lemma SignInKeeps(s: State, user: Identity, k: SocketId)
    requires Good(s)
    ensures Kept(s, Do(s, SignIn(user)), k)
  {
    DisposedSockets(s.(identity := user));
    DisposedFits(s, user);
    EnsuredSockets(Disposed(s.(identity := user)));
    hide Ensured, Disposed, SocketsFit, TimersFit, CurrentFits;
  }

  lemma EnsuringKeeps(s: State, e: Event, k: SocketId)
    requires Good(s) && (e.Mount? || e.Call? || e.TimeoutFires?)
    ensures Kept(s, Do(s, e), k)
  {
    assert SocketsFit(s);
    match e {
      case Mount => EnsuredSockets(s.(mounted := true));
      case Call => EnsuredSockets(s);
      case TimeoutFires(t) => EnsuredSockets(s.(timeouts := s.timeouts - {t}));
    }
    hide Ensured, SocketsFit;
  }

  lemma UnmountKeeps(s: State, k: SocketId)
    ensures Kept(s, Do(s, Unmount), k)
  {
    DisposedSockets(s.(mounted := false));
    hide Disposed;
  }

  lemma OpenKeeps(s: State, j: SocketId, k: SocketId)
    ensures Kept(s, Do(s, SocketOpens(j)), k)
  {
    if j in s.sockets {
      HandledSockets(s.(sockets := s.sockets[j := s.sockets[j].(ready := Opened)]), j);
    }
    hide HandledOpen;
  }

  lemma CloseKeeps(s: State, j: SocketId, k: SocketId)
    ensures Kept(s, Do(s, SocketCloses(j)), k)
  {
    if j in s.sockets {
      HandledSockets(s.(sockets := s.sockets[j := s.sockets[j].(ready := Closed)]), j);
    }
    hide HandledClose;
  }

  lemma PlainKeeps(s: State, e: Event, k: SocketId)
    requires e.CookiesChange? || e.SocketBeginsClosing? || e.SocketReceives?
    ensures Kept(s, Do(s, e), k)
  {
  }

  lemma OtherEventsKeep(s: State, e: Event, k: SocketId)
    requires Good(s) && !e.SocketUpgrades?
    ensures Kept(s, Do(s, e), k)
  {
    hide *;
    match e
    case Mount => EnsuringKeeps(s, e, k);
    case Unmount => UnmountKeeps(s, k);
    case SignIn(user) => SignInKeeps(s, user, k);
    case CookiesChange(user) => PlainKeeps(s, e, k);
    case Call => EnsuringKeeps(s, e, k);
    case SocketOpens(j) => OpenKeeps(s, j, k);
    case SocketBeginsClosing(j) => PlainKeeps(s, e, k);
    case SocketCloses(j) => CloseKeeps(s, j, k);
    case SocketReceives(j, frame) => PlainKeeps(s, e, k);
    case TimeoutFires(t) => EnsuringKeeps(s, e, k);
  }

  lemma SocketStep(s: State, e: Event, k: SocketId)
    requires Good(s) && k in Do(s, e).sockets
    ensures var s' := Do(s, e);
            && (k in s.sockets ==>
                s'.sockets[k].openedFor == s.sockets[k].openedFor
                && (s.sockets[k].cookies.Some? ==> s'.sockets[k].cookies == s.sockets[k].cookies))
            && (s'.sockets[k].cookies.Some? && !(k in s.sockets && s.sockets[k].cookies.Some?) ==>
                && e == SocketUpgrades(k) && k in s.sockets && s.sockets[k].ready == Connecting
                && s.sockets[k].cookies.None? && s'.sockets[k].cookies == Some(s.jar)
                && s.identity == s.sockets[k].openedFor)
  {
    if !e.SocketUpgrades? {
      OtherEventsKeep(s, e, k);
      hide Do, Good;
    }
  }

  /** The cookies of a socket are those of the jar at its upgrade, when the hook had the identity it was made for. */
  lemma {:induction false} CookiesFromJar(user: Identity, jar: Identity, events: seq<Event>, k: SocketId)
    returns (j: nat)
    requires k in Run(user, jar, events).sockets && Run(user, jar, events).sockets[k].cookies.Some?
    ensures UpgradedAt(user, jar, events, j, k)
    ensures var s := Run(user, jar, events[..j]);
            var b := Run(user, jar, events).sockets[k];
            b.cookies == Some(s.jar) && b.openedFor == s.identity
  {
    j := 0;
    if events != [] {
      var front, last := events[..|events| - 1], events[|events| - 1];
      RunGood(user, jar, front);
      SocketStep(Run(user, jar, front), last, k);
      hide Do, Good;
      var s := Run(user, jar, front);
      if k in s.sockets && s.sockets[k].cookies.Some? {
        j := CookiesFromJar(user, jar, front, k);
        assert front[..j] == events[..j] && front[j] == events[j];
      } else {
        j := |events| - 1;
      }
    }
  }

  /**
    Whose frames are dispatched: a dispatched frame came with the cookies of the hook's identity if
    and only if the browser's cookies were that identity's when the upgrade of its socket was sent.
   */
  lemma CookiesMatchExactly(user: Identity, jar: Identity, events: seq<Event>, i: nat) returns (j: nat)
    requires i < |Run(user, jar, events).dispatched|
    ensures var s := Run(user, jar, events);
            var d := s.dispatched[i];
            && d.socket in s.sockets
            && UpgradedAt(user, jar, events, j, d.socket)
            && var before := Run(user, jar, events[..j]);
               && before.identity == d.identity
               && (s.sockets[d.socket].cookies == Some(d.identity) <==> before.jar == before.identity)
  {
    var s := Run(user, jar, events);
    RunGood(user, jar, events);
    assert s.dispatched[i] in s.dispatched;
    j := CookiesFromJar(user, jar, events, s.dispatched[i].socket);
    hide Run;
  }

  /** If the browser's cookies agree with the hook whenever an upgrade is sent, no other user's frame is dispatched. */
  lemma AgreeingJarSuffices(user: Identity, jar: Identity, events: seq<Event>)
    requires forall j: nat | j < |events| && events[j].SocketUpgrades? ::
               Run(user, jar, events[..j]).jar == Run(user, jar, events[..j]).identity
    ensures var s := Run(user, jar, events);
            forall i: nat | i < |s.dispatched| ::
              s.dispatched[i].socket in s.sockets
              && s.sockets[s.dispatched[i].socket].cookies == Some(s.dispatched[i].identity)
  {
    var s := Run(user, jar, events);
    forall i: nat | i < |s.dispatched|
      ensures s.dispatched[i].socket in s.sockets
              && s.sockets[s.dispatched[i].socket].cookies == Some(s.dispatched[i].identity)
    {
      var j := CookiesMatchExactly(user, jar, events, i);
    }
    hide Run;
  }

  /** Otherwise it is: another tab signs another user in just before a new socket is upgraded. */
  lemma OtherTabsFramesAreDispatched(s: State, k: SocketId, v: Identity, frame: Frame)
    requires Good(s) && s.current == Some(k) && s.sockets[k].ready == Connecting && s.sockets[k].cookies.None?
    requires v != s.identity
    ensures var established := Do(Do(Do(s, CookiesChange(v)), SocketUpgrades(k)), SocketOpens(k));
            var s' := Do(established, SocketReceives(k, frame));
            && s'.dispatched == s.dispatched + [Dispatch(k, frame, s.identity)]
            && k in s'.sockets && s'.sockets[k].cookies == Some(v)
  {
    var upgraded := Do(Do(s, CookiesChange(v)), SocketUpgrades(k));
    assert upgraded.current == Some(k) && upgraded.sockets[k].ready == Connecting && upgraded.sockets[k].attached;
    assert upgraded.sockets[k].cookies == Some(v) && upgraded.dispatched == s.dispatched;
    assert upgraded.identity == s.identity;
    hide Good;
  }

  /** A timer that fires with no socket brings one at once. */
  lemma ReconnectBringsSocket(user: Identity, jar: Identity, events: seq<Event>, t: TimerId)
    requires t in Run(user, jar, events).timeouts
    ensures Do(Run(user, jar, events), TimeoutFires(t)).current.Some?
  {
    var s := Run(user, jar, events);
    RunGood(user, jar, events);
    EnsuredGood(s.(timeouts := s.timeouts - {t}));
    hide Run;
  }

  // ---------------------------------------------------------------------------
  // What the page is shown
  // ---------------------------------------------------------------------------

  /** Signing in as the identity already held, as at mount, leaves a healthy socket alone. */
  lemma SameIdentityKeepsSocket(s: State)
    ensures Do(s, SignIn(s.identity)) == s
  {
  }

  /** Signing in as somebody else puts a new socket in the place of the current one, which is heard no more. */
  lemma SignInReplaces(s: State, user: Identity)
    requires Good(s) && s.mounted && user != s.identity
    ensures var s' := Do(s, SignIn(user));
            && s'.current == Some(s.nextSocket) && s.nextSocket in s'.sockets && s'.identity == user && !s'.connected
            && s'.sockets[s.nextSocket] == Browser(Connecting, true, user, None)
            && s'.intervals == {} && s'.timeouts == {}
            && forall k | k in s.sockets ::
                 k in s'.sockets && !Live(s'.sockets[k]) && (s.current == Some(k) ==> !s'.sockets[k].attached)
  {
    DisposedFits(s, user);
    DisposedShape(s.(identity := user));
    hide Disposed, TimersFit, CurrentFits;
  }

  lemma DisposedShape(s: State)
    ensures var s' := Disposed(s);
            && s'.sockets.Keys == s.sockets.Keys && s'.nextSocket == s.nextSocket
            && !s'.connected && s'.identity == s.identity
            && forall k | k in s.sockets && s.current == Some(k) :: !s'.sockets[k].attached
  {
  }

  /** Mounting brings a live socket for the identity held; unmounting leaves no live socket and no timer. */
  lemma MountAndUnmount(s: State, user: Identity)
    requires Good(s)
    ensures var s' := Do(s, Mount);
            && s'.mounted && s'.identity == s.identity
            && (!s.mounted ==> s'.current.Some? && s'.current.value in s'.sockets
                               && s'.sockets[s'.current.value] == Browser(Connecting, true, s.identity, None))
    ensures var s' := Do(s, Unmount);
            && !s'.mounted && s'.current.None? && s'.intervals == {} && s'.timeouts == {}
            && forall k | k in s'.sockets :: !Live(s'.sockets[k])
    ensures Do(s, SignIn(user)).identity == user
  {
    UnmountGood(s);
    if s.mounted {
      SameIdentityAfter(s, user);
    }
    hide Disposed, TimersFit;
  }

  lemma SameIdentityAfter(s: State, user: Identity)
    ensures Do(s, SignIn(user)).identity == user
    ensures !Do(s, Unmount).mounted
  {
  }

  /** The page is shown that it is connected while the current socket is open, and not before or without one. */
  predicate Shown(s: State) {
    if s.current.None? || s.current.value !in s.sockets then !s.connected
    else
      match s.sockets[s.current.value].ready
      case Connecting => !s.connected
      case Opened => s.connected
      case _ => true
  }

  /** A socket is opened in place of one that was open and has begun to close. */
  predicate Replaces(s: State, e: Event) {
    && s.connected && ((e.Call? && s.mounted) || (e.TimeoutFires? && e.timer in s.timeouts))
    && s.current.Some? && s.current.value in s.sockets && !Live(s.sockets[s.current.value])
  }

  lemma DisposedIsShown(s: State, user: Identity)
    ensures Shown(Disposed(s.(identity := user))) && !Disposed(s.(identity := user)).connected
    ensures Shown(Ensured(Disposed(s.(identity := user))))
  {
  }

  lemma EnsuringShown(s: State, e: Event)
    requires Good(s) && Shown(s) && (e.Mount? || e.Call? || e.TimeoutFires?)
    ensures Shown(Do(s, e)) <==> !Replaces(s, e)
  {
    hide TimersFit, SocketsFit;
  }

  lemma SocketShown(s: State, e: Event)
    requires Good(s) && Shown(s) && (e.SocketUpgrades? || e.SocketOpens? || e.SocketBeginsClosing? || e.SocketReceives?)
    ensures Shown(Do(s, e))
  {
    hide TimersFit, SocketsFit;
  }

  lemma ClosesShown(s: State, k: SocketId)
    requires Good(s) && Shown(s)
    ensures Shown(Do(s, SocketCloses(k)))
  {
    hide TimersFit, SocketsFit;
  }

  /** Exactly when an event leaves the page rightly informed. */
  lemma ShownExactly(s: State, e: Event)
    requires Good(s) && Shown(s)
    ensures Shown(Do(s, e)) <==> !Replaces(s, e)
  {
    match e
    case Mount => EnsuringShown(s, e);
    case Unmount =>
      DisposedIsShown(s.(mounted := false), s.identity);
      assert s.(mounted := false).(identity := s.identity) == s.(mounted := false);
      hide Disposed, Good;
    case SignIn(user) =>
      DisposedIsShown(s, user);
      hide Disposed, Ensured, Good;
    case CookiesChange(user) =>
    case SocketUpgrades(k) => SocketShown(s, e);
    case Call => EnsuringShown(s, e);
    case SocketOpens(k) => SocketShown(s, e);
    case SocketBeginsClosing(k) => SocketShown(s, e);
    case SocketCloses(k) => ClosesShown(s, k);
    case SocketReceives(k, frame) => SocketShown(s, e);
    case TimeoutFires(t) => EnsuringShown(s, e);
  }

  predicate NeverReplaces(user: Identity, jar: Identity, events: seq<Event>) {
    events == [] ||
    (NeverReplaces(user, jar, events[..|events| - 1])
     && !Replaces(Run(user, jar, events[..|events| - 1]), events[|events| - 1]))
  }

  lemma NeverStep(user: Identity, jar: Identity, events: seq<Event>)
    requires events != []
    ensures var front := events[..|events| - 1];
            NeverReplaces(user, jar, events) <==>
              NeverReplaces(user, jar, front) && !Replaces(Run(user, jar, front), events[|events| - 1])
  {
    hide Replaces, Run;
  }

  lemma StartShown(user: Identity, jar: Identity)
    ensures Run(user, jar, []) == Start(user, jar) && Shown(Start(user, jar)) && NeverReplaces(user, jar, [])
  {
  }

  /**
    The page is rightly informed all along exactly in the runs that open no socket while the open
    one is closing: until the new socket opens, the page is then shown the old connection.
   */
  lemma {:induction false} ShownThroughout(user: Identity, jar: Identity, events: seq<Event>)
    ensures NeverReplaces(user, jar, events) <==> forall k | 0 <= k <= |events| :: Shown(Run(user, jar, events[..k]))
  {
    hide *;
    if events == [] {
      StartShown(user, jar);
      assert events[..0] == [];
    } else {
      var front, last := events[..|events| - 1], events[|events| - 1];
      RunStep(user, jar, events);
      RunGood(user, jar, front);
      ShownThroughout(user, jar, front);
      NeverStep(user, jar, events);
      var s := Run(user, jar, front);
      assert events[..|events|] == events && events[..|front|] == front;
      assert forall k | 0 <= k <= |front| :: events[..k] == front[..k];
      if Shown(s) {
        ShownExactly(s, last);
      } else {
        assert front[..|front|] == front;
      }
    }
  }
}
