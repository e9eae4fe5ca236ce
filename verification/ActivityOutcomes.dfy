/**
  Who may launch, join and end a game, and when a leave ends one, from the log of what has
  happened before (rust/src/domain/activities.rs:108-327, 466-539), over whole runs of the atomic
  operations.
 */
module ActivityOutcomes {
  import opened Wrappers
  import opened Activities
  import opened ActivityHistory

  // ---------------------------------------------------------------------------
  // What the log says about instances and seats
  // ---------------------------------------------------------------------------

  predicate Begins(e: Event, n: InstanceId) {
    e.Launched? && e.instance == n
  }

  /** The game is ended, or its last player leaves. */
  predicate Stops(e: Event, n: InstanceId) {
    (e.Ended? && e.instance == n) || (e.Left? && e.last && e.seat.instance == n)
  }

  /** The launch seats the user who launches. */
  predicate Takes(e: Event, s: Seat) {
    (e.Launched? && s == Seat(e.instance, e.user)) || (e.Joined? && s == e.seat)
  }

  predicate GivesUp(e: Event, s: Seat) {
    e.Left? && e.seat == s
  }

  ghost predicate RunningSince(log: seq<Event>, i: nat, n: InstanceId) {
    i < |log| && Begins(log[i], n) && forall j | i < j < |log| :: !Stops(log[j], n)
  }

  ghost predicate Running(log: seq<Event>, n: InstanceId) {
    exists i: nat :: RunningSince(log, i, n)
  }

  ghost predicate TakenSince(log: seq<Event>, i: nat, s: Seat) {
    i < |log| && Takes(log[i], s) && forall j | i < j < |log| :: !GivesUp(log[j], s)
  }

  ghost predicate Taken(log: seq<Event>, s: Seat) {
    exists i: nat :: TakenSince(log, i, s)
  }

  lemma RunningAppend(log: seq<Event>, e: Event, n: InstanceId)
    ensures Running(log + [e], n) <==> Begins(e, n) || (Running(log, n) && !Stops(e, n))
  {
    var log' := log + [e];
    if Begins(e, n) {
      assert RunningSince(log', |log|, n);
    }
    if i: nat :| RunningSince(log, i, n) && !Stops(e, n) {
      assert RunningSince(log', i, n);
    }
    if i: nat :| RunningSince(log', i, n) && !Begins(e, n) {
      assert !Stops(log'[|log|], n);
      assert forall j | 0 <= j < |log| :: log'[j] == log[j];
      assert RunningSince(log, i, n);
    }
  }

  lemma TakenAppend(log: seq<Event>, e: Event, s: Seat)
    ensures Taken(log + [e], s) <==> Takes(e, s) || (Taken(log, s) && !GivesUp(e, s))
  {
    var log' := log + [e];
    if Takes(e, s) {
      assert TakenSince(log', |log|, s);
    }
    if i: nat :| TakenSince(log, i, s) && !GivesUp(e, s) {
      assert TakenSince(log', i, s);
    }
    if i: nat :| TakenSince(log', i, s) && !Takes(e, s) {
      assert !GivesUp(log'[|log|], s);
      assert forall j | 0 <= j < |log| :: log'[j] == log[j];
      assert TakenSince(log, i, s);
    }
  }

  // ---------------------------------------------------------------------------
  // The tables say the same
  // ---------------------------------------------------------------------------

  /** The instance is the one launched at `i`. */
  predicate FoundedAt(log: seq<Event>, i: nat, n: InstanceId, row: Instance) {
    i < |log| && log[i] == Launched(n, row.activity, row.group, row.createdBy)
  }

  ghost predicate InstanceAt(t: Tables, log: seq<Event>, n: InstanceId) {
    && (IsActive(t, n) <==> Running(log, n))
    && (n in t.instances ==> exists i: nat :: FoundedAt(log, i, n, t.instances[n]))
  }

  ghost predicate LaunchAt(t: Tables, log: seq<Event>, i: nat)
    requires i < |log|
  {
    log[i].Launched? ==>
      && log[i].instance in t.instances
      && FoundedAt(log, i, log[i].instance, t.instances[log[i].instance])
  }

  ghost predicate EndAllowed(log: seq<Event>, k: nat)
    requires k < |log| && log[k].Ended?
  {
    log[k].role == Admin || exists i: nat :: i < k && Begins(log[i], log[k].instance) && log[i].user == log[k].user
  }

  ghost predicate Registered(t: Tables, log: seq<Event>) {
    && (forall n :: InstanceAt(t, log, n))
    && (forall i | 0 <= i < |log| :: LaunchAt(t, log, i))
    && (forall s :: s in t.seats <==> Taken(log, s))
    && (forall i, j | 0 <= i < j < |log| && log[i].Launched? && log[j].Launched? :: log[i].instance != log[j].instance)
    && (forall k | 0 <= k < |log| && log[k].Ended? :: EndAllowed(log, k))
  }

  /** What an event does to the instances and the seats. */
  ghost predicate Moved(t: Tables, e: Event, t': Tables) {
    && (forall n :: n in t'.instances <==> n in t.instances || Begins(e, n))
    && (forall n | n in t.instances && !Begins(e, n) ::
          t'.instances[n] == if Stops(e, n) then t.instances[n].(active := false) else t.instances[n])
    && (e.Launched? ==>
          e.instance !in t.instances && t'.instances[e.instance] == Instance(e.activity, e.group, e.user, true))
    && (forall s :: s in t'.seats <==> Takes(e, s) || (s in t.seats && !GivesUp(e, s)))
  }

  lemma EndRowMoves(t: Tables, n: InstanceId)
    ensures var t' := EndRow(t, n);
            && t'.instances.Keys == t.instances.Keys && t'.seats == t.seats
            && (forall m | m in t.instances ::
                  t'.instances[m] == if m == n then t.instances[m].(active := false) else t.instances[m])
  {
  }

  lemma LeaveMoves(t: Tables, n: InstanceId, user: UserId)
    ensures Moved(t, Left(Seat(n, user), Leave(t, n, user).1), Leave(t, n, user).0)
  {
    var seat := Seat(n, user);
    var left := t.(
      tokens := map k | k in t.tokens && t.tokens[k].seat != seat :: t.tokens[k],
      codes := map k | k in t.codes && t.codes[k].seat != seat :: t.codes[k],
      seats := t.seats - {seat});
    assert Leave(t, n, user) == if SeatsOf(left.seats, n) == {} then (EndRow(left, n), true) else (left, false);
    EndRowMoves(left, n);
    hide Leave, EndRow, SeatsOf;
  }

  lemma LaunchMoves(t: Tables, activity: ActivityId, group: GroupId, user: UserId, role: Role)
    requires t.nextInstance !in t.instances
    ensures var (t', r) := Launch(t, activity, group, user, role);
            if r.Ok? then Moved(t, Launched(r.value, activity, group, user), t') else t' == t
  {
    hide ActiveIn;
  }

  lemma JoinMoves(t: Tables, n: InstanceId, user: UserId, role: Role, now: Time, code: Secret)
    requires Sound(t)
    ensures var (t', r) := Join(t, n, user, role, now, code);
            if r.Ok? then Moved(t, Joined(Seat(n, user), code, now + LAUNCH_CODE_TTL), t') else t' == t
  {
    if Join(t, n, user, role, now, code).1.Err? {
      FullJoinChangesNothing(t, n, user, role, now, code);
    }
    hide SeatsOf, Swept, Sound;
  }

  lemma EndMoves(t: Tables, n: InstanceId, user: UserId, role: Role)
    ensures var (t', r) := End(t, n, user, role);
            if r.Ok? then Moved(t, Ended(n, user, role), t') else t' == t
  {
    EndRowMoves(t, n);
    hide EndRow;
  }

  ghost predicate Follows(w: World, w': World) {
    if w'.log == w.log then w'.t.instances == w.t.instances && w'.t.seats == w.t.seats
    else |w'.log| == |w.log| + 1 && w'.log[..|w.log|] == w.log && Moved(w.t, w'.log[|w.log|], w'.t)
  }

  /** Every operation changes the instances and seats as its event says, and not at all without one. */
  lemma ApplyMoves(w: World, op: Op, now: Time)
    requires Sound(w.t)
    ensures Follows(w, Apply(w, op, now))
  {
    match op
    case DoLaunch(activity, group, user, role) =>
      LaunchMoves(w.t, activity, group, user, role);
      hide Launch, Moved, Sound;
    case DoJoin(n, user, role, code) =>
      JoinMoves(w.t, n, user, role, now, code);
      hide Join, Moved, Sound;
    case DoExchange(n, code, token) =>
      ExchangeMoves(w.t, n, code, now, token);
      hide Exchange, Moved, Sound;
    case DoLeave(n, user) =>
      LeaveMoves(w.t, n, user);
      hide Leave, Moved, Sound;
    case DoEnd(n, user, role) =>
      EndMoves(w.t, n, user, role);
      hide End, Moved, Sound;
  }

  lemma ExchangeMoves(t: Tables, n: InstanceId, code: Secret, now: Time, token: Secret)
    ensures var (t', r) := Exchange(t, n, code, now, token);
            && t'.instances == t.instances && t'.seats == t.seats
            && (r.Ok? ==> Moved(t, Exchanged(Seat(n, r.value), code, token, now + INSTANCE_TOKEN_TTL), t'))
  {
  }

  lemma InstanceNext(t: Tables, log: seq<Event>, e: Event, t': Tables, n: InstanceId)
    requires InstanceAt(t, log, n) && Moved(t, e, t')
    ensures InstanceAt(t', log + [e], n)
  {
    RunningAppend(log, e, n);
    hide Running;
    if Begins(e, n) {
      assert FoundedAt(log + [e], |log|, n, t'.instances[n]);
    } else if n in t.instances {
      var i: nat :| FoundedAt(log, i, n, t.instances[n]);
      assert FoundedAt(log + [e], i, n, t'.instances[n]);
    }
  }

  lemma LaunchNext(t: Tables, log: seq<Event>, e: Event, t': Tables, i: nat)
    requires Moved(t, e, t') && i <= |log| && (i < |log| ==> LaunchAt(t, log, i))
    ensures LaunchAt(t', log + [e], i)
  {
  }

  lemma EndAllowedNext(log: seq<Event>, e: Event, k: nat)
    requires k < |log| && log[k].Ended? && EndAllowed(log, k)
    ensures EndAllowed(log + [e], k)
  {
    var log' := log + [e];
    if i: nat :| i < k && Begins(log[i], log[k].instance) && log[i].user == log[k].user {
      assert i < k && Begins(log'[i], log'[k].instance) && log'[i].user == log'[k].user;
    }
  }

  lemma RegisteredNext(t: Tables, log: seq<Event>, e: Event, t': Tables)
    requires Registered(t, log) && Moved(t, e, t')
    requires e.Ended? ==> EndAllowed(log + [e], |log|)
    ensures Registered(t', log + [e])
  {
    var log' := log + [e];
    forall n ensures InstanceAt(t', log', n) {
      InstanceNext(t, log, e, t', n);
    }
    forall i | 0 <= i < |log'| ensures LaunchAt(t', log', i) {
      LaunchNext(t, log, e, t', i);
    }
    forall s ensures s in t'.seats <==> Taken(log', s) {
      TakenAppend(log, e, s);
    }
    forall k | 0 <= k < |log'| && log'[k].Ended? ensures EndAllowed(log', k) {
      if k < |log| {
        EndAllowedNext(log, e, k);
      }
    }
    forall i, j | 0 <= i < j < |log'| && log'[i].Launched? && log'[j].Launched?
      ensures log'[i].instance != log'[j].instance
    {
      assert LaunchAt(t, log, i);
    }
    hide InstanceAt, LaunchAt, EndAllowed, Taken, Moved;
  }

  /** Who has launched the instance, for an end that goes through. */
  lemma EndIsAllowed(t: Tables, log: seq<Event>, n: InstanceId, user: UserId, role: Role)
    requires Registered(t, log) && End(t, n, user, role).1.Ok?
    ensures EndAllowed(log + [Ended(n, user, role)], |log|)
  {
    var log' := log + [Ended(n, user, role)];
    assert InstanceAt(t, log, n);
    var i: nat :| FoundedAt(log, i, n, t.instances[n]);
    assert Begins(log'[i], n);
    hide EndRow;
  }

  lemma NothingRegistered(catalog: map<ActivityId, nat>)
    ensures Registered(Tables(catalog, map[], 1, {}, map[], map[]), [])
  {
  }

  lemma RegisteredSame(t: Tables, log: seq<Event>, t': Tables)
    requires Registered(t, log) && t'.instances == t.instances && t'.seats == t.seats
    ensures Registered(t', log)
  {
    forall n ensures InstanceAt(t', log, n) {
      assert InstanceAt(t, log, n);
    }
    forall i | 0 <= i < |log| ensures LaunchAt(t', log, i) {
      assert LaunchAt(t, log, i);
    }
    hide Running, Taken, EndAllowed;
  }

  lemma ApplyRegistered(w: World, op: Op, now: Time)
    requires Sound(w.t) && Registered(w.t, w.log)
    ensures Registered(Apply(w, op, now).t, Apply(w, op, now).log)
  {
    var w' := Apply(w, op, now);
    ApplyMoves(w, op, now);
    if op.DoEnd? && w'.log != w.log {
      EndIsAllowed(w.t, w.log, op.instance, op.user, op.role);
    }
    if w'.log == w.log {
      RegisteredSame(w.t, w.log, w'.t);
    } else {
      var e := w'.log[|w.log|];
      assert w'.log == w.log + [e];
      assert e.Ended? ==> op.DoEnd? && e == Ended(op.instance, op.user, op.role);
      hide Registered, Moved, Apply;
      RegisteredNext(w.t, w.log, e, w'.t);
    }
  }

  lemma {:induction false} RunRegistered(catalog: map<ActivityId, nat>, start: Time, ops: seq<TimedOp>)
    requires forall a | a in catalog :: catalog[a] >= 1
    ensures var w := Run(catalog, start, ops);
            Sound(w.t) && Registered(w.t, w.log) && w.t.catalog == catalog
  {
    RunSound(catalog, start, ops);
    if ops == [] {
      NothingRegistered(catalog);
    } else {
      var w, last := Run(catalog, start, ops[..|ops| - 1]), ops[|ops| - 1];
      RunRegistered(catalog, start, ops[..|ops| - 1]);
      hide Registered, Sound, Possible;
      if Possible(w, last.op, last.now) {
        ApplyRegistered(w, last.op, last.now);
        SameCatalog(w, last.op, last.now);
      }
      hide Apply;
    }
  }

  lemma SameCatalog(w: World, op: Op, now: Time)
    ensures Apply(w, op, now).t.catalog == w.t.catalog
  {
  }

  // ---------------------------------------------------------------------------
  // Launching
  // ---------------------------------------------------------------------------

  /** The games of the group that are going on. */
  ghost function Games(log: seq<Event>, group: GroupId): set<InstanceId> {
    set i | 0 <= i < |log| && log[i].Launched? && log[i].group == group && Running(log, log[i].instance)
      :: log[i].instance
  }

  lemma GamesAreActive(t: Tables, log: seq<Event>, group: GroupId)
    requires Registered(t, log)
    ensures Games(log, group) == ActiveIn(t.instances, group)
  {
    hide Running, Taken, EndAllowed;
    forall n | n in ActiveIn(t.instances, group) ensures n in Games(log, group) {
      assert InstanceAt(t, log, n);
      var i: nat :| FoundedAt(log, i, n, t.instances[n]);
      assert log[i].Launched? && log[i].instance == n;
    }
    forall n | n in Games(log, group) ensures n in ActiveIn(t.instances, group) {
      var i :| 0 <= i < |log| && log[i].Launched? && log[i].group == group && Running(log, log[i].instance)
               && log[i].instance == n;
      assert LaunchAt(t, log, i) && InstanceAt(t, log, n);
    }
  }

  /**
    After any run a launch succeeds if and only if the activity is in the catalog, the caller is in
    the group, and fewer than three games of the group are going on by the log; otherwise nothing
    changes.
   */
  lemma LaunchExactly(catalog: map<ActivityId, nat>, start: Time, ops: seq<TimedOp>,
                      activity: ActivityId, group: GroupId, user: UserId, role: Role)
    requires forall a | a in catalog :: catalog[a] >= 1
    ensures var w := Run(catalog, start, ops);
            var (t', r) := Launch(w.t, activity, group, user, role);
            && (r.Ok? <==> activity in catalog && role != NotMember && |Games(w.log, group)| < 3)
            && (r == Err(NotFound) <==> activity !in catalog)
            && (r == Err(Forbidden) <==> activity in catalog && role == NotMember)
            && (r.Err? ==> t' == w.t)
  {
    var w := Run(catalog, start, ops);
    RunRegistered(catalog, start, ops);
    GamesAreActive(w.t, w.log, group);
    hide Run, Registered, Sound, Games, ActiveIn;
  }

  // ---------------------------------------------------------------------------
  // Joining and leaving
  // ---------------------------------------------------------------------------

  /** The players of the instance, by the log. */
  ghost function Players(log: seq<Event>, n: InstanceId): set<UserId> {
    set i | 0 <= i < |log| && Arrives(log[i], n) && Taken(log, Seat(n, Arriving(log[i]))) :: Arriving(log[i])
  }

  predicate Arrives(e: Event, n: InstanceId) {
    Begins(e, n) || (e.Joined? && e.seat.instance == n)
  }

  function Arriving(e: Event): UserId
    requires e.Launched? || e.Joined?
  {
    if e.Launched? then e.user else e.seat.user
  }

  lemma PlayersExactly(log: seq<Event>, n: InstanceId, user: UserId)
    ensures user in Players(log, n) <==> Taken(log, Seat(n, user))
  {
    if i: nat :| TakenSince(log, i, Seat(n, user)) {
      assert Taken(log, Seat(n, user));
      assert Arrives(log[i], n) && Arriving(log[i]) == user;
    }
    hide Taken;
  }

  lemma SeatsOfPlayers(t: Tables, log: seq<Event>, n: InstanceId)
    requires Registered(t, log)
    ensures forall s :: s in SeatsOf(t.seats, n) <==> s.instance == n && s.user in Players(log, n)
  {
    forall s ensures s in SeatsOf(t.seats, n) <==> s.instance == n && s.user in Players(log, n) {
      PlayersExactly(log, n, s.user);
      assert s.instance == n ==> s == Seat(n, s.user);
    }
    hide Players, Taken;
  }

  lemma {:induction false} SameSize(seats: set<Seat>, users: set<UserId>, n: InstanceId)
    requires forall s :: s in seats <==> s.instance == n && s.user in users
    ensures |seats| == |users|
    decreases users
  {
    if users == {} {
      assert seats == {};
    } else {
      var u :| u in users;
      assert Seat(n, u) in seats;
      assert seats == (seats - {Seat(n, u)}) + {Seat(n, u)} && users == (users - {u}) + {u};
      SameSize(seats - {Seat(n, u)}, users - {u}, n);
    }
  }

  /** The launch at `i` made the instance, it is going on, and with the user it has no more players than it may have. */
  ghost predicate Joinable(catalog: map<ActivityId, nat>, log: seq<Event>, i: nat, n: InstanceId, user: UserId) {
    && RunningSince(log, i, n) && log[i].activity in catalog
    && |Players(log, n) + {user}| <= catalog[log[i].activity]
  }

  /**
    After any run a join succeeds if and only if the caller is in the group and the instance was
    launched, is going on by the log, and has room for the caller by the log. Otherwise the tables
    stay as they are: for an instance that was never launched the error is NotFound, for one that
    is over Invalid.
   */
  lemma JoinExactly(catalog: map<ActivityId, nat>, start: Time, ops: seq<TimedOp>,
                    n: InstanceId, user: UserId, role: Role, now: Time, code: Secret)
    requires forall a | a in catalog :: catalog[a] >= 1
    ensures var w := Run(catalog, start, ops);
            var (t', r) := Join(w.t, n, user, role, now, code);
            && (r.Ok? <==> role != NotMember && exists i: nat :: Joinable(catalog, w.log, i, n, user))
            && (r == Err(NotFound) <==> forall i | 0 <= i < |w.log| :: !Begins(w.log[i], n))
            && (r == Err(Forbidden) <==> Running(w.log, n) && role == NotMember)
            && (r.Err? ==> t' == w.t)
  {
    var w := Run(catalog, start, ops);
    RunRegistered(catalog, start, ops);
    hide Run;
    JoinByLog(w.t, w.log, n, user, role, now, code);
    hide *;
  }

  lemma JoinByLog(t: Tables, log: seq<Event>, n: InstanceId, user: UserId, role: Role, now: Time, code: Secret)
    requires Sound(t) && Registered(t, log)
    ensures var (t', r) := Join(t, n, user, role, now, code);
            && (r.Ok? <==> role != NotMember && exists i: nat :: Joinable(t.catalog, log, i, n, user))
            && (r == Err(NotFound) <==> forall i | 0 <= i < |log| :: !Begins(log[i], n))
            && (r == Err(Forbidden) <==> Running(log, n) && role == NotMember)
            && (r.Err? ==> t' == t)
  {
    NeverLaunched(t, log, n);
    JoinMoves(t, n, user, role, now, code);
    JoinResult(t, n, user, role, now, code);
    RoomExactly(t, log, n, user);
    RunningInstance(t, log, n);
    hide *;
    if IsActive(t, n) {
      var i: nat :| RunningSince(log, i, n);
      assert Joinable(t.catalog, log, i, n, user) <==> |Players(log, n) + {user}| <= t.catalog[log[i].activity];
    }
  }

  /** When a join goes through in sound tables, and what else it says. */
  lemma JoinResult(t: Tables, n: InstanceId, user: UserId, role: Role, now: Time, code: Secret)
    requires Sound(t)
    ensures var r := Join(t, n, user, role, now, code).1;
            && (r.Ok? <==>
                && IsActive(t, n) && role != NotMember && t.instances[n].activity in t.catalog
                && |SeatsOf(t.seats + {Seat(n, user)}, n)| <= t.catalog[t.instances[n].activity])
            && (r == Err(NotFound) <==> n !in t.instances)
            && (r == Err(Forbidden) <==> IsActive(t, n) && role == NotMember)
  {
    assert IsActive(t, n) ==> WithinCapacity(t, n);
    hide SeatsOf, Swept, Sound;
  }

  lemma RunningInstance(t: Tables, log: seq<Event>, n: InstanceId)
    requires Registered(t, log)
    ensures IsActive(t, n) <==> exists i: nat :: RunningSince(log, i, n)
    ensures IsActive(t, n) <==> Running(log, n)
    ensures forall i: nat | RunningSince(log, i, n) :: log[i].activity == t.instances[n].activity
    ensures forall i: nat, j: nat | RunningSince(log, i, n) && RunningSince(log, j, n) :: i == j
  {
    assert InstanceAt(t, log, n);
    forall i: nat | RunningSince(log, i, n) ensures log[i].activity == t.instances[n].activity {
      assert LaunchAt(t, log, i);
    }
    OneLaunch(t, log, n);
  }

  lemma OneLaunch(t: Tables, log: seq<Event>, n: InstanceId)
    requires Registered(t, log)
    ensures forall i: nat, j: nat | RunningSince(log, i, n) && RunningSince(log, j, n) :: i == j
  {
  }

  lemma NeverLaunched(t: Tables, log: seq<Event>, n: InstanceId)
    requires Registered(t, log)
    ensures n in t.instances <==> exists i :: 0 <= i < |log| && Begins(log[i], n)
  {
    assert InstanceAt(t, log, n);
    if n in t.instances {
      var i: nat :| FoundedAt(log, i, n, t.instances[n]);
      assert Begins(log[i], n);
    }
    if i :| 0 <= i < |log| && Begins(log[i], n) {
      assert LaunchAt(t, log, i);
    }
    hide Running, Taken, EndAllowed;
  }

  lemma RoomExactly(t: Tables, log: seq<Event>, n: InstanceId, user: UserId)
    requires Registered(t, log)
    ensures |SeatsOf(t.seats + {Seat(n, user)}, n)| == |Players(log, n) + {user}|
  {
    SeatsOfPlayers(t, log, n);
    SeatsOfPlus(t.seats, Seat(n, user), n);
    SameSize(SeatsOf(t.seats + {Seat(n, user)}, n), Players(log, n) + {user}, n);
    hide *;
  }

  /** A leave ends the game exactly if nobody else is playing by the log; nobody else's seat is touched. */
  lemma LeaveExactly(catalog: map<ActivityId, nat>, start: Time, ops: seq<TimedOp>, n: InstanceId, user: UserId)
    requires forall a | a in catalog :: catalog[a] >= 1
    ensures var w := Run(catalog, start, ops);
            var (t', ended) := Leave(w.t, n, user);
            && (ended <==> Players(w.log, n) <= {user})
            && (forall s :: s in t'.seats <==> Taken(w.log, s) && s != Seat(n, user))
            && (forall m :: IsActive(t', m) <==> Running(w.log, m) && !(m == n && ended))
  {
    var w := Run(catalog, start, ops);
    RunRegistered(catalog, start, ops);
    hide Run;
    LeaveMoves(w.t, n, user);
    SeatsOfPlayers(w.t, w.log, n);
    assert Leave(w.t, n, user).1 <==> SeatsOf(w.t.seats - {Seat(n, user)}, n) == {};
    SeatsOfPlus(w.t.seats, Seat(n, user), n);
    hide Leave, Sound, SeatsOf, Players, Taken;
    forall m ensures IsActive(Leave(w.t, n, user).0, m) <==> Running(w.log, m) && !(m == n && Leave(w.t, n, user).1) {
      assert InstanceAt(w.t, w.log, m);
    }
    hide Registered, Moved;
    assert forall u | u in Players(w.log, n) && u != user :: Seat(n, u) in SeatsOf(w.t.seats, n);
  }

  // ---------------------------------------------------------------------------
  // Ending
  // ---------------------------------------------------------------------------

  /**
    After any run a call ends the instance if and only if its caller launched it, by the log, or it
    was launched and the caller is an admin of its group. Then it is no longer going on and every
    other instance and all seats are as they were; otherwise nothing changes.
   */
  lemma EndExactly(catalog: map<ActivityId, nat>, start: Time, ops: seq<TimedOp>,
                   n: InstanceId, user: UserId, role: Role)
    requires forall a | a in catalog :: catalog[a] >= 1
    ensures var w := Run(catalog, start, ops);
            var (t', r) := End(w.t, n, user, role);
            && (r.Ok? <==>
                exists i :: 0 <= i < |w.log| && Begins(w.log[i], n) && (w.log[i].user == user || role == Admin))
            && (r == Err(NotFound) <==> forall i | 0 <= i < |w.log| :: !Begins(w.log[i], n))
            && (r.Err? ==> t' == w.t)
            && (r.Ok? ==>
                  && (forall m :: IsActive(t', m) <==> Running(w.log, m) && m != n)
                  && (forall s :: s in t'.seats <==> Taken(w.log, s)))
  {
    var w := Run(catalog, start, ops);
    RunRegistered(catalog, start, ops);
    hide Run;
    EndRowMoves(w.t, n);
    NeverLaunched(w.t, w.log, n);
    forall m ensures IsActive(w.t, m) <==> Running(w.log, m) {
      assert InstanceAt(w.t, w.log, m);
    }
    forall i | 0 <= i < |w.log| && Begins(w.log[i], n)
      ensures n in w.t.instances && w.log[i].user == w.t.instances[n].createdBy
    {
      assert LaunchAt(w.t, w.log, i);
    }
    hide Registered, Sound, EndRow, Running, Taken;
  }

  /** In every run each call that ended a game was made by an admin, or by the user who had launched the game. */
  lemma EndsAuthorised(catalog: map<ActivityId, nat>, start: Time, ops: seq<TimedOp>, k: nat)
    requires forall a | a in catalog :: catalog[a] >= 1
    requires k < |Run(catalog, start, ops).log| && Run(catalog, start, ops).log[k].Ended?
    ensures var log := Run(catalog, start, ops).log;
            log[k].role == Admin ||
            exists i: nat :: i < k && Begins(log[i], log[k].instance) && log[i].user == log[k].user
  {
    RunRegistered(catalog, start, ops);
    hide Run, Sound;
    var w := Run(catalog, start, ops);
    assert EndAllowed(w.log, k);
    hide Registered;
  }

  /** Joining sweeps the expired codes of the caller's own seat, and touches no other code and no token. */
  lemma JoinSweepsOwnCodes(t: Tables, n: InstanceId, user: UserId, role: Role, now: Time, code: Secret, other: Secret)
    requires Join(t, n, user, role, now, code).1.Ok? && other != code
    ensures var t' := Join(t, n, user, role, now, code).0;
            && (other in t'.codes <==>
                other in t.codes && !(t.codes[other].seat == Seat(n, user) && now > t.codes[other].expiresAt))
            && (other in t'.codes ==> t'.codes[other] == t.codes[other])
            && t'.tokens == t.tokens
  {
    hide SeatsOf;
  }

  // ---------------------------------------------------------------------------
  // How long credentials live
  // ---------------------------------------------------------------------------

  /**
    A code just minted is good for five minutes, and the token it is exchanged for resolves to the
    seat for a day; to the second, as long as the seat and the instance stay.
   */
  lemma Lifetimes(t: Tables, n: InstanceId, user: UserId, role: Role, now: Time, code: Secret,
                  later: Time, token: Secret, last: Time)
    requires Join(t, n, user, role, now, code).1.Ok? && n != 0 && user != 0
    ensures var minted := Join(t, n, user, role, now, code).0;
            var (spent, r) := Exchange(minted, n, code, later, token);
            && (r.Ok? <==> later - now <= 300)
            && (r.Ok? ==>
                  && r.value == user && Exchange(spent, n, code, later, token).1.Err?
                  && (Identity(spent, token, last) == Some(Seat(n, user)) <==> last - later <= 86400))
  {
    hide SeatsOf, Swept;
  }
}
