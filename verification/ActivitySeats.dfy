/**
  The seat limit when joins, leaves and ends interleave statement by statement
  (rust/src/domain/activities.rs:228-295, 466-539). Inserting a seat, counting the seats and
  taking the seat back are separate statements, so the limit can be passed for a while.

  A launch is one step, and no statement fails.
 */
module ActivitySeats {
  import opened Wrappers
  import opened Activities

  /** The statement an operation is about to run. */
  datatype Process =
    | JoinReadInstance(seat: Seat)
    | JoinReadGroup(seat: Seat, activity: ActivityId)
    | JoinInsertSeat(seat: Seat, activity: ActivityId)
    | JoinReadActivity(seat: Seat, activity: ActivityId)
    | JoinCountSeats(seat: Seat, limit: nat)
    | JoinTakeBackSeat(seat: Seat)
    | JoinSweepCodes(seat: Seat)
    | JoinInsertCode(seat: Seat)
    | LeaveDeleteTokens(seat: Seat)
    | LeaveDeleteCodes(seat: Seat)
    | LeaveDeleteSeat(seat: Seat)
    | LeaveCountSeats(seat: Seat)
    | EndReadInstance(instance: InstanceId, user: UserId)
    | EndReadGroup(instance: InstanceId, mine: bool)
    | EndUpdateInstance(instance: InstanceId)
    | EndDeleteTokens(instance: InstanceId)
    | EndDeleteCodes(instance: InstanceId)
    | Finished

  /** What a statement reads from outside: the caller's role now, the clock, a drawn secret. */
  datatype Outside = Outside(role: Role, now: Time, secret: Secret)

  function Statement(t: Tables, p: Process, o: Outside): (Tables, Process) {
    match p
    case JoinReadInstance(seat) =>
      if !IsActive(t, seat.instance) then (t, Finished)
      else (t, JoinReadGroup(seat, t.instances[seat.instance].activity))
    case JoinReadGroup(seat, activity) =>
      if o.role == NotMember then (t, Finished) else (t, JoinInsertSeat(seat, activity))
    case JoinInsertSeat(seat, activity) =>
      (t.(seats := t.seats + {seat}), JoinReadActivity(seat, activity))
    case JoinReadActivity(seat, activity) =>
      if activity !in t.catalog then (t, Finished) else (t, JoinCountSeats(seat, t.catalog[activity]))
    case JoinCountSeats(seat, limit) =>
      if |SeatsOf(t.seats, seat.instance)| > limit then (t, JoinTakeBackSeat(seat)) else (t, JoinSweepCodes(seat))
    case JoinTakeBackSeat(seat) =>
      (t.(seats := t.seats - {seat}), Finished)
    case JoinSweepCodes(seat) =>
      (t.(codes := Swept(t.codes, seat, o.now)), JoinInsertCode(seat))
    case JoinInsertCode(seat) =>
      (t.(codes := t.codes[o.secret := CodeRow(seat, o.now + LAUNCH_CODE_TTL, false)]), Finished)
    case LeaveDeleteTokens(seat) =>
      (t.(tokens := map k | k in t.tokens && t.tokens[k].seat != seat :: t.tokens[k]), LeaveDeleteCodes(seat))
    case LeaveDeleteCodes(seat) =>
      (t.(codes := map k | k in t.codes && t.codes[k].seat != seat :: t.codes[k]), LeaveDeleteSeat(seat))
    case LeaveDeleteSeat(seat) =>
      (t.(seats := t.seats - {seat}), LeaveCountSeats(seat))
    case LeaveCountSeats(seat) =>
      (t, if SeatsOf(t.seats, seat.instance) == {} then EndUpdateInstance(seat.instance) else Finished)
    case EndReadInstance(n, user) =>
      if n !in t.instances then (t, Finished) else (t, EndReadGroup(n, t.instances[n].createdBy == user))
    case EndReadGroup(n, mine) =>
      (t, if mine || o.role == Admin then EndUpdateInstance(n) else Finished)
    case EndUpdateInstance(n) =>
      (if n in t.instances then t.(instances := t.instances[n := t.instances[n].(active := false)]) else t,
       EndDeleteTokens(n))
    case EndDeleteTokens(n) =>
      (t.(tokens := map k | k in t.tokens && t.tokens[k].seat.instance != n :: t.tokens[k]), EndDeleteCodes(n))
    case EndDeleteCodes(n) =>
      (t.(codes := map k | k in t.codes && t.codes[k].seat.instance != n :: t.codes[k]), Finished)
    case Finished => (t, Finished)
  }

  /** So many statements of one process, with nothing in between. */
  function Statements(t: Tables, p: Process, o: Outside, k: nat): (Tables, Process)
    decreases k
  {
    if k == 0 then (t, p)
    else
      var (t', p') := Statement(t, p, o);
      Statements(t', p', o, k - 1)
  }

  lemma TwoStatements(t: Tables, p: Process, o: Outside, k: nat)
    ensures var (t1, p1) := Statement(t, p, o);
            var (t2, p2) := Statement(t1, p1, o);
            Statements(t, p, o, 2 + k) == Statements(t2, p2, o, k)
  {
    hide Statement;
  }

  lemma FourStatements(t: Tables, p: Process, o: Outside, k: nat)
    ensures var (t1, p1) := Statement(t, p, o);
            var (t2, p2) := Statement(t1, p1, o);
            var (t3, p3) := Statement(t2, p2, o);
            var (t4, p4) := Statement(t3, p3, o);
            Statements(t, p, o, 4 + k) == Statements(t4, p4, o, k)
  {
    hide Statement, Statements;
    var (t1, p1) := Statement(t, p, o);
    var (t2, p2) := Statement(t1, p1, o);
    TwoStatements(t, p, o, 2 + k);
    TwoStatements(t2, p2, o, k);
  }

  lemma {:induction false} StatementsFinished(t: Tables, o: Outside, k: nat)
    ensures Statements(t, Finished, o, k) == (t, Finished)
    decreases k
  {
    if k > 0 {
      StatementsFinished(t, o, k - 1);
    }
  }

  /** Alone and at one moment, the statements of a join are the whole join. */
  lemma StatementsAreJoin(t: Tables, seat: Seat, o: Outside)
    ensures Statements(t, JoinReadInstance(seat), o, 8) ==
            (Join(t, seat.instance, seat.user, o.role, o.now, o.secret).0, Finished)
  {
    FourStatements(t, JoinReadInstance(seat), o, 4);
    var (t4, p4) := Statements(t, JoinReadInstance(seat), o, 4);
    FourStatements(t4, p4, o, 0);
    FourStatements(t, JoinReadInstance(seat), o, 0);
    assert t.seats + {seat} - {seat} == t.seats - {seat};
    hide Swept, SeatsOf, Statements;
  }

  lemma StatementsAreEndRow(t: Tables, n: InstanceId, o: Outside)
    ensures Statements(t, EndUpdateInstance(n), o, 4) == (EndRow(t, n), Finished)
  {
    FourStatements(t, EndUpdateInstance(n), o, 0);
    hide Statements;
  }

  /** And those of a leave the whole leave. */
  lemma StatementsAreLeave(t: Tables, seat: Seat, o: Outside)
    ensures Statements(t, LeaveDeleteTokens(seat), o, 8) == (Leave(t, seat.instance, seat.user).0, Finished)
  {
    hide Statements, EndRow, SeatsOf;
    var left := t.(
      tokens := map k | k in t.tokens && t.tokens[k].seat != seat :: t.tokens[k],
      codes := map k | k in t.codes && t.codes[k].seat != seat :: t.codes[k],
      seats := t.seats - {seat});
    FourStatements(t, LeaveDeleteTokens(seat), o, 4);
    assert Statement(left, LeaveCountSeats(seat), o).0 == left;
    hide Statement;
    if SeatsOf(left.seats, seat.instance) == {} {
      StatementsAreEndRow(left, seat.instance, o);
    } else {
      StatementsFinished(left, o, 4);
    }
  }

  /** And those of an end the whole end. */
  lemma StatementsAreEnd(t: Tables, n: InstanceId, user: UserId, o: Outside)
    ensures Statements(t, EndReadInstance(n, user), o, 6) == (End(t, n, user, o.role).0, Finished)
  {
    hide Statements, EndRow;
    TwoStatements(t, EndReadInstance(n, user), o, 4);
    StatementsFinished(t, o, 4);
    StatementsAreEndRow(t, n, o);
  }

  datatype World = World(t: Tables, processes: seq<Process>)

  datatype Step =
    | Launched(activity: ActivityId, group: GroupId, user: UserId, role: Role)
    | CallJoin(seat: Seat)
    | CallLeave(seat: Seat)
    | CallEnd(instance: InstanceId, user: UserId)
    | Execute(process: nat, outside: Outside)

  function Do(w: World, s: Step): World {
    match s
    case Launched(activity, group, user, role) => w.(t := Launch(w.t, activity, group, user, role).0)
    case CallJoin(seat) => w.(processes := w.processes + [JoinReadInstance(seat)])
    case CallLeave(seat) => w.(processes := w.processes + [LeaveDeleteTokens(seat)])
    case CallEnd(n, user) => w.(processes := w.processes + [EndReadInstance(n, user)])
    case Execute(i, o) =>
      if i >= |w.processes| then w
      else
        var (t, p) := Statement(w.t, w.processes[i], o);
        World(t, w.processes[i := p])
  }

  function Executed(w: World, i: nat, o: Outside, k: nat): World
    decreases k
  {
    if k == 0 then w else Executed(Do(w, Execute(i, o)), i, o, k - 1)
  }

  lemma {:induction false} ExecutedIsStatements(w: World, i: nat, o: Outside, k: nat)
    requires i < |w.processes|
    ensures var (t, p) := Statements(w.t, w.processes[i], o, k);
            Executed(w, i, o, k) == World(t, w.processes[i := p])
    decreases k
  {
    hide Statement;
    if k > 0 {
      var w' := Do(w, Execute(i, o));
      ExecutedIsStatements(w', i, o, k - 1);
      var p := Statements(w.t, w.processes[i], o, k).1;
      assert w'.processes[i := p] == w.processes[i := p];
    }
  }

  /** A call that nothing interrupts does at once what the whole operation does. */
  lemma CallsAlone(w: World, seat: Seat, n: InstanceId, user: UserId, o: Outside)
    ensures var i, done := |w.processes|, w.processes + [Finished];
            && Executed(Do(w, CallJoin(seat)), i, o, 8) ==
               World(Join(w.t, seat.instance, seat.user, o.role, o.now, o.secret).0, done)
            && Executed(Do(w, CallLeave(seat)), i, o, 8) == World(Leave(w.t, seat.instance, seat.user).0, done)
            && Executed(Do(w, CallEnd(n, user)), i, o, 6) == World(End(w.t, n, user, o.role).0, done)
  {
    var i := |w.processes|;
    assert forall p: Process :: (w.processes + [p])[i := Finished] == w.processes + [Finished];
    StatementsAreJoin(w.t, seat, o);
    StatementsAreLeave(w.t, seat, o);
    StatementsAreEnd(w.t, n, user, o);
    hide Statements, Join, Leave, End, Executed;
    ExecutedIsStatements(Do(w, CallJoin(seat)), i, o, 8);
    ExecutedIsStatements(Do(w, CallLeave(seat)), i, o, 8);
    ExecutedIsStatements(Do(w, CallEnd(n, user)), i, o, 6);
  }

  function Run(catalog: map<ActivityId, nat>, steps: seq<Step>): World {
    if steps == [] then World(Tables(catalog, map[], 1, {}, map[], map[]), [])
    else Do(Run(catalog, steps[..|steps| - 1]), steps[|steps| - 1])
  }

  // ---------------------------------------------------------------------------
  // The limit
  // ---------------------------------------------------------------------------

  /** A join that has inserted its seat and has not yet found that it may keep it. */
  predicate Undecided(p: Process) {
    p.JoinReadActivity? || p.JoinCountSeats? || p.JoinTakeBackSeat?
  }

  /** No join of the instance is between inserting its seat and deciding about it. */
  predicate NoneUndecided(ps: seq<Process>, n: InstanceId) {
    forall i | 0 <= i < |ps| && Undecided(ps[i]) :: ps[i].seat.instance != n
  }

  function UndecidedSeats(ps: seq<Process>): set<Seat> {
    set i | 0 <= i < |ps| && Undecided(ps[i]) :: ps[i].seat
  }

  function Limit(t: Tables, n: InstanceId): nat
    requires n in t.instances && t.instances[n].activity in t.catalog
  {
    t.catalog[t.instances[n].activity]
  }

  /** The seats of an instance that no undecided join holds are within its limit. */
  ghost predicate DecidedFit(t: Tables, ps: seq<Process>, n: InstanceId)
    requires n in t.instances && t.instances[n].activity in t.catalog
  {
    |SeatsOf(t.seats, n) - UndecidedSeats(ps)| <= Limit(t, n)
  }

  /** What a process remembers agrees with the tables. */
  ghost predicate Remembers(t: Tables, p: Process) {
    match p
    case JoinReadGroup(seat, activity) =>
      seat.instance in t.instances && t.instances[seat.instance].activity == activity
    case JoinInsertSeat(seat, activity) =>
      seat.instance in t.instances && t.instances[seat.instance].activity == activity
    case JoinReadActivity(seat, activity) =>
      seat.instance in t.instances && t.instances[seat.instance].activity == activity
    case JoinCountSeats(seat, limit) =>
      && seat.instance in t.instances && t.instances[seat.instance].activity in t.catalog
      && Limit(t, seat.instance) == limit
    case _ => true
  }

  ghost predicate Consistent(w: World) {
    && (forall a | a in w.t.catalog :: w.t.catalog[a] >= 1)
    && (forall n | n in w.t.instances :: n < w.t.nextInstance && w.t.instances[n].activity in w.t.catalog)
    && (forall s | s in w.t.seats :: s.instance < w.t.nextInstance)
    && (forall i | 0 <= i < |w.processes| :: Remembers(w.t, w.processes[i]))
  }

  ghost predicate Fits(w: World) {
    Consistent(w) && forall n | n in w.t.instances :: DecidedFit(w.t, w.processes, n)
  }

  /** Changing one process changes the undecided seats at most by its own. */
  lemma UndecidedUpdate(ps: seq<Process>, i: nat, p: Process)
    requires i < |ps|
    ensures var before, after := UndecidedSeats(ps), UndecidedSeats(ps[i := p]);
            && (Undecided(p) ==> p.seat in after)
            && (forall s | s in before && !(Undecided(ps[i]) && ps[i].seat == s) :: s in after)
            && (forall s | s in after && !(Undecided(p) && p.seat == s) :: s in before)
  {
    var ps' := ps[i := p];
    if Undecided(p) {
      assert ps'[i].seat in UndecidedSeats(ps');
    }
    forall s | s in UndecidedSeats(ps) && !(Undecided(ps[i]) && ps[i].seat == s) ensures s in UndecidedSeats(ps') {
      var j :| 0 <= j < |ps| && Undecided(ps[j]) && ps[j].seat == s;
      assert ps'[j] == ps[j];
    }
    forall s | s in UndecidedSeats(ps') && !(Undecided(p) && p.seat == s) ensures s in UndecidedSeats(ps) {
      var j :| 0 <= j < |ps'| && Undecided(ps'[j]) && ps'[j].seat == s;
      assert ps'[j] == ps[j];
    }
  }

  lemma UndecidedAppend(ps: seq<Process>, p: Process)
    requires !Undecided(p)
    ensures UndecidedSeats(ps + [p]) == UndecidedSeats(ps)
  {
    forall s | s in UndecidedSeats(ps) ensures s in UndecidedSeats(ps + [p]) {
      var j :| 0 <= j < |ps| && Undecided(ps[j]) && ps[j].seat == s;
      assert (ps + [p])[j] == ps[j];
    }
  }

  /** No statement moves an instance to another activity or changes the catalog. */
  lemma StatementFrame(t: Tables, p: Process, o: Outside)
    ensures var t' := Statement(t, p, o).0;
            && t'.catalog == t.catalog && t'.nextInstance == t.nextInstance
            && t'.instances.Keys == t.instances.Keys
            && (forall n | n in t.instances :: t'.instances[n].activity == t.instances[n].activity)
  {
    hide SeatsOf, Swept;
  }

  lemma RememberedStill(t: Tables, t': Tables, q: Process)
    requires Remembers(t, q) && t'.catalog == t.catalog
    requires forall n | n in t.instances :: n in t'.instances && t'.instances[n].activity == t.instances[n].activity
    ensures Remembers(t', q)
  {
  }

  lemma NextRemembers(t: Tables, p: Process, o: Outside)
    requires Remembers(t, p)
    requires forall n | n in t.instances :: t.instances[n].activity in t.catalog
    ensures Remembers(Statement(t, p, o).0, Statement(t, p, o).1)
  {
    StatementFrame(t, p, o);
    hide SeatsOf, Swept;
  }

  /** Only a join that still remembers its instance inserts a seat. */
  lemma StatementSeatsNumbered(t: Tables, p: Process, o: Outside)
    requires Remembers(t, p)
    ensures forall s | s in Statement(t, p, o).0.seats :: s in t.seats || s.instance in t.instances
  {
    hide SeatsOf, Swept;
  }

  lemma StatementRemembers(w: World, i: nat, o: Outside)
    requires Consistent(w) && i < |w.processes|
    ensures Consistent(Do(w, Execute(i, o)))
  {
    var (t, p) := Statement(w.t, w.processes[i], o);
    assert Remembers(w.t, w.processes[i]);
    StatementFrame(w.t, w.processes[i], o);
    NextRemembers(w.t, w.processes[i], o);
    StatementSeatsNumbered(w.t, w.processes[i], o);
    hide Statement, Remembers;
    forall j | 0 <= j < |w.processes| ensures Remembers(t, w.processes[j]) {
      RememberedStill(w.t, t, w.processes[j]);
    }
  }

  /** The statement in which a join finds that it may keep its seat. */
  predicate Keeps(t: Tables, p: Process) {
    p.JoinCountSeats? && |SeatsOf(t.seats, p.seat.instance)| <= p.limit
  }

  /** Apart from that statement, no seat is added that is not also marked as undecided. */
  lemma StatementOnSeats(t: Tables, p: Process, o: Outside, s: Seat)
    requires p.JoinReadActivity? ==> p.activity in t.catalog
    requires s in Statement(t, p, o).0.seats
    requires !(Undecided(Statement(t, p, o).1) && Statement(t, p, o).1.seat == s)
    requires !(Keeps(t, p) && p.seat == s)
    ensures s in t.seats && !(Undecided(p) && p.seat == s)
  {
    hide SeatsOf, Swept;
  }

  lemma StatementFits(w: World, i: nat, o: Outside, n: InstanceId)
    requires Consistent(w) && i < |w.processes| && n in w.t.instances && DecidedFit(w.t, w.processes, n)
    ensures var w' := Do(w, Execute(i, o));
            n in w'.t.instances && w'.t.instances[n].activity in w'.t.catalog && DecidedFit(w'.t, w'.processes, n)
  {
    var p := w.processes[i];
    var (t', p') := Statement(w.t, p, o);
    var ps' := w.processes[i := p'];
    assert Remembers(w.t, p);
    StatementFrame(w.t, p, o);
    if Keeps(w.t, p) && p.seat.instance == n {
      KeepingFits(w.t, p, o, ps', n);
    } else {
      forall s | s in SeatsOf(t'.seats, n) && s !in UndecidedSeats(ps')
        ensures s in SeatsOf(w.t.seats, n) && s !in UndecidedSeats(w.processes)
      {
        StillDecided(w.t, w.processes, i, o, n, s);
      }
      hide Statement, Remembers, UndecidedSeats, SeatsOf;
      CardinalityMonotone(SeatsOf(t'.seats, n) - UndecidedSeats(ps'),
                          SeatsOf(w.t.seats, n) - UndecidedSeats(w.processes));
    }
  }

  lemma KeepingFits(t: Tables, p: Process, o: Outside, ps: seq<Process>, n: InstanceId)
    requires n in t.instances && t.instances[n].activity in t.catalog
    requires Remembers(t, p) && Keeps(t, p) && p.seat.instance == n
    ensures DecidedFit(t, ps, n) && Statement(t, p, o).0 == t
  {
    CardinalityMonotone(SeatsOf(t.seats, n) - UndecidedSeats(ps), SeatsOf(t.seats, n));
    hide UndecidedSeats, SeatsOf;
  }

  lemma StillDecided(t: Tables, ps: seq<Process>, i: nat, o: Outside, n: InstanceId, s: Seat)
    requires i < |ps| && (ps[i].JoinReadActivity? ==> ps[i].activity in t.catalog)
    requires !(Keeps(t, ps[i]) && ps[i].seat.instance == n)
    requires s in SeatsOf(Statement(t, ps[i], o).0.seats, n)
    requires s !in UndecidedSeats(ps[i := Statement(t, ps[i], o).1])
    ensures s in SeatsOf(t.seats, n) && s !in UndecidedSeats(ps)
  {
    var p' := Statement(t, ps[i], o).1;
    UndecidedUpdate(ps, i, p');
    hide Statement, UndecidedSeats;
    StatementOnSeats(t, ps[i], o, s);
  }

  lemma LaunchFrame(t: Tables, activity: ActivityId, group: GroupId, user: UserId, role: Role)
    requires forall n | n in t.instances :: n < t.nextInstance && t.instances[n].activity in t.catalog
    requires forall s | s in t.seats :: s.instance < t.nextInstance
    ensures var (t', r) := Launch(t, activity, group, user, role);
            && t'.catalog == t.catalog
            && (forall n | n in t.instances :: n in t'.instances && t'.instances[n].activity == t.instances[n].activity)
            && (r.Err? ==> t' == t)
            && (r.Ok? ==>
              && r.value == t.nextInstance && t'.nextInstance == t.nextInstance + 1
              && t'.instances.Keys == t.instances.Keys + {r.value}
              && activity in t.catalog && t'.instances[r.value].activity == activity
              && t'.seats == t.seats + {Seat(r.value, user)})
  {
    hide SeatsOf;
  }

  lemma LaunchDecidedFit(t: Tables, t': Tables, ps: seq<Process>, seat: Seat, n: InstanceId)
    requires n in t'.instances && t'.instances[n].activity in t'.catalog && Limit(t', n) >= 1
    requires t'.seats == t.seats + {seat} && seat !in t.seats
    requires forall s | s in t.seats :: s.instance != seat.instance
    requires n != seat.instance ==>
      && n in t.instances && t.instances[n].activity in t.catalog
      && DecidedFit(t, ps, n) && Limit(t', n) == Limit(t, n)
    ensures DecidedFit(t', ps, n)
  {
    SeatsOfPlus(t.seats, seat, n);
    if n == seat.instance {
      assert SeatsOf(t.seats, n) == {};
      CardinalityMonotone(SeatsOf(t'.seats, n) - UndecidedSeats(ps), {seat});
    }
    hide UndecidedSeats, SeatsOf, Limit;
  }

  lemma LaunchConsistent(w: World, activity: ActivityId, group: GroupId, user: UserId, role: Role)
    requires Consistent(w)
    ensures Consistent(w.(t := Launch(w.t, activity, group, user, role).0))
  {
    var (t', r) := Launch(w.t, activity, group, user, role);
    LaunchFrame(w.t, activity, group, user, role);
    hide Launch, Remembers;
    forall j | 0 <= j < |w.processes| ensures Remembers(t', w.processes[j]) {
      RememberedStill(w.t, t', w.processes[j]);
    }
  }

  lemma LaunchFitsAt(w: World, activity: ActivityId, group: GroupId, user: UserId, role: Role, n: InstanceId)
    requires Fits(w) && n in Launch(w.t, activity, group, user, role).0.instances
    ensures var t' := Launch(w.t, activity, group, user, role).0;
            t'.instances[n].activity in t'.catalog && DecidedFit(t', w.processes, n)
  {
    var (t', r) := Launch(w.t, activity, group, user, role);
    LaunchFrame(w.t, activity, group, user, role);
    assert n in w.t.instances ==> DecidedFit(w.t, w.processes, n);
    hide Launch, Remembers, DecidedFit;
    if r.Ok? {
      LaunchDecidedFit(w.t, t', w.processes, Seat(r.value, user), n);
    }
  }

  lemma LaunchFits(w: World, activity: ActivityId, group: GroupId, user: UserId, role: Role)
    requires Fits(w)
    ensures Fits(Do(w, Launched(activity, group, user, role)))
  {
    var t' := Launch(w.t, activity, group, user, role).0;
    LaunchConsistent(w, activity, group, user, role);
    forall n | n in t'.instances ensures t'.instances[n].activity in t'.catalog && DecidedFit(t', w.processes, n) {
      LaunchFitsAt(w, activity, group, user, role, n);
    }
    hide Launch, Consistent, DecidedFit;
  }

  lemma CallFits(w: World, p: Process)
    requires Fits(w) && !Undecided(p) && Remembers(w.t, p)
    ensures Fits(w.(processes := w.processes + [p]))
  {
    hide UndecidedSeats, Remembers, SeatsOf;
    UndecidedAppend(w.processes, p);
    var w' := w.(processes := w.processes + [p]);
    assert Consistent(w');
    forall n | n in w'.t.instances ensures DecidedFit(w'.t, w'.processes, n) {
      assert DecidedFit(w.t, w.processes, n);
    }
  }

  lemma StepFits(w: World, s: Step)
    requires Fits(w)
    ensures Fits(Do(w, s))
  {
    match s
    case Launched(activity, group, user, role) => LaunchFits(w, activity, group, user, role);
    case CallJoin(seat) => CallFits(w, JoinReadInstance(seat));
    case CallLeave(seat) => CallFits(w, LeaveDeleteTokens(seat));
    case CallEnd(n, user) => CallFits(w, EndReadInstance(n, user));
    case Execute(i, o) =>
      if i < |w.processes| {
        StatementRemembers(w, i, o);
        var w' := Do(w, s);
        forall n | n in w'.t.instances ensures DecidedFit(w'.t, w'.processes, n) {
          assert n in w.t.instances by { StatementFrame(w.t, w.processes[i], o); }
          StatementFits(w, i, o, n);
        }
      }
  }

  lemma {:induction false} RunFits(catalog: map<ActivityId, nat>, steps: seq<Step>)
    requires forall a | a in catalog :: catalog[a] >= 1
    ensures Fits(Run(catalog, steps))
  {
    if steps != [] {
      RunFits(catalog, steps[..|steps| - 1]);
      StepFits(Run(catalog, steps[..|steps| - 1]), steps[|steps| - 1]);
      hide Do, Fits;
    }
  }

  /**
    The seat limit: however the statements of joins, leaves and ends interleave, an instance
    never has more seats than its limit plus one for each of its seats whose join is still
    undecided; so whenever no join of the instance is between inserting its seat and deciding
    about it, the limit holds.
   */
  lemma SeatLimit(catalog: map<ActivityId, nat>, steps: seq<Step>, n: InstanceId)
    requires forall a | a in catalog :: catalog[a] >= 1
    requires n in Run(catalog, steps).t.instances
    ensures var w := Run(catalog, steps);
            && w.t.instances[n].activity in w.t.catalog
            && |SeatsOf(w.t.seats, n)| <= Limit(w.t, n) + |SeatsOf(UndecidedSeats(w.processes), n)|
            && (NoneUndecided(w.processes, n) ==> |SeatsOf(w.t.seats, n)| <= Limit(w.t, n))
  {
    var w := Run(catalog, steps);
    RunFits(catalog, steps);
    hide Run;
    assert DecidedFit(w.t, w.processes, n);
    UpToUndecided(w.t.seats, UndecidedSeats(w.processes), n);
    hide Fits, Consistent;
  }

  lemma UpToUndecided(seats: set<Seat>, undecided: set<Seat>, n: InstanceId)
    ensures |SeatsOf(seats, n)| <= |SeatsOf(seats, n) - undecided| + |SeatsOf(undecided, n)|
    ensures SeatsOf(undecided, n) == {} ==> |SeatsOf(seats, n)| == |SeatsOf(seats, n) - undecided|
  {
    var mine := SeatsOf(seats, n);
    assert mine == (mine - undecided) + (mine * SeatsOf(undecided, n));
    CardinalityMonotone(mine * SeatsOf(undecided, n), SeatsOf(undecided, n));
    if SeatsOf(undecided, n) == {} {
      assert mine - undecided == mine;
    }
  }

  // ---------------------------------------------------------------------------
  // Joining again
  // ---------------------------------------------------------------------------

  /**
    A user who has a seat and joins again keeps it exactly if the instance is not over its limit at
    that moment; so always when no join of the instance is in doubt, and while one is, a full game
    takes the seat away.
   */
  lemma RejoinExactly(catalog: map<ActivityId, nat>, steps: seq<Step>, seat: Seat, role: Role, now: Time, code: Secret)
    requires forall a | a in catalog :: catalog[a] >= 1
    requires seat in Run(catalog, steps).t.seats && IsActive(Run(catalog, steps).t, seat.instance) && role != NotMember
    ensures var w := Run(catalog, steps);
            var t' := Join(w.t, seat.instance, seat.user, role, now, code).0;
            && w.t.instances[seat.instance].activity in w.t.catalog
            && (seat in t'.seats <==> |SeatsOf(w.t.seats, seat.instance)| <= Limit(w.t, seat.instance))
            && (NoneUndecided(w.processes, seat.instance) ==> t'.seats == w.t.seats)
  {
    var w := Run(catalog, steps);
    RunFits(catalog, steps);
    SeatLimit(catalog, steps, seat.instance);
    hide Run, Fits, DecidedFit, NoneUndecided;
    assert w.t.seats + {seat} == w.t.seats;
  }

  lemma Alone(mine: set<Seat>, undecided: set<Seat>, seat: Seat, n: InstanceId, limit: nat)
    requires (forall s | s in mine :: s.instance == n) && SeatsOf(undecided, n) <= {seat}
    requires |mine - undecided| <= limit
    ensures |mine| <= limit <==> !(seat in mine && |mine - {seat}| == limit)
  {
    CardinalityMonotone(mine - {seat}, mine - undecided);
    if seat in mine {
      assert mine == (mine - {seat}) + {seat};
    } else {
      assert mine == mine - {seat};
    }
  }

  /**
    A join that is alone in doubt keeps its seat exactly if the other seats leave room for it: it
    loses it only if it has a seat and the others already fill the game.
   */
  lemma DecisionExactly(w: World, i: nat, o: Outside, seat: Seat, limit: nat)
    requires Fits(w) && i < |w.processes| && w.processes[i] == JoinCountSeats(seat, limit)
    requires SeatsOf(UndecidedSeats(w.processes), seat.instance) <= {seat}
    ensures Statement(w.t, w.processes[i], o).1 == JoinSweepCodes(seat) <==>
              !(seat in w.t.seats && |SeatsOf(w.t.seats, seat.instance) - {seat}| == limit)
  {
    var n := seat.instance;
    assert Remembers(w.t, w.processes[i]) && DecidedFit(w.t, w.processes, n);
    var mine := SeatsOf(w.t.seats, n);
    assert seat in mine <==> seat in w.t.seats;
    assert forall s | s in mine :: s.instance == n;
    hide Fits, Consistent, UndecidedSeats, SeatsOf;
    Alone(mine, UndecidedSeats(w.processes), seat, n, limit);
  }

  // ---------------------------------------------------------------------------
  // An active instance has a seat
  // ---------------------------------------------------------------------------

  /** The process is about to end the instance, or to find out whether it should. */
  predicate EndsSoon(p: Process, n: InstanceId) {
    (p.LeaveCountSeats? && p.seat.instance == n) || (p.EndUpdateInstance? && p.instance == n)
  }

  predicate Ending(ps: seq<Process>, n: InstanceId) {
    exists i :: 0 <= i < |ps| && EndsSoon(ps[i], n)
  }

  predicate OccupiedAt(t: Tables, ps: seq<Process>, n: InstanceId) {
    IsActive(t, n) ==> SeatsOf(t.seats, n) != {} || Ending(ps, n)
  }

  ghost predicate Occupied(w: World) {
    forall n :: OccupiedAt(w.t, w.processes, n)
  }

  /** A full join takes back the only seat of an active instance that nobody is ending. */
  predicate TakesLast(w: World, s: Step) {
    && s.Execute? && s.process < |w.processes| && w.processes[s.process].JoinTakeBackSeat?
    && var seat := w.processes[s.process].seat;
    && IsActive(w.t, seat.instance) && SeatsOf(w.t.seats, seat.instance) == {seat}
    && !Ending(w.processes, seat.instance)
  }

  lemma EndingUpdate(ps: seq<Process>, i: nat, p: Process, n: InstanceId)
    requires i < |ps|
    ensures Ending(ps[i := p], n) ==> EndsSoon(p, n) || Ending(ps, n)
    ensures EndsSoon(p, n) ==> Ending(ps[i := p], n)
    ensures Ending(ps, n) && !EndsSoon(ps[i], n) ==> Ending(ps[i := p], n)
  {
    var ps' := ps[i := p];
    if EndsSoon(p, n) {
      assert EndsSoon(ps'[i], n);
    }
    if Ending(ps, n) && !EndsSoon(ps[i], n) {
      var k :| 0 <= k < |ps| && EndsSoon(ps[k], n);
      assert ps'[k] == ps[k];
    }
    if Ending(ps', n) && !EndsSoon(p, n) {
      var k :| 0 <= k < |ps'| && EndsSoon(ps'[k], n);
      assert ps'[k] == ps[k];
    }
  }

  /** What a statement does to the seats of one instance. */
  lemma StatementSeats(t: Tables, p: Process, o: Outside, n: InstanceId)
    ensures var (t', p') := Statement(t, p, o);
            && (IsActive(t', n) ==> IsActive(t, n) && !(p.EndUpdateInstance? && p.instance == n))
            && (p.JoinTakeBackSeat? ==> t'.seats == t.seats - {p.seat} && t'.instances == t.instances && p'.Finished?)
            && (p.LeaveDeleteSeat? ==> t'.seats == t.seats - {p.seat} && p' == LeaveCountSeats(p.seat))
            && (!p.JoinTakeBackSeat? && !p.LeaveDeleteSeat? ==> t.seats <= t'.seats)
            && (p.LeaveCountSeats? && p.seat.instance == n && SeatsOf(t.seats, n) == {} ==> EndsSoon(p', n))
            && (p.LeaveCountSeats? ==> t' == t)
  {
    hide Swept;
  }

  lemma SeatsLess(seats: set<Seat>, seat: Seat, n: InstanceId)
    ensures SeatsOf(seats - {seat}, n) == SeatsOf(seats, n) - {seat}
    ensures seat.instance != n ==> SeatsOf(seats - {seat}, n) == SeatsOf(seats, n)
  {
  }

  lemma SeatsMore(seats: set<Seat>, more: set<Seat>, n: InstanceId)
    requires seats <= more
    ensures SeatsOf(seats, n) <= SeatsOf(more, n)
  {
  }

  lemma StatementOccupies(w: World, i: nat, o: Outside, n: InstanceId)
    requires i < |w.processes| && OccupiedAt(w.t, w.processes, n)
    requires !(w.processes[i].JoinTakeBackSeat? && w.processes[i].seat.instance == n)
    ensures OccupiedAt(Do(w, Execute(i, o)).t, Do(w, Execute(i, o)).processes, n)
  {
    var p := w.processes[i];
    var (t', p') := Statement(w.t, p, o);
    StatementSeats(w.t, p, o, n);
    EndingUpdate(w.processes, i, p', n);
    if p.JoinTakeBackSeat? || p.LeaveDeleteSeat? {
      SeatsLess(w.t.seats, p.seat, n);
    } else {
      SeatsMore(w.t.seats, t'.seats, n);
    }
    hide Statement, SeatsOf, Ending;
  }

  lemma TakeBackOccupies(w: World, i: nat, o: Outside)
    requires i < |w.processes| && w.processes[i].JoinTakeBackSeat?
    requires OccupiedAt(w.t, w.processes, w.processes[i].seat.instance)
    ensures var w' := Do(w, Execute(i, o));
            OccupiedAt(w'.t, w'.processes, w.processes[i].seat.instance) <==> !TakesLast(w, Execute(i, o))
  {
    var p := w.processes[i];
    var n := p.seat.instance;
    StatementSeats(w.t, p, o, n);
    EndingUpdate(w.processes, i, Finished, n);
    SeatsLess(w.t.seats, p.seat, n);
    hide Ending, Statement;
  }

  lemma LaunchOccupies(w: World, activity: ActivityId, group: GroupId, user: UserId, role: Role, n: InstanceId)
    requires OccupiedAt(w.t, w.processes, n)
    ensures OccupiedAt(Launch(w.t, activity, group, user, role).0, w.processes, n)
  {
    var (t', r) := Launch(w.t, activity, group, user, role);
    SeatsMore(w.t.seats, t'.seats, n);
    if r.Ok? && n == r.value {
      assert Seat(n, user) in SeatsOf(t'.seats, n);
    }
    hide Ending;
  }

  lemma CallOccupies(w: World, p: Process, n: InstanceId)
    requires OccupiedAt(w.t, w.processes, n) && !EndsSoon(p, n)
    ensures OccupiedAt(w.t, w.processes + [p], n)
  {
    if Ending(w.processes, n) {
      var k :| 0 <= k < |w.processes| && EndsSoon(w.processes[k], n);
      assert (w.processes + [p])[k] == w.processes[k];
    }
    hide SeatsOf;
  }

  /** Exactly when a step leaves every active instance with a seat, or with somebody who is ending it. */
  lemma OccupiedExactly(w: World, s: Step)
    requires Occupied(w)
    ensures Occupied(Do(w, s)) <==> !TakesLast(w, s)
  {
    var w' := Do(w, s);
    forall n ensures OccupiedAt(w.t, w.processes, n) {
    }
    if s.Execute? && s.process < |w.processes| && w.processes[s.process].JoinTakeBackSeat? {
      TakeBackOccupies(w, s.process, s.outside);
    }
    hide OccupiedAt;
    forall n | !(s.Execute? && s.process < |w.processes| && w.processes[s.process].JoinTakeBackSeat?
                 && w.processes[s.process].seat.instance == n)
      ensures OccupiedAt(w'.t, w'.processes, n)
    {
      match s
      case Launched(activity, group, user, role) => LaunchOccupies(w, activity, group, user, role, n);
      case CallJoin(seat) => CallOccupies(w, JoinReadInstance(seat), n);
      case CallLeave(seat) => CallOccupies(w, LeaveDeleteTokens(seat), n);
      case CallEnd(m, user) => CallOccupies(w, EndReadInstance(m, user), n);
      case Execute(i, o) =>
        if i < |w.processes| {
          StatementOccupies(w, i, o, n);
        }
    }
    hide Do, TakesLast;
  }

  /**
    In every interleaving in which no full join takes back the only seat of an active instance, an
    active instance that nobody is about to end has at least one seat.
   */
  lemma {:induction false} SeatedInstances(catalog: map<ActivityId, nat>, steps: seq<Step>)
    requires forall k | 0 <= k < |steps| :: !TakesLast(Run(catalog, steps[..k]), steps[k])
    ensures Occupied(Run(catalog, steps))
  {
    if steps != [] {
      var front := steps[..|steps| - 1];
      forall k | 0 <= k < |front| ensures !TakesLast(Run(catalog, front[..k]), front[k]) {
        assert front[..k] == steps[..k] && front[k] == steps[k];
      }
      SeatedInstances(catalog, front);
      OccupiedExactly(Run(catalog, front), steps[|steps| - 1]);
      hide Occupied, Do, TakesLast;
    }
  }

  /** One statement of each of two processes. */
  function Both(w: World, i: nat, j: nat, o: Outside): World {
    Do(Do(w, Execute(i, o)), Execute(j, o))
  }

  lemma BothRun(w: World, i: nat, j: nat, o: Outside)
    requires i < j < |w.processes|
    ensures var (t1, p1) := Statement(w.t, w.processes[i], o);
            var (t2, p2) := Statement(t1, w.processes[j], o);
            Both(w, i, j, o) == World(t2, w.processes[i := p1][j := p2])
  {
    hide Statement;
  }

  /** Both joins stand just before they count: the newcomer's seat is in, and the old one is no news. */
  lemma BothInserted(w: World, i: nat, j: nat, n: InstanceId, a: UserId, b: UserId, o: Outside)
    requires i < j < |w.processes| && IsActive(w.t, n) && o.role != NotMember
    requires w.t.instances[n].activity in w.t.catalog && w.t.catalog[w.t.instances[n].activity] == 1
    requires w.processes[i] == JoinReadInstance(Seat(n, a)) && w.processes[j] == JoinReadInstance(Seat(n, b))
    ensures var w' := Both(Both(Both(Both(w, i, j, o), i, j, o), i, j, o), i, j, o);
            && w'.t == w.t.(seats := w.t.seats + {Seat(n, a)} + {Seat(n, b)}) && |w'.processes| == |w.processes|
            && w'.processes[i] == JoinCountSeats(Seat(n, a), 1) && w'.processes[j] == JoinCountSeats(Seat(n, b), 1)
  {
    var w1 := Both(w, i, j, o);
    var w2 := Both(w1, i, j, o);
    var w3 := Both(w2, i, j, o);
    BothRun(w, i, j, o);
    BothRun(w1, i, j, o);
    BothRun(w2, i, j, o);
    BothRun(w3, i, j, o);
    hide Both;
  }

  /** Both joins count two seats, and each takes its own back. */
  lemma BothTakenBack(w: World, i: nat, j: nat, n: InstanceId, a: UserId, b: UserId, o: Outside)
    requires i < j < |w.processes| && a != b && SeatsOf(w.t.seats, n) == {Seat(n, a), Seat(n, b)}
    requires w.processes[i] == JoinCountSeats(Seat(n, a), 1) && w.processes[j] == JoinCountSeats(Seat(n, b), 1)
    ensures var w' := Both(Both(w, i, j, o), i, j, o);
            && w'.t == w.t.(seats := w'.t.seats) && SeatsOf(w'.t.seats, n) == {}
            && |w'.processes| == |w.processes| && w'.processes[i] == Finished && w'.processes[j] == Finished
  {
    BothRun(w, i, j, o);
    BothRun(Both(w, i, j, o), i, j, o);
    hide Both;
    SeatsLess(w.t.seats, Seat(n, a), n);
    SeatsLess(w.t.seats - {Seat(n, a)}, Seat(n, b), n);
    hide SeatsOf;
  }

  /**
    Such a run: in a game for one, its player joins again while another member joins. Each counts
    the other's seat as well, both are refused, and the active game is left without a player.
   */
  lemma RejoinCanEmpty(w: World, n: InstanceId, a: UserId, b: UserId, o: Outside)
    requires IsActive(w.t, n) && w.t.instances[n].activity in w.t.catalog
    requires w.t.catalog[w.t.instances[n].activity] == 1
    requires SeatsOf(w.t.seats, n) == {Seat(n, a)} && a != b && o.role != NotMember
    ensures var i, j := |w.processes|, |w.processes| + 1;
            var called := Do(Do(w, CallJoin(Seat(n, a))), CallJoin(Seat(n, b)));
            var counting := Both(Both(Both(Both(called, i, j, o), i, j, o), i, j, o), i, j, o);
            var done := Both(Both(counting, i, j, o), i, j, o);
            && IsActive(done.t, n) && SeatsOf(done.t.seats, n) == {}
            && done.processes[i] == Finished && done.processes[j] == Finished
  {
    var i, j := |w.processes|, |w.processes| + 1;
    var called := Do(Do(w, CallJoin(Seat(n, a))), CallJoin(Seat(n, b)));
    var counting := Both(Both(Both(Both(called, i, j, o), i, j, o), i, j, o), i, j, o);
    BothInserted(called, i, j, n, a, b, o);
    assert SeatsOf(counting.t.seats, n) == {Seat(n, a), Seat(n, b)};
    BothTakenBack(counting, i, j, n, a, b, o);
    hide Both, SeatsOf;
  }
}
