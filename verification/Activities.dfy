/**
  Minigame instances, seats, launch codes and instance tokens (rust/src/domain/activities.rs).

  `ActivityStore` has the five tables as fields and one method per operation, statement by
  statement. The functions on `Tables` specify the methods; `Sound` is what every operation
  keeps. A secret stands for the hash of a random token, and is new whenever one is drawn.
 */
module Activities {
  import opened Wrappers

  type InstanceId = nat
  type UserId = nat
  type ActivityId = nat
  type GroupId = nat
  type Secret = nat

  /** Seconds. */
  type Time = int

  const MAX_ACTIVE_INSTANCES_PER_GROUP := 3
  const LAUNCH_CODE_TTL := 5 * 60
  const INSTANCE_TOKEN_TTL := 24 * 60 * 60

  datatype Role = NotMember | Member | Admin

  datatype ActivityError = NotFound | Forbidden | Invalid

  datatype Instance = Instance(activity: ActivityId, group: GroupId, createdBy: UserId, active: bool)

  datatype Seat = Seat(instance: InstanceId, user: UserId)

  datatype CodeRow = CodeRow(seat: Seat, expiresAt: Time, used: bool)

  datatype TokenRow = TokenRow(seat: Seat, expiresAt: Time)

  /** `catalog` gives the player limit of each enabled activity. */
  datatype Tables = Tables(
    catalog: map<ActivityId, nat>,
    instances: map<InstanceId, Instance>,
    nextInstance: InstanceId,
    seats: set<Seat>,
    codes: map<Secret, CodeRow>,
    tokens: map<Secret, TokenRow>)

  function ActiveIn(instances: map<InstanceId, Instance>, group: GroupId): set<InstanceId> {
    set n | n in instances && instances[n].group == group && instances[n].active
  }

  function SeatsOf(seats: set<Seat>, n: InstanceId): set<Seat> {
    set s | s in seats && s.instance == n
  }

  predicate Expired(expiresAt: Time, now: Time) { now > expiresAt }

  // ---------------------------------------------------------------------------
  // Specification of the operations
  // ---------------------------------------------------------------------------

  function EndRow(t: Tables, n: InstanceId): Tables {
    t.(instances := if n in t.instances then t.instances[n := t.instances[n].(active := false)] else t.instances,
       tokens := map k | k in t.tokens && t.tokens[k].seat.instance != n :: t.tokens[k],
       codes := map k | k in t.codes && t.codes[k].seat.instance != n :: t.codes[k])
  }

  /** The codes left when the expired ones of one seat are swept. */
  function Swept(codes: map<Secret, CodeRow>, seat: Seat, now: Time): map<Secret, CodeRow> {
    map k | k in codes && !(codes[k].seat == seat && codes[k].expiresAt < now) :: codes[k]
  }

  function Launch(t: Tables, activity: ActivityId, group: GroupId, user: UserId, role: Role)
    : (Tables, Result<InstanceId, ActivityError>)
  {
    if activity !in t.catalog then (t, Err(NotFound))
    else if role == NotMember then (t, Err(Forbidden))
    else if |ActiveIn(t.instances, group)| >= MAX_ACTIVE_INSTANCES_PER_GROUP then (t, Err(Invalid))
    else
      var n := t.nextInstance;
      (t.(instances := t.instances[n := Instance(activity, group, user, true)],
          nextInstance := n + 1,
          seats := t.seats + {Seat(n, user)}), Ok(n))
  }

  function Join(t: Tables, n: InstanceId, user: UserId, role: Role, now: Time, code: Secret)
    : (Tables, Result<Secret, ActivityError>)
  {
    if n !in t.instances then (t, Err(NotFound))
    else if !t.instances[n].active then (t, Err(Invalid))
    else if role == NotMember then (t, Err(Forbidden))
    else
      var seat := Seat(n, user);
      var seated := t.(seats := t.seats + {seat});
      if t.instances[n].activity !in t.catalog then (seated, Err(NotFound))
      else if |SeatsOf(seated.seats, n)| > t.catalog[t.instances[n].activity] then
        (t.(seats := t.seats - {seat}), Err(Invalid))
      else
        (seated.(codes := Swept(t.codes, seat, now)[code := CodeRow(seat, now + LAUNCH_CODE_TTL, false)]), Ok(code))
  }

  function Exchange(t: Tables, n: InstanceId, code: Secret, now: Time, token: Secret)
    : (Tables, Result<UserId, ActivityError>)
  {
    if code !in t.codes then (t, Err(Invalid))
    else
      var row := t.codes[code];
      if row.seat.instance != n || row.used || Expired(row.expiresAt, now) then (t, Err(Invalid))
      else if n !in t.instances || !t.instances[n].active then (t, Err(Invalid))
      else
        (t.(codes := t.codes[code := row.(used := true)],
            tokens := t.tokens[token := TokenRow(row.seat, now + INSTANCE_TOKEN_TTL)]), Ok(row.seat.user))
  }

  /** `instance_token_identity`. */
  function Identity(t: Tables, token: Secret, now: Time): Option<Seat> {
    if token !in t.tokens then None
    else
      var row := t.tokens[token];
      var n := row.seat.instance;
      if n == 0 || row.seat.user == 0 || Expired(row.expiresAt, now) then None
      else if n !in t.instances || !t.instances[n].active then None
      else if row.seat !in t.seats then None
      else Some(row.seat)
  }

  function Leave(t: Tables, n: InstanceId, user: UserId): (Tables, bool) {
    var seat := Seat(n, user);
    var left := t.(
      tokens := map k | k in t.tokens && t.tokens[k].seat != seat :: t.tokens[k],
      codes := map k | k in t.codes && t.codes[k].seat != seat :: t.codes[k],
      seats := t.seats - {seat});
    if SeatsOf(left.seats, n) == {} then (EndRow(left, n), true) else (left, false)
  }

  function End(t: Tables, n: InstanceId, user: UserId, role: Role): (Tables, Result<(), ActivityError>) {
    if n !in t.instances then (t, Err(NotFound))
    else if t.instances[n].createdBy != user && role != Admin then (t, Err(Forbidden))
    else (EndRow(t, n), Ok(()))
  }

  // ---------------------------------------------------------------------------
  // The store
  // ---------------------------------------------------------------------------

  class ActivityStore {
    const catalog: map<ActivityId, nat>
    var instances: map<InstanceId, Instance>
    var nextInstance: InstanceId
    var seats: set<Seat>
    var codes: map<Secret, CodeRow>
    var tokens: map<Secret, TokenRow>

    function View(): Tables
      reads this
    {
      Tables(catalog, instances, nextInstance, seats, codes, tokens)
    }

    constructor (catalog: map<ActivityId, nat>)
      ensures View() == Tables(catalog, map[], 1, {}, map[], map[])
    {
      this.catalog := catalog;
      instances, nextInstance, seats, codes, tokens := map[], 1, {}, map[], map[];
    }

    method LaunchInstance(activity: ActivityId, group: GroupId, user: UserId, role: Role)
      returns (r: Result<InstanceId, ActivityError>)
      modifies this
      ensures (View(), r) == Launch(old(View()), activity, group, user, role)
    {
      if activity !in catalog {
        return Err(NotFound);
      }
      if role == NotMember {
        return Err(Forbidden);
      }
      var active := |ActiveIn(instances, group)|;
      if active >= MAX_ACTIVE_INSTANCES_PER_GROUP {
        return Err(Invalid);
      }
      instances := instances[nextInstance := Instance(activity, group, user, true)];
      nextInstance := nextInstance + 1;
      var instanceId := nextInstance - 1;
      seats := seats + {Seat(instanceId, user)};
      return Ok(instanceId);
    }

    method JoinInstance(n: InstanceId, user: UserId, role: Role, now: Time, code: Secret)
      returns (r: Result<Secret, ActivityError>)
      modifies this
      ensures (View(), r) == Join(old(View()), n, user, role, now, code)
    {
      if n !in instances {
        return Err(NotFound);
      }
      var instance := instances[n];
      if !instance.active {
        return Err(Invalid);
      }
      if role == NotMember {
        return Err(Forbidden);
      }
      seats := seats + {Seat(n, user)};
      if instance.activity !in catalog {
        return Err(NotFound);
      }
      var taken := |SeatsOf(seats, n)|;
      if taken > catalog[instance.activity] {
        seats := seats - {Seat(n, user)};
        assert seats == old(seats) - {Seat(n, user)};
        return Err(Invalid);
      }
      codes := Swept(codes, Seat(n, user), now);
      codes := codes[code := CodeRow(Seat(n, user), now + LAUNCH_CODE_TTL, false)];
      return Ok(code);
    }

    method ExchangeCode(n: InstanceId, code: Secret, now: Time, token: Secret)
      returns (r: Result<UserId, ActivityError>)
      modifies this
      ensures (View(), r) == Exchange(old(View()), n, code, now, token)
    {
      if code !in codes {
        return Err(Invalid);
      }
      var row := codes[code];
      if row.seat.instance != n || row.used || Expired(row.expiresAt, now) {
        return Err(Invalid);
      }
      if n !in instances {
        return Err(Invalid);
      }
      if !instances[n].active {
        return Err(Invalid);
      }
      codes := codes[code := codes[code].(used := true)];
      tokens := tokens[token := TokenRow(row.seat, now + INSTANCE_TOKEN_TTL)];
      return Ok(row.seat.user);
    }

    method EndInstanceRow(n: InstanceId)
      modifies this
      ensures View() == EndRow(old(View()), n)
    {
      if n in instances {
        instances := instances[n := instances[n].(active := false)];
      }
      tokens := map k | k in tokens && tokens[k].seat.instance != n :: tokens[k];
      codes := map k | k in codes && codes[k].seat.instance != n :: codes[k];
    }

    method LeaveInstance(n: InstanceId, user: UserId) returns (ended: bool)
      modifies this
      ensures (View(), ended) == Leave(old(View()), n, user)
    {
      tokens := map k | k in tokens && tokens[k].seat != Seat(n, user) :: tokens[k];
      codes := map k | k in codes && codes[k].seat != Seat(n, user) :: codes[k];
      seats := seats - {Seat(n, user)};
      if |SeatsOf(seats, n)| == 0 {
        EndInstanceRow(n);
        return true;
      }
      return false;
    }

    method EndInstance(n: InstanceId, user: UserId, role: Role) returns (r: Result<(), ActivityError>)
      modifies this
      ensures (View(), r) == End(old(View()), n, user, role)
    {
      if n !in instances {
        return Err(NotFound);
      }
      if instances[n].createdBy != user && role != Admin {
        return Err(Forbidden);
      }
      EndInstanceRow(n);
      return Ok(());
    }
  }

  // ---------------------------------------------------------------------------
  // What every operation keeps
  // ---------------------------------------------------------------------------

  predicate IsActive(t: Tables, n: InstanceId) { n in t.instances && t.instances[n].active }

  /** The seat is taken in an instance that is still going on. */
  predicate Seated(t: Tables, s: Seat) { IsActive(t, s.instance) && s in t.seats }

  ghost predicate CredentialsSeated(t: Tables) {
    && (forall k | k in t.codes :: Seated(t, t.codes[k].seat))
    && (forall k | k in t.tokens :: Seated(t, t.tokens[k].seat))
  }

  /** An active instance is in the catalog, has a seat taken and no more seats than players. */
  ghost predicate WithinCapacity(t: Tables, n: InstanceId)
    requires n in t.instances
  {
    && t.instances[n].activity in t.catalog
    && 1 <= |SeatsOf(t.seats, n)| <= t.catalog[t.instances[n].activity]
  }

  ghost predicate Sound(t: Tables) {
    && (forall a | a in t.catalog :: t.catalog[a] >= 1)
    && (forall n | n in t.instances :: n < t.nextInstance)
    && (forall s | s in t.seats :: s.instance in t.instances)
    && CredentialsSeated(t)
    && (forall n | IsActive(t, n) :: WithinCapacity(t, n))
    && (forall g :: |ActiveIn(t.instances, g)| <= MAX_ACTIVE_INSTANCES_PER_GROUP)
  }

  lemma CardinalityMonotone<T>(a: set<T>, b: set<T>)
    requires a <= b
    ensures |a| <= |b|
  {
    assert b == a + (b - a);
  }

  lemma SeatsOfPlus(seats: set<Seat>, s: Seat, n: InstanceId)
    ensures SeatsOf(seats + {s}, n) == if s.instance == n then SeatsOf(seats, n) + {s} else SeatsOf(seats, n)
    ensures SeatsOf(seats - {s}, n) == SeatsOf(seats, n) - {s}
    ensures s.instance != n ==> SeatsOf(seats - {s}, n) == SeatsOf(seats, n)
  {
  }

  lemma EmptySound(catalog: map<ActivityId, nat>)
    requires forall a | a in catalog :: catalog[a] >= 1
    ensures Sound(Tables(catalog, map[], 1, {}, map[], map[]))
  {
  }

  lemma LaunchedCapacity(t: Tables, activity: ActivityId, group: GroupId, user: UserId, m: InstanceId)
    requires Sound(t) && activity in t.catalog
    requires m == t.nextInstance || IsActive(t, m)
    ensures WithinCapacity(t.(instances := t.instances[t.nextInstance := Instance(activity, group, user, true)],
                              nextInstance := t.nextInstance + 1, seats := t.seats + {Seat(t.nextInstance, user)}), m)
  {
    var n := t.nextInstance;
    assert SeatsOf(t.seats, n) == {};
    SeatsOfPlus(t.seats, Seat(n, user), m);
    if m != n {
      assert WithinCapacity(t, m);
    } else {
      assert SeatsOf(t.seats + {Seat(n, user)}, n) == {Seat(n, user)};
    }
  }

  lemma LaunchedActive(t: Tables, i: Instance, g: GroupId)
    requires forall n | n in t.instances :: n < t.nextInstance
    requires i.active
    requires |ActiveIn(t.instances, i.group)| < MAX_ACTIVE_INSTANCES_PER_GROUP
    requires |ActiveIn(t.instances, g)| <= MAX_ACTIVE_INSTANCES_PER_GROUP
    ensures |ActiveIn(t.instances[t.nextInstance := i], g)| <= MAX_ACTIVE_INSTANCES_PER_GROUP
  {
    var n := t.nextInstance;
    if g == i.group {
      assert ActiveIn(t.instances[n := i], g) == ActiveIn(t.instances, g) + {n};
    } else {
      assert ActiveIn(t.instances[n := i], g) == ActiveIn(t.instances, g);
    }
  }

  lemma LaunchSound(t: Tables, activity: ActivityId, group: GroupId, user: UserId, role: Role)
    requires Sound(t)
    ensures Sound(Launch(t, activity, group, user, role).0)
  {
    var (t', r) := Launch(t, activity, group, user, role);
    if r.Ok? {
      forall m | IsActive(t', m) ensures WithinCapacity(t', m) {
        LaunchedCapacity(t, activity, group, user, m);
      }
      forall g ensures |ActiveIn(t'.instances, g)| <= MAX_ACTIVE_INSTANCES_PER_GROUP {
        LaunchedActive(t, Instance(activity, group, user, true), g);
      }
      hide WithinCapacity, ActiveIn;
      forall s | Seated(t, s) ensures Seated(t', s) {
      }
    }
  }

  /**
    Exactly when a refused join undoes itself: an activity that has left the catalog leaves a new
    seat behind, and a full game takes the seat back even from a user who already had it.
   */
  lemma RefusedJoinExactly(t: Tables, n: InstanceId, user: UserId, role: Role, now: Time, code: Secret)
    requires Join(t, n, user, role, now, code).1.Err?
    ensures Join(t, n, user, role, now, code).0 == t <==>
              (IsActive(t, n) && role != NotMember ==>
                (Seat(n, user) in t.seats <==> t.instances[n].activity !in t.catalog))
  {
    var seat := Seat(n, user);
    if IsActive(t, n) && role != NotMember {
      assert seat in t.seats <==> t.seats + {seat} == t.seats;
      assert seat !in t.seats <==> t.seats - {seat} == t.seats;
    }
  }

  /** In sound tables a game is full only for a user who has no seat yet, so a refused join changes nothing. */
  lemma FullJoinChangesNothing(t: Tables, n: InstanceId, user: UserId, role: Role, now: Time, code: Secret)
    requires Sound(t) && Join(t, n, user, role, now, code).1.Err?
    ensures Join(t, n, user, role, now, code).0 == t
  {
    RefusedJoinExactly(t, n, user, role, now, code);
    if IsActive(t, n) && role != NotMember {
      assert WithinCapacity(t, n);
      assert Seat(n, user) in t.seats ==> t.seats + {Seat(n, user)} == t.seats;
    }
  }

  lemma JoinSound(t: Tables, n: InstanceId, user: UserId, role: Role, now: Time, code: Secret)
    requires Sound(t)
    ensures Sound(Join(t, n, user, role, now, code).0)
  {
    var (t', r) := Join(t, n, user, role, now, code);
    if r.Err? {
      FullJoinChangesNothing(t, n, user, role, now, code);
    } else {
      assert t'.instances == t.instances;
      forall m | IsActive(t', m) ensures WithinCapacity(t', m) {
        SeatsOfPlus(t.seats, Seat(n, user), m);
        assert IsActive(t, m) && WithinCapacity(t, m);
        CardinalityMonotone(SeatsOf(t.seats, m), SeatsOf(t'.seats, m));
      }
      forall s | Seated(t, s) ensures Seated(t', s) {
      }
      assert Seated(t', Seat(n, user));
    }
  }

  lemma ExchangeSound(t: Tables, n: InstanceId, code: Secret, now: Time, token: Secret)
    requires Sound(t)
    ensures Sound(Exchange(t, n, code, now, token).0)
  {
    var (t', r) := Exchange(t, n, code, now, token);
    if r.Ok? {
      forall s | Seated(t, s) ensures Seated(t', s) {
      }
      forall m | IsActive(t', m) ensures WithinCapacity(t', m) {
        assert IsActive(t, m) && WithinCapacity(t, m);
      }
    }
  }

  lemma EndRowActive(t: Tables, n: InstanceId, g: GroupId)
    ensures ActiveIn(EndRow(t, n).instances, g) == ActiveIn(t.instances, g) - {n}
  {
  }

  /** Ending needs less than `Sound` of the instance that ends. */
  lemma EndRowSound(t: Tables, n: InstanceId)
    requires forall a | a in t.catalog :: t.catalog[a] >= 1
    requires forall m | m in t.instances :: m < t.nextInstance
    requires forall s | s in t.seats :: s.instance in t.instances
    requires CredentialsSeated(t)
    requires forall m | IsActive(t, m) && m != n :: WithinCapacity(t, m)
    requires forall g :: |ActiveIn(t.instances, g)| <= MAX_ACTIVE_INSTANCES_PER_GROUP
    ensures Sound(EndRow(t, n))
  {
    var t' := EndRow(t, n);
    forall g ensures |ActiveIn(t'.instances, g)| <= MAX_ACTIVE_INSTANCES_PER_GROUP {
      EndRowActive(t, n, g);
      CardinalityMonotone(ActiveIn(t'.instances, g), ActiveIn(t.instances, g));
    }
    forall s | Seated(t, s) && s.instance != n ensures Seated(t', s) {
    }
    forall m | IsActive(t', m) ensures WithinCapacity(t', m) {
      assert IsActive(t, m) && m != n;
    }
  }

  lemma LeaveSound(t: Tables, n: InstanceId, user: UserId)
    requires Sound(t)
    ensures Sound(Leave(t, n, user).0)
  {
    var seat := Seat(n, user);
    var left := t.(
      tokens := map k | k in t.tokens && t.tokens[k].seat != seat :: t.tokens[k],
      codes := map k | k in t.codes && t.codes[k].seat != seat :: t.codes[k],
      seats := t.seats - {seat});
    assert left.instances == t.instances;
    forall s | Seated(t, s) && s != seat ensures Seated(left, s) {
    }
    assert CredentialsSeated(left);
    forall m | IsActive(left, m) && (m != n || SeatsOf(left.seats, n) != {}) ensures WithinCapacity(left, m) {
      assert IsActive(t, m) && WithinCapacity(t, m);
      SeatsOfPlus(t.seats, seat, m);
      CardinalityMonotone(SeatsOf(left.seats, m), SeatsOf(t.seats, m));
    }
    if SeatsOf(left.seats, n) == {} {
      EndRowSound(left, n);
    } else {
      assert Sound(left);
    }
  }

  lemma EndSound(t: Tables, n: InstanceId, user: UserId, role: Role)
    requires Sound(t)
    ensures Sound(End(t, n, user, role).0)
  {
    if End(t, n, user, role).1.Ok? {
      EndRowSound(t, n);
    }
  }
}
