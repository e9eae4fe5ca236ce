/**
  Where launch codes and instance tokens come from and when they die
  (rust/src/domain/activities.rs:228-400, 467-549), over whole runs of the atomic operations.

  A run keeps a log of what its operations did. The theorems say exactly, from the log alone,
  which exchanges succeed and which tokens resolve.
 */
module ActivityHistory {
  import opened Wrappers
  import opened Activities

  datatype Event =
    | Launched(instance: InstanceId, activity: ActivityId, group: GroupId, user: UserId)
    | Joined(seat: Seat, code: Secret, expiresAt: Time)
    | Exchanged(seat: Seat, code: Secret, token: Secret, expiresAt: Time)
    | Left(seat: Seat, last: bool)
    | Ended(instance: InstanceId, user: UserId, role: Role)

  datatype Op =
    | DoLaunch(activity: ActivityId, group: GroupId, user: UserId, role: Role)
    | DoJoin(instance: InstanceId, user: UserId, role: Role, code: Secret)
    | DoExchange(instance: InstanceId, code: Secret, token: Secret)
    | DoLeave(instance: InstanceId, user: UserId)
    | DoEnd(instance: InstanceId, user: UserId, role: Role)

  datatype World = World(t: Tables, clock: Time, log: seq<Event>)

  /** The event takes the seat's credentials away: its user leaves, or its instance ends. */
  predicate Kills(e: Event, seat: Seat) {
    match e
    case Left(s, last) => s == seat || (last && s.instance == seat.instance)
    case Ended(n, _, _) => n == seat.instance
    case _ => false
  }

  predicate Mentions(e: Event, secret: Secret) {
    match e
    case Joined(_, code, _) => code == secret
    case Exchanged(_, code, token, _) => code == secret || token == secret
    case _ => false
  }

  /** A freshly drawn secret has never been seen before. */
  ghost predicate Fresh(log: seq<Event>, secret: Secret) {
    forall i | 0 <= i < |log| :: !Mentions(log[i], secret)
  }

  function Apply(w: World, op: Op, now: Time): World {
    match op
    case DoLaunch(activity, group, user, role) =>
      var (t, r) := Launch(w.t, activity, group, user, role);
      World(t, now, if r.Ok? then w.log + [Launched(r.value, activity, group, user)] else w.log)
    case DoJoin(n, user, role, code) =>
      var (t, r) := Join(w.t, n, user, role, now, code);
      World(t, now, if r.Ok? then w.log + [Joined(Seat(n, user), code, now + LAUNCH_CODE_TTL)] else w.log)
    case DoExchange(n, code, token) =>
      var (t, r) := Exchange(w.t, n, code, now, token);
      World(t, now,
            if r.Ok? then w.log + [Exchanged(Seat(n, r.value), code, token, now + INSTANCE_TOKEN_TTL)] else w.log)
    case DoLeave(n, user) =>
      var (t, last) := Leave(w.t, n, user);
      World(t, now, w.log + [Left(Seat(n, user), last)])
    case DoEnd(n, user, role) =>
      var (t, r) := End(w.t, n, user, role);
      World(t, now, if r.Ok? then w.log + [Ended(n, user, role)] else w.log)
  }

  /** Time does not run backwards and drawn secrets are new. */
  ghost predicate Possible(w: World, op: Op, now: Time) {
    && w.clock <= now
    && (op.DoJoin? ==> Fresh(w.log, op.code))
    && (op.DoExchange? ==> Fresh(w.log, op.token) && op.token != op.code)
  }

  datatype TimedOp = At(op: Op, now: Time)

  ghost function Run(catalog: map<ActivityId, nat>, start: Time, ops: seq<TimedOp>): World {
    if ops == [] then World(Tables(catalog, map[], 1, {}, map[], map[]), start, [])
    else
      var w := Run(catalog, start, ops[..|ops| - 1]);
      var last := ops[|ops| - 1];
      if Possible(w, last.op, last.now) then Apply(w, last.op, last.now) else w
  }

  // ---------------------------------------------------------------------------
  // What the log says about a secret
  // ---------------------------------------------------------------------------

  function CodeAfter(e: Event, code: Secret, before: Option<CodeRow>): Option<CodeRow> {
    match e
    case Joined(seat, c, expiresAt) => if c == code then Some(CodeRow(seat, expiresAt, false)) else before
    case Exchanged(_, c, _, _) => if c == code && before.Some? then Some(before.value.(used := true)) else before
    case _ => if before.Some? && Kills(e, before.value.seat) then None else before
  }

  function TokenAfter(e: Event, token: Secret, before: Option<TokenRow>): Option<TokenRow> {
    match e
    case Joined(_, _, _) => before
    case Exchanged(seat, _, k, expiresAt) => if k == token then Some(TokenRow(seat, expiresAt)) else before
    case _ => if before.Some? && Kills(e, before.value.seat) then None else before
  }

  /** The code's row as the log implies it, had no expired row been swept. */
  function CodeIn(log: seq<Event>, code: Secret): Option<CodeRow> {
    if log == [] then None else CodeAfter(log[|log| - 1], code, CodeIn(log[..|log| - 1], code))
  }

  function TokenIn(log: seq<Event>, token: Secret): Option<TokenRow> {
    if log == [] then None else TokenAfter(log[|log| - 1], token, TokenIn(log[..|log| - 1], token))
  }

  /** The tables hold what the log implies about a secret, except for codes that have expired. */
  ghost predicate FaithfulAt(w: World, x: Secret) {
    && (x in w.t.codes ==> CodeIn(w.log, x) == Some(w.t.codes[x]))
    && (CodeIn(w.log, x).Some? && w.clock <= CodeIn(w.log, x).value.expiresAt ==> x in w.t.codes)
    && (x in w.t.tokens <==> TokenIn(w.log, x).Some?)
    && (x in w.t.tokens ==> TokenIn(w.log, x) == Some(w.t.tokens[x]))
  }

  ghost predicate Faithful(w: World) {
    forall x :: FaithfulAt(w, x)
  }

  /** One event more. */
  lemma LogAppend(log: seq<Event>, e: Event, x: Secret)
    ensures CodeIn(log + [e], x) == CodeAfter(e, x, CodeIn(log, x))
    ensures TokenIn(log + [e], x) == TokenAfter(e, x, TokenIn(log, x))
  {
    assert (log + [e])[..|log|] == log;
  }

  // ---------------------------------------------------------------------------
  // Every operation keeps the tables faithful to the log
  // ---------------------------------------------------------------------------

  lemma LaunchFaithful(w: World, op: Op, now: Time, x: Secret)
    requires FaithfulAt(w, x) && op.DoLaunch? && Possible(w, op, now)
    ensures FaithfulAt(Apply(w, op, now), x)
  {
    hide CodeIn, TokenIn;
    var (t, r) := Launch(w.t, op.activity, op.group, op.user, op.role);
    if r.Ok? {
      LogAppend(w.log, Launched(r.value, op.activity, op.group, op.user), x);
    }
  }

  lemma JoinFaithful(w: World, op: Op, now: Time, x: Secret)
    requires Sound(w.t) && FaithfulAt(w, x) && op.DoJoin? && Possible(w, op, now)
    ensures FaithfulAt(Apply(w, op, now), x)
  {
    hide CodeIn, TokenIn, Fresh, Sound, SeatsOf;
    if Join(w.t, op.instance, op.user, op.role, now, op.code).1.Err? {
      FullJoinChangesNothing(w.t, op.instance, op.user, op.role, now, op.code);
    } else {
      LogAppend(w.log, Joined(Seat(op.instance, op.user), op.code, now + LAUNCH_CODE_TTL), x);
    }
  }

  lemma ExchangeFaithful(w: World, op: Op, now: Time, x: Secret)
    requires FaithfulAt(w, x) && op.DoExchange? && Possible(w, op, now)
    ensures FaithfulAt(Apply(w, op, now), x)
  {
    hide CodeIn, TokenIn, Fresh;
    var (t, r) := Exchange(w.t, op.instance, op.code, now, op.token);
    if r.Ok? {
      LogAppend(w.log, Exchanged(Seat(op.instance, r.value), op.code, op.token, now + INSTANCE_TOKEN_TTL), x);
    }
  }

  lemma LeaveFaithful(w: World, op: Op, now: Time, x: Secret)
    requires FaithfulAt(w, x) && op.DoLeave? && Possible(w, op, now)
    ensures FaithfulAt(Apply(w, op, now), x)
  {
    hide CodeIn, TokenIn, SeatsOf;
    LogAppend(w.log, Left(Seat(op.instance, op.user), Leave(w.t, op.instance, op.user).1), x);
  }

  lemma EndFaithful(w: World, op: Op, now: Time, x: Secret)
    requires FaithfulAt(w, x) && op.DoEnd? && Possible(w, op, now)
    ensures FaithfulAt(Apply(w, op, now), x)
  {
    hide CodeIn, TokenIn;
    LogAppend(w.log, Ended(op.instance, op.user, op.role), x);
  }

  lemma ApplySound(w: World, op: Op, now: Time)
    requires Sound(w.t)
    ensures Sound(Apply(w, op, now).t)
  {
    hide Sound;
    match op
    case DoLaunch(activity, group, user, role) => LaunchSound(w.t, activity, group, user, role);
    case DoJoin(n, user, role, code) => JoinSound(w.t, n, user, role, now, code);
    case DoExchange(n, code, token) => ExchangeSound(w.t, n, code, now, token);
    case DoLeave(n, user) => LeaveSound(w.t, n, user);
    case DoEnd(n, user, role) => EndSound(w.t, n, user, role);
  }

  lemma ApplyFaithful(w: World, op: Op, now: Time)
    requires Sound(w.t) && Faithful(w) && Possible(w, op, now)
    ensures Sound(Apply(w, op, now).t) && Faithful(Apply(w, op, now))
  {
    ApplySound(w, op, now);
    hide Sound, FaithfulAt, Possible, Apply;
    forall x ensures FaithfulAt(Apply(w, op, now), x) {
      match op
      case DoLaunch(activity, group, user, role) => LaunchFaithful(w, op, now, x);
      case DoJoin(n, user, role, code) => JoinFaithful(w, op, now, x);
      case DoExchange(n, code, token) => ExchangeFaithful(w, op, now, x);
      case DoLeave(n, user) => LeaveFaithful(w, op, now, x);
      case DoEnd(n, user, role) => EndFaithful(w, op, now, x);
    }
  }

  // ---------------------------------------------------------------------------
  // Reading the log by position
  // ---------------------------------------------------------------------------

  /** Secrets are drawn once: what an event draws, no earlier event mentions. */
  ghost predicate DrawnOnce(log: seq<Event>) {
    forall i, j | 0 <= i < j < |log| ::
      && (log[j].Joined? ==> !Mentions(log[i], log[j].code))
      && (log[j].Exchanged? ==> !Mentions(log[i], log[j].token))
  }

  ghost predicate Unkilled(log: seq<Event>, i: nat, seat: Seat) {
    forall j | i < j < |log| :: !Kills(log[j], seat)
  }

  ghost predicate Unspent(log: seq<Event>, i: nat, code: Secret) {
    forall j | i < j < |log| :: !(log[j].Exchanged? && log[j].code == code)
  }

  /** The join at `i` minted the code, and nothing has killed it since. */
  ghost predicate MintedAt(log: seq<Event>, i: nat, code: Secret, row: CodeRow) {
    && i < |log| && log[i] == Joined(row.seat, code, row.expiresAt)
    && Unkilled(log, i, row.seat)
    && (!row.used <==> Unspent(log, i, code))
  }

  ghost predicate IssuedAt(log: seq<Event>, i: nat, token: Secret, row: TokenRow) {
    && i < |log| && log[i].Exchanged? && log[i].token == token
    && log[i].seat == row.seat && log[i].expiresAt == row.expiresAt
    && Unkilled(log, i, row.seat)
  }

  lemma {:induction false} CodeInMintedAt(log: seq<Event>, code: Secret, row: CodeRow) returns (i: nat)
    requires DrawnOnce(log) && CodeIn(log, code) == Some(row)
    ensures MintedAt(log, i, code, row)
    decreases |log|
  {
    var front, e := log[..|log| - 1], log[|log| - 1];
    assert DrawnOnce(front);
    if e.Joined? && e.code == code {
      i := |log| - 1;
    } else {
      var before := CodeIn(front, code).value;
      i := CodeInMintedAt(front, code, before);
      assert forall j | 0 <= j < |front| :: front[j] == log[j];
      assert Unkilled(log, i, row.seat);
      if e.Exchanged? && e.code == code {
        assert !Unspent(log, i, code);
      } else if before.used {
        var j :| i < j < |front| && front[j].Exchanged? && front[j].code == code;
        assert log[j].Exchanged? && log[j].code == code;
      }
    }
  }

  lemma {:induction false} MintedAtCodeIn(log: seq<Event>, i: nat, code: Secret, row: CodeRow)
    requires DrawnOnce(log) && MintedAt(log, i, code, row)
    ensures CodeIn(log, code) == Some(row)
    decreases |log|
  {
    var front, e := log[..|log| - 1], log[|log| - 1];
    assert DrawnOnce(front);
    if i < |log| - 1 {
      assert Mentions(log[i], code) && !Kills(e, row.seat);
      assert forall j | 0 <= j < |front| :: front[j] == log[j];
      assert Unkilled(front, i, row.seat);
      if Unspent(front, i, code) {
        MintedAtCodeIn(front, i, code, row.(used := false));
        if e.Exchanged? && e.code == code {
          assert !Unspent(log, i, code);
        } else {
          assert Unspent(log, i, code);
        }
      } else {
        var j :| i < j < |front| && front[j].Exchanged? && front[j].code == code;
        assert log[j].Exchanged? && log[j].code == code;
        MintedAtCodeIn(front, i, code, row.(used := true));
      }
    }
  }

  lemma {:induction false} TokenInIssuedAt(log: seq<Event>, token: Secret, row: TokenRow) returns (i: nat)
    requires DrawnOnce(log) && TokenIn(log, token) == Some(row)
    ensures IssuedAt(log, i, token, row)
    decreases |log|
  {
    var front, e := log[..|log| - 1], log[|log| - 1];
    assert DrawnOnce(front);
    if e.Exchanged? && e.token == token {
      i := |log| - 1;
    } else {
      i := TokenInIssuedAt(front, token, row);
      assert forall j | 0 <= j < |front| :: front[j] == log[j];
    }
  }

  lemma {:induction false} IssuedAtTokenIn(log: seq<Event>, i: nat, token: Secret, row: TokenRow)
    requires DrawnOnce(log) && IssuedAt(log, i, token, row)
    ensures TokenIn(log, token) == Some(row)
    decreases |log|
  {
    var front, e := log[..|log| - 1], log[|log| - 1];
    assert DrawnOnce(front);
    if i < |log| - 1 {
      assert Mentions(log[i], token) && !Kills(e, row.seat);
      assert forall j | 0 <= j < |front| :: front[j] == log[j];
      assert IssuedAt(front, i, token, row);
      IssuedAtTokenIn(front, i, token, row);
    }
  }

  // ---------------------------------------------------------------------------
  // Whole runs
  // ---------------------------------------------------------------------------

  /** The exchange at `i` spent a code that a join of the same seat had minted at `j`. */
  ghost predicate SpentFrom(log: seq<Event>, i: nat, j: nat)
    requires i < |log| && log[i].Exchanged?
  {
    && j < i && log[j].Joined? && log[j].code == log[i].code && log[j].seat == log[i].seat
    && forall k | j < k < i :: !Kills(log[k], log[i].seat) && !(log[k].Exchanged? && log[k].code == log[i].code)
  }

  ghost predicate AllSpentFrom(log: seq<Event>) {
    forall i | 0 <= i < |log| && log[i].Exchanged? :: exists j: nat :: SpentFrom(log, i, j)
  }

  ghost predicate Good(w: World) {
    Sound(w.t) && Faithful(w) && DrawnOnce(w.log) && AllSpentFrom(w.log)
  }

  lemma DrawnOnceAppend(log: seq<Event>, e: Event)
    requires DrawnOnce(log)
    requires e.Joined? ==> Fresh(log, e.code)
    requires e.Exchanged? ==> Fresh(log, e.token)
    ensures DrawnOnce(log + [e])
  {
  }

  lemma AllSpentFromAppend(log: seq<Event>, e: Event, from: nat)
    requires AllSpentFrom(log)
    requires e.Exchanged? ==> SpentFrom(log + [e], |log|, from)
    ensures AllSpentFrom(log + [e])
  {
    var log' := log + [e];
    forall i | 0 <= i < |log'| && log'[i].Exchanged? ensures exists j: nat :: SpentFrom(log', i, j) {
      if i < |log| {
        assert log[i].Exchanged?;
        var j: nat :| SpentFrom(log, i, j);
        assert SpentFrom(log', i, j);
      } else {
        assert SpentFrom(log', i, from);
      }
    }
  }

  lemma ExchangeSpends(w: World, op: Op, now: Time) returns (from: nat)
    requires Good(w) && op.DoExchange? && Exchange(w.t, op.instance, op.code, now, op.token).1.Ok?
    ensures var user := Exchange(w.t, op.instance, op.code, now, op.token).1.value;
            SpentFrom(w.log + [Exchanged(Seat(op.instance, user), op.code, op.token, now + INSTANCE_TOKEN_TTL)],
              |w.log|, from)
  {
    assert FaithfulAt(w, op.code);
    from := CodeInMintedAt(w.log, op.code, w.t.codes[op.code]);
  }

  lemma ApplyGood(w: World, op: Op, now: Time)
    requires Good(w) && Possible(w, op, now)
    ensures Good(Apply(w, op, now))
  {
    ApplyFaithful(w, op, now);
    var w' := Apply(w, op, now);
    hide Faithful, Sound;
    if |w'.log| > |w.log| {
      var e := w'.log[|w.log|];
      var from := 0;
      if op.DoExchange? {
        from := ExchangeSpends(w, op, now);
      }
      assert w'.log == w.log + [e];
      DrawnOnceAppend(w.log, e);
      AllSpentFromAppend(w.log, e, from);
    }
  }

  lemma {:induction false} RunGood(catalog: map<ActivityId, nat>, start: Time, ops: seq<TimedOp>)
    requires forall a | a in catalog :: catalog[a] >= 1
    ensures Good(Run(catalog, start, ops))
  {
    if ops == [] {
      EmptySound(catalog);
    } else {
      RunGood(catalog, start, ops[..|ops| - 1]);
      var w, last := Run(catalog, start, ops[..|ops| - 1]), ops[|ops| - 1];
      hide Good, Possible, Apply;
      if Possible(w, last.op, last.now) {
        ApplyGood(w, last.op, last.now);
      }
    }
  }

  /** The tables are sound after every run of the operations. */
  lemma RunSound(catalog: map<ActivityId, nat>, start: Time, ops: seq<TimedOp>)
    requires forall a | a in catalog :: catalog[a] >= 1
    ensures Sound(Run(catalog, start, ops).t)
  {
    RunGood(catalog, start, ops);
  }

  /** A join of the seat minted the code in time, nothing killed it since, and it is unspent. */
  ghost predicate Redeemable(log: seq<Event>, i: nat, seat: Seat, code: Secret, now: Time) {
    && i < |log| && log[i].Joined? && log[i].seat == seat && log[i].code == code && now <= log[i].expiresAt
    && Unkilled(log, i, seat) && Unspent(log, i, code)
  }

  /**
    Single use, exactly: after any run, a code is exchanged for a user's token if and only if a
    join of that user and instance minted it, it has not expired, it was not exchanged before,
    and since it was minted the user has not left and the instance has not ended.
   */
  lemma ExchangeExactly(catalog: map<ActivityId, nat>, start: Time, ops: seq<TimedOp>,
                        n: InstanceId, user: UserId, code: Secret, now: Time, token: Secret)
    requires forall a | a in catalog :: catalog[a] >= 1
    requires Run(catalog, start, ops).clock <= now
    ensures var w := Run(catalog, start, ops);
            Exchange(w.t, n, code, now, token).1 == Ok(user) <==>
              exists i: nat :: Redeemable(w.log, i, Seat(n, user), code, now)
  {
    var w := Run(catalog, start, ops);
    RunGood(catalog, start, ops);
    assert FaithfulAt(w, code);
    hide Run;
    if Exchange(w.t, n, code, now, token).1 == Ok(user) {
      var i := CodeInMintedAt(w.log, code, w.t.codes[code]);
      assert Redeemable(w.log, i, Seat(n, user), code, now);
    }
    if i: nat :| Redeemable(w.log, i, Seat(n, user), code, now) {
      MintedAtCodeIn(w.log, i, code, CodeRow(Seat(n, user), w.log[i].expiresAt, false));
      assert code in w.t.codes;
      assert Seated(w.t, w.t.codes[code].seat);
    }
  }

  /** An exchange issued the token for the seat in time, and nothing killed it since. */
  ghost predicate Valid(log: seq<Event>, i: nat, seat: Seat, token: Secret, now: Time) {
    && i < |log| && log[i].Exchanged? && log[i].seat == seat && log[i].token == token && now <= log[i].expiresAt
    && Unkilled(log, i, seat)
  }

  /**
    A token resolves to a seat, exactly when an exchange issued it for that seat, it has not
    expired, and since then the user has not left and the instance has not ended. An id of 0 is
    none.
   */
  lemma IdentityExactly(catalog: map<ActivityId, nat>, start: Time, ops: seq<TimedOp>, seat: Seat, token: Secret,
          now: Time)
    requires forall a | a in catalog :: catalog[a] >= 1
    ensures var w := Run(catalog, start, ops);
            Identity(w.t, token, now) == Some(seat) <==>
              seat.instance != 0 && seat.user != 0 && exists i: nat :: Valid(w.log, i, seat, token, now)
  {
    var w := Run(catalog, start, ops);
    RunGood(catalog, start, ops);
    assert FaithfulAt(w, token);
    hide Run;
    if Identity(w.t, token, now) == Some(seat) {
      var i := TokenInIssuedAt(w.log, token, w.t.tokens[token]);
      assert Valid(w.log, i, seat, token, now);
    }
    if i: nat :| Valid(w.log, i, seat, token, now) {
      IssuedAtTokenIn(w.log, i, token, TokenRow(seat, w.log[i].expiresAt));
      assert token in w.t.tokens;
      assert Seated(w.t, w.t.tokens[token].seat);
    }
  }

  /**
    Provenance: in every run each token comes from exactly one exchange, each exchange spends a
    code that an earlier join of the same user and instance minted and that no leave or end has
    killed since, and no code is exchanged twice.
   */
  lemma Provenance(catalog: map<ActivityId, nat>, start: Time, ops: seq<TimedOp>, i: nat)
    requires forall a | a in catalog :: catalog[a] >= 1
    requires var log := Run(catalog, start, ops).log; i < |log| && log[i].Exchanged?
    ensures var log := Run(catalog, start, ops).log;
            && (exists j: nat :: SpentFrom(log, i, j))
            && forall k | 0 <= k < |log| && k != i && log[k].Exchanged? ::
                 log[k].code != log[i].code && log[k].token != log[i].token
  {
    var log := Run(catalog, start, ops).log;
    RunGood(catalog, start, ops);
    hide Run;
    forall k | 0 <= k < |log| && k != i && log[k].Exchanged?
      ensures log[k].code != log[i].code && log[k].token != log[i].token
    {
      SpentOnce(log, if i < k then i else k, if i < k then k else i);
    }
  }

  lemma SpentOnce(log: seq<Event>, i: nat, k: nat)
    requires DrawnOnce(log) && AllSpentFrom(log)
    requires i < k < |log| && log[i].Exchanged? && log[k].Exchanged?
    ensures log[k].code != log[i].code && log[k].token != log[i].token
  {
    var j: nat :| SpentFrom(log, k, j);
    assert !Mentions(log[i], log[k].token);
    assert Mentions(log[i], log[i].code);
    assert i < j ==> !Mentions(log[i], log[j].code);
  }
}
