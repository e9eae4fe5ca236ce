/**
  Which tokens resolve when `exchange_code` runs statement by statement
  (rust/src/domain/activities.rs:313-402, 467-549), while joins, leaves and ends come between. A token
  that is inserted after its user has left is late: it outlives the departure.
 */
module ActivityTokens {
  import opened Wrappers
  import opened Activities
  import X = ActivityExchange

  /** What happened to codes, tokens and seats. */
  datatype Mark =
    | Found(call: nat, seat: Seat)
    | Stored(call: nat, token: Secret, seat: Seat, expiresAt: Time)
    | Left(seat: Seat, last: bool)
    | Ended(instance: InstanceId)

  datatype Trace = Trace(w: X.World, log: seq<Mark>)

  /** The seat a call exchanges for, once its SELECT has found the code. */
  predicate PastRead(p: X.Exchanging) {
    p.ReadInstance? || p.MarkUsed? || p.InsertToken?
  }

  function SeatOf(p: X.Exchanging): Seat
    requires PastRead(p)
  {
    Seat(p.instance, p.user)
  }

  /** The next statement of the call inserts its token. */
  predicate Inserts(w: X.World, s: X.Step) {
    s.Execute? && s.call < |w.calls| && w.calls[s.call].InsertToken?
  }

  predicate Finds(w: X.World, s: X.Step) {
    && s.Read? && s.call < |w.calls| && w.calls[s.call].ReadCode?
    && X.Spendable(w.t, w.calls[s.call].instance, w.calls[s.call].code, s.now)
  }

  function Marks(w: X.World, s: X.Step): seq<Mark> {
    if Finds(w, s) then [Found(s.call, w.t.codes[w.calls[s.call].code].seat)]
    else if Inserts(w, s) then [Stored(s.call, s.token, SeatOf(w.calls[s.call]), s.now + INSTANCE_TOKEN_TTL)]
    else if s.Whole? && s.op.DoLeave? then
      [Left(Seat(s.op.instance, s.op.user), Leave(w.t, s.op.instance, s.op.user).1)]
    else if s.Whole? && s.op.DoEnd? && End(w.t, s.op.instance, s.op.user, s.op.role).1.Ok? then
      [Ended(s.op.instance)]
    else []
  }

  /** A random token is never drawn twice. */
  predicate Possible(h: Trace, s: X.Step) {
    Inserts(h.w, s) ==> forall m | 0 <= m < |h.log| && h.log[m].Stored? :: h.log[m].token != s.token
  }

  function Do(h: Trace, s: X.Step): Trace {
    if Possible(h, s) then Trace(X.Do(h.w, s), h.log + Marks(h.w, s)) else h
  }

  function Run(catalog: map<ActivityId, nat>, steps: seq<X.Step>): Trace {
    if steps == [] then Trace(X.Beginning(catalog), [])
    else Do(Run(catalog, steps[..|steps| - 1]), steps[|steps| - 1])
  }

  predicate Kills(m: Mark, seat: Seat) {
    match m
    case Left(s, last) => s == seat || (last && s.instance == seat.instance)
    case Ended(n) => n == seat.instance
    case _ => false
  }

  predicate Unkilled(log: seq<Mark>, i: nat, seat: Seat) {
    forall m | i < m < |log| :: !Kills(log[m], seat)
  }

  // ---------------------------------------------------------------------------
  // What the log says about a token
  // ---------------------------------------------------------------------------

  function TokenIn(log: seq<Mark>, token: Secret): Option<TokenRow> {
    if log == [] then None
    else
      var before := TokenIn(log[..|log| - 1], token);
      match log[|log| - 1]
      case Stored(_, k, seat, expiresAt) => if k == token then Some(TokenRow(seat, expiresAt)) else before
      case _ => if before.Some? && Kills(log[|log| - 1], before.value.seat) then None else before
  }

  lemma TokenAppend(log: seq<Mark>, m: Mark, token: Secret)
    ensures TokenIn(log + [m], token) ==
            if m.Stored? then if m.token == token then Some(TokenRow(m.seat, m.expiresAt)) else TokenIn(log, token)
            else if TokenIn(log, token).Some? && Kills(m, TokenIn(log, token).value.seat) then None
            else TokenIn(log, token)
  {
    assert (log + [m])[..|log|] == log;
  }

  ghost predicate Faithful(h: Trace) {
    forall k :: if k in h.w.t.tokens then TokenIn(h.log, k) == Some(h.w.t.tokens[k]) else TokenIn(h.log, k).None?
  }

  /** What a step does to the tokens. */
  lemma TokensAfter(w: X.World, s: X.Step)
    ensures var t' := X.Do(w, s).t;
            && |Marks(w, s)| <= 1
            && (Marks(w, s) == [] ==> t'.tokens == w.t.tokens)
            && (Marks(w, s) != [] ==>
                  var m := Marks(w, s)[0];
                  if m.Stored? then t'.tokens == w.t.tokens[m.token := TokenRow(m.seat, m.expiresAt)]
                  else t'.tokens == map j | j in w.t.tokens && !Kills(m, w.t.tokens[j].seat) :: w.t.tokens[j])
  {
  }

  lemma StepFaithful(h: Trace, s: X.Step)
    requires Faithful(h)
    ensures Faithful(Do(h, s))
  {
    var h' := Do(h, s);
    TokensAfter(h.w, s);
    hide X.Do, Marks, TokenIn, Kills, Possible;
    if Possible(h, s) {
      forall k
        ensures if k in h'.w.t.tokens then TokenIn(h'.log, k) == Some(h'.w.t.tokens[k]) else TokenIn(h'.log, k).None?
      {
        if Marks(h.w, s) == [] {
          assert h.log + [] == h.log;
        } else {
          assert Marks(h.w, s) == [Marks(h.w, s)[0]];
          TokenAppend(h.log, Marks(h.w, s)[0], k);
        }
      }
    }
  }

  lemma {:induction false} RunFaithful(catalog: map<ActivityId, nat>, steps: seq<X.Step>)
    ensures Faithful(Run(catalog, steps))
  {
    if steps != [] {
      RunFaithful(catalog, steps[..|steps| - 1]);
      StepFaithful(Run(catalog, steps[..|steps| - 1]), steps[|steps| - 1]);
      hide Do, Faithful;
    }
  }

  /** The token was stored for the seat at `p`, and the seat has been kept since. */
  predicate StoredAt(log: seq<Mark>, p: nat, token: Secret, row: TokenRow) {
    && p < |log| && log[p].Stored? && log[p].token == token
    && log[p].seat == row.seat && log[p].expiresAt == row.expiresAt && Unkilled(log, p, row.seat)
  }

  /** Every token is stored once. */
  predicate StoredOnce(log: seq<Mark>) {
    forall i, j | 0 <= i < j < |log| && log[i].Stored? && log[j].Stored? :: log[i].token != log[j].token
  }

  lemma StepStoredOnce(h: Trace, s: X.Step)
    requires StoredOnce(h.log)
    ensures StoredOnce(Do(h, s).log)
  {
    TokensAfter(h.w, s);
    hide X.Do, Finds;
  }

  lemma {:induction false} RunStoredOnce(catalog: map<ActivityId, nat>, steps: seq<X.Step>)
    ensures StoredOnce(Run(catalog, steps).log)
  {
    if steps != [] {
      RunStoredOnce(catalog, steps[..|steps| - 1]);
      StepStoredOnce(Run(catalog, steps[..|steps| - 1]), steps[|steps| - 1]);
      hide Do, StoredOnce;
    }
  }

  lemma {:induction false} TokenInIsStored(log: seq<Mark>, token: Secret, row: TokenRow)
    requires StoredOnce(log)
    ensures TokenIn(log, token) == Some(row) <==> exists p: nat :: StoredAt(log, p, token, row)
  {
    if log != [] {
      var front, m := log[..|log| - 1], log[|log| - 1];
      TokenInIsStored(front, token, row);
      hide TokenIn, Kills;
      assert log == front + [m];
      TokenAppend(front, m, token);
      StoredAppend(front, m, token, row);
      if m.Stored? && m.token == token {
        assert forall p: nat | p < |front| && front[p].Stored? :: front[p].token != token;
      }
    }
  }

  lemma StoredAppend(log: seq<Mark>, m: Mark, token: Secret, row: TokenRow)
    ensures (exists p: nat :: StoredAt(log + [m], p, token, row)) <==>
              || m == Stored(if m.Stored? then m.call else 0, token, row.seat, row.expiresAt)
              || (!Kills(m, row.seat) && exists p: nat :: StoredAt(log, p, token, row))
  {
    var more := log + [m];
    if p: nat :| StoredAt(more, p, token, row) {
      if p < |log| {
        assert more[p] == log[p] && !Kills(more[|log|], row.seat);
        assert forall i | p < i < |log| :: more[i] == log[i];
        assert StoredAt(log, p, token, row);
      } else {
        assert more[p] == m;
      }
    }
    if m == Stored(if m.Stored? then m.call else 0, token, row.seat, row.expiresAt) {
      assert more[|log|] == m && StoredAt(more, |log|, token, row);
    }
    if !Kills(m, row.seat) {
      if p: nat :| StoredAt(log, p, token, row) {
        assert more[p] == log[p];
        assert forall i | p < i < |log| :: more[i] == log[i];
        assert StoredAt(more, p, token, row);
      }
    }
  }

  /**
    However the statements interleave, a token resolves to a seat exactly if it was stored for the
    seat, has not expired, no leave or end came since it was stored, and the seat is taken now.
   */
  lemma TokenResolvesExactly(catalog: map<ActivityId, nat>, steps: seq<X.Step>, seat: Seat, token: Secret, now: Time)
    requires seat.instance != 0 && seat.user != 0
    ensures var h := Run(catalog, steps);
            Identity(h.w.t, token, now) == Some(seat) <==>
              && Seated(h.w.t, seat)
              && exists p: nat, e: Time :: StoredAt(h.log, p, token, TokenRow(seat, e)) && !Expired(e, now)
  {
    var h := Run(catalog, steps);
    RunFaithful(catalog, steps);
    RunStoredOnce(catalog, steps);
    hide Run, TokenIn, StoredAt, StoredOnce;
    if Identity(h.w.t, token, now) == Some(seat) {
      var row := h.w.t.tokens[token];
      TokenInIsStored(h.log, token, row);
      var p: nat :| StoredAt(h.log, p, token, row);
      assert StoredAt(h.log, p, token, TokenRow(seat, row.expiresAt)) && !Expired(row.expiresAt, now);
    }
    if p: nat, e: Time :| StoredAt(h.log, p, token, TokenRow(seat, e)) && !Expired(e, now) {
      TokenInIsStored(h.log, token, TokenRow(seat, e));
      assert token in h.w.t.tokens;
    }
  }

  // ---------------------------------------------------------------------------
  // Late tokens
  // ---------------------------------------------------------------------------

  /** The user has left, or the instance has ended, since the call found its code. */
  ghost predicate Late(log: seq<Mark>, i: nat, seat: Seat) {
    exists j: nat :: j < |log| && log[j] == Found(i, seat) && !Unkilled(log, j, seat)
  }

  /** The step inserts a token whose user has left since the code was found. */
  ghost predicate StoresLate(h: Trace, s: X.Step) {
    Possible(h, s) && Inserts(h.w, s) && Late(h.log, s.call, SeatOf(h.w.calls[s.call]))
  }

  /** The code was found at `j`, the token stored at `p` by the same call, and the seat kept all the time. */
  predicate Timeline(log: seq<Mark>, j: nat, p: nat, token: Secret, row: TokenRow) {
    && j < p < |log| && log[j].Found? && log[j].seat == row.seat
    && log[p] == Stored(log[j].call, token, row.seat, row.expiresAt) && Unkilled(log, j, row.seat)
  }

  /** No leave or end has come since the code of any token was found. */
  ghost predicate Timely(h: Trace) {
    forall k | k in h.w.t.tokens :: exists j: nat, p: nat :: Timeline(h.log, j, p, k, h.w.t.tokens[k])
  }

  /** Every call that has found its code did so once, and the log says where. */
  ghost predicate CallsFound(h: Trace) {
    && (forall m | 0 <= m < |h.log| && h.log[m].Found? ::
          h.log[m].call < |h.w.calls| && !h.w.calls[h.log[m].call].ReadCode?)
    && (forall j, m | 0 <= j < m < |h.log| && h.log[j].Found? && h.log[m].Found? :: h.log[j].call != h.log[m].call)
    && (forall i | 0 <= i < |h.w.calls| && PastRead(h.w.calls[i]) ::
          exists j: nat :: j < |h.log| && h.log[j] == Found(i, SeatOf(h.w.calls[i])))
  }

  ghost predicate CallsSeated(h: Trace) {
    forall i | 0 <= i < |h.w.calls| && PastRead(h.w.calls[i]) && !Late(h.log, i, SeatOf(h.w.calls[i])) ::
      Seated(h.w.t, SeatOf(h.w.calls[i]))
  }

  ghost predicate Good(h: Trace) {
    Sound(h.w.t) && Faithful(h) && StoredOnce(h.log) && CallsFound(h) && CallsSeated(h) && Timely(h)
  }

  /** What a step does to a call. */
  lemma CallAfter(w: X.World, s: X.Step, i: nat)
    requires i < |X.Do(w, s).calls| && PastRead(X.Do(w, s).calls[i])
    ensures var w' := X.Do(w, s);
            if Finds(w, s) && s.call == i
            then
              && Marks(w, s) == [Found(i, SeatOf(w'.calls[i]))]
              && w.t.codes[w.calls[i].code].seat == SeatOf(w'.calls[i])
            else i < |w.calls| && PastRead(w.calls[i]) && SeatOf(w'.calls[i]) == SeatOf(w.calls[i])
  {
  }

  lemma CallsAfter(w: X.World, s: X.Step)
    ensures var w' := X.Do(w, s);
            && |w.calls| <= |w'.calls|
            && (forall i | 0 <= i < |w.calls| && !w.calls[i].ReadCode? :: !w'.calls[i].ReadCode?)
            && (forall m | m in Marks(w, s) && m.Found? ::
                  m.call < |w.calls| && w.calls[m.call].ReadCode? && !w'.calls[m.call].ReadCode?)
            && |Marks(w, s)| <= 1
  {
  }

  lemma StepCallsFound(h: Trace, s: X.Step)
    requires CallsFound(h)
    ensures CallsFound(Do(h, s))
  {
    var h' := Do(h, s);
    CallsAfter(h.w, s);
    hide X.Do, Marks, Possible;
    if Possible(h, s) {
      forall m | 0 <= m < |h'.log| && h'.log[m].Found?
        ensures h'.log[m].call < |h'.w.calls| && !h'.w.calls[h'.log[m].call].ReadCode?
      {
        assert m >= |h.log| ==> h'.log[m] in Marks(h.w, s);
      }
      forall j, m | 0 <= j < m < |h'.log| && h'.log[j].Found? && h'.log[m].Found?
        ensures h'.log[j].call != h'.log[m].call
      {
        assert m >= |h.log| ==> h'.log[m] in Marks(h.w, s);
        assert h'.log[j] == h.log[j];
      }
      forall i | 0 <= i < |h'.w.calls| && PastRead(h'.w.calls[i])
        ensures exists j: nat :: j < |h'.log| && h'.log[j] == Found(i, SeatOf(h'.w.calls[i]))
      {
        CallAfter(h.w, s, i);
        if Finds(h.w, s) && s.call == i {
          assert h'.log[|h.log|] == Found(i, SeatOf(h'.w.calls[i]));
        } else {
          var j: nat :| j < |h.log| && h.log[j] == Found(i, SeatOf(h.w.calls[i]));
          assert h'.log[j] == h.log[j];
        }
      }
    }
  }

  /** A call is late after a step exactly if it was before, or the step takes its seat away. */
  lemma LateAfter(h: Trace, s: X.Step, i: nat, seat: Seat)
    requires Possible(h, s)
    ensures Late(h.log, i, seat) ==> Late(Do(h, s).log, i, seat)
    ensures (exists j: nat :: j < |h.log| && h.log[j] == Found(i, seat)) &&
            (exists m :: m in Marks(h.w, s) && Kills(m, seat)) ==>
              Late(Do(h, s).log, i, seat)
  {
    var log' := Do(h, s).log;
    hide Marks, X.Do, Kills;
    if j: nat :| j < |h.log| && h.log[j] == Found(i, seat) && !Unkilled(h.log, j, seat) {
      var m :| j < m < |h.log| && Kills(h.log[m], seat);
      assert log'[j] == h.log[j] && log'[m] == h.log[m];
    }
    if exists m :: m in Marks(h.w, s) && Kills(m, seat) {
      var m :| m in Marks(h.w, s) && Kills(m, seat);
      var n :| 0 <= n < |Marks(h.w, s)| && Marks(h.w, s)[n] == m;
      assert log'[|h.log| + n] == m;
      if j: nat :| j < |h.log| && h.log[j] == Found(i, seat) {
        assert log'[j] == h.log[j] && !Unkilled(log', j, seat);
      }
    }
  }

  /** A taken seat stays taken unless the log says that it was given up. */
  lemma SeatedAfter(w: X.World, s: X.Step, seat: Seat)
    requires Sound(w.t) && Seated(w.t, seat) && forall m | m in Marks(w, s) :: !Kills(m, seat)
    ensures Seated(X.Do(w, s).t, seat)
  {
    if s.Whole? {
      match s.op
      case DoLaunch(activity, group, user, role) =>
      case DoJoin(n, user, role, now, code) =>
        if Join(w.t, n, user, role, now, code).1.Err? {
          FullJoinChangesNothing(w.t, n, user, role, now, code);
        }
      case DoLeave(n, user) =>
        assert Left(Seat(n, user), Leave(w.t, n, user).1) in Marks(w, s);
      case DoEnd(n, user, role) =>
        if End(w.t, n, user, role).1.Ok? {
          assert Ended(n) in Marks(w, s);
        }
    }
    hide Sound, SeatsOf, Swept;
  }

  lemma StepCallsSeated(h: Trace, s: X.Step)
    requires Sound(h.w.t) && CallsFound(h) && CallsSeated(h)
    ensures CallsSeated(Do(h, s))
  {
    var h' := Do(h, s);
    if Possible(h, s) {
      forall i | 0 <= i < |h'.w.calls| && PastRead(h'.w.calls[i]) && !Late(h'.log, i, SeatOf(h'.w.calls[i]))
        ensures Seated(h'.w.t, SeatOf(h'.w.calls[i]))
      {
        CallSeatedAfter(h, s, i);
      }
    }
    hide Do, Sound, CallsFound, Late, Seated;
  }

  lemma CallSeatedAfter(h: Trace, s: X.Step, i: nat)
    requires Sound(h.w.t) && CallsFound(h) && CallsSeated(h) && Possible(h, s)
    requires var h' := Do(h, s);
             i < |h'.w.calls| && PastRead(h'.w.calls[i]) && !Late(h'.log, i, SeatOf(h'.w.calls[i]))
    ensures Seated(Do(h, s).w.t, SeatOf(Do(h, s).w.calls[i]))
  {
    var seat := SeatOf(Do(h, s).w.calls[i]);
    CallAfter(h.w, s, i);
    LateAfter(h, s, i, seat);
    assert Finds(h.w, s) ==> Seated(h.w.t, h.w.t.codes[h.w.calls[s.call].code].seat);
    hide X.Do, Marks, Late, Kills, Sound, Seated;
    if Finds(h.w, s) && s.call == i {
      assert forall m | m in Marks(h.w, s) :: m.Found?;
      FoundKillsNothing(h.w, s, seat);
    } else {
      var j: nat :| j < |h.log| && h.log[j] == Found(i, seat);
    }
    SeatedAfter(h.w, s, seat);
  }

  lemma FoundKillsNothing(w: X.World, s: X.Step, seat: Seat)
    requires Finds(w, s)
    ensures forall m | m in Marks(w, s) :: !Kills(m, seat)
  {
  }

  lemma StepSound(h: Trace, s: X.Step)
    requires Sound(h.w.t) && CallsSeated(h) && !StoresLate(h, s)
    ensures Sound(Do(h, s).w.t)
  {
    var t, t' := h.w.t, Do(h, s).w.t;
    if s.Whole? {
      match s.op
      case DoLaunch(activity, group, user, role) => LaunchSound(t, activity, group, user, role);
      case DoJoin(n, user, role, now, code) => JoinSound(t, n, user, role, now, code);
      case DoLeave(n, user) => LeaveSound(t, n, user);
      case DoEnd(n, user, role) => EndSound(t, n, user, role);
      hide Sound, Launch, Join, Leave, End;
    } else {
      assert Possible(h, s) && Inserts(h.w, s) ==> Seated(t, SeatOf(h.w.calls[s.call]));
      CredentialsAfter(h.w, s);
      hide X.Do, Late, CallsSeated;
      SameSeatsSound(t, t');
    }
  }

  /** The statements of an exchange store a token and mark a code, and nothing else. */
  lemma CredentialsAfter(w: X.World, s: X.Step)
    requires !s.Whole?
    ensures var t' := X.Do(w, s).t;
            && t' == w.t.(codes := t'.codes, tokens := t'.tokens)
            && (forall k | k in t'.codes :: k in w.t.codes && t'.codes[k].seat == w.t.codes[k].seat)
            && (forall k | k in t'.tokens ::
                  || (k in w.t.tokens && t'.tokens[k] == w.t.tokens[k])
                  || (Inserts(w, s) && t'.tokens[k].seat == SeatOf(w.calls[s.call])))
  {
  }

  lemma SameSeatsSound(t: Tables, t': Tables)
    requires Sound(t) && t' == t.(codes := t'.codes, tokens := t'.tokens)
    requires forall k | k in t'.codes :: k in t.codes && t'.codes[k].seat == t.codes[k].seat
    requires forall k | k in t'.tokens :: Seated(t, t'.tokens[k].seat)
    ensures Sound(t')
  {
    forall n | IsActive(t', n) ensures WithinCapacity(t', n) {
      assert IsActive(t, n) && WithinCapacity(t, n);
    }
    assert CredentialsSeated(t') by {
      forall k | k in t'.codes ensures Seated(t', t'.codes[k].seat) {
        assert Seated(t, t.codes[k].seat);
      }
      forall k | k in t'.tokens ensures Seated(t', t'.tokens[k].seat) {
        assert Seated(t, t'.tokens[k].seat);
      }
    }
    hide SeatsOf, ActiveIn;
  }

  lemma TimelineKept(log: seq<Mark>, marks: seq<Mark>, j: nat, p: nat, token: Secret, row: TokenRow)
    requires Timeline(log, j, p, token, row) && forall m | m in marks :: !Kills(m, row.seat)
    ensures Timeline(log + marks, j, p, token, row)
  {
    var more := log + marks;
    assert more[j] == log[j] && more[p] == log[p];
    forall m | j < m < |more| ensures !Kills(more[m], row.seat) {
      if m < |log| {
        assert more[m] == log[m];
      } else {
        assert more[m] in marks;
      }
    }
    hide Kills;
  }

  /** A token that was there before the step and still is. */
  lemma OldTokenTimely(h: Trace, s: X.Step, k: Secret)
    requires Timely(h) && Possible(h, s) && k in h.w.t.tokens && k in Do(h, s).w.t.tokens
    requires Inserts(h.w, s) ==> k != s.token
    ensures var h' := Do(h, s);
            exists j: nat, p: nat :: Timeline(h'.log, j, p, k, h'.w.t.tokens[k])
  {
    var row := h.w.t.tokens[k];
    TokensAfter(h.w, s);
    assert Do(h, s).w.t.tokens[k] == row;
    assert forall m | m in Marks(h.w, s) :: !Kills(m, row.seat);
    var j: nat, p: nat :| Timeline(h.log, j, p, k, row);
    hide X.Do, Marks, Kills, Timeline;
    TimelineKept(h.log, Marks(h.w, s), j, p, k, row);
  }

  /** The token that the step inserts. */
  lemma NewTokenTimely(h: Trace, s: X.Step)
    requires CallsFound(h) && Possible(h, s) && Inserts(h.w, s)
    ensures var h' := Do(h, s);
            && s.token in h'.w.t.tokens
            && ((exists j: nat, p: nat :: Timeline(h'.log, j, p, s.token, h'.w.t.tokens[s.token])) <==>
                  !StoresLate(h, s))
  {
    var h' := Do(h, s);
    var i, seat, n := s.call, SeatOf(h.w.calls[s.call]), |h.log|;
    var stored := Stored(i, s.token, seat, s.now + INSTANCE_TOKEN_TTL);
    assert h'.log == h.log + [stored] && s.token in h'.w.t.tokens;
    var row := h'.w.t.tokens[s.token];
    assert row == TokenRow(seat, s.now + INSTANCE_TOKEN_TTL);
    var j: nat :| j < n && h.log[j] == Found(i, seat);
    assert h'.log[j] == h.log[j] && h'.log[n] == stored;
    assert forall m | 0 <= m < n :: h'.log[m] == h.log[m];
    hide X.Do, Marks;
    assert Late(h.log, i, seat) <==> !Unkilled(h.log, j, seat);
    if Unkilled(h.log, j, seat) {
      assert Timeline(h'.log, j, n, s.token, row);
    }
    forall j': nat, p': nat | Timeline(h'.log, j', p', s.token, row) ensures Unkilled(h.log, j, seat) {
      assert p' == n && h.log[j'] == Found(i, seat);
      assert j' == j;
    }
  }

  lemma StepTimely(h: Trace, s: X.Step)
    requires Timely(h) && CallsFound(h)
    ensures Timely(Do(h, s)) <==> !StoresLate(h, s)
  {
    var h' := Do(h, s);
    if Possible(h, s) {
      TokensAfter(h.w, s);
      hide X.Do, Marks, Timeline, Kills;
      forall k | k in h'.w.t.tokens && !(Inserts(h.w, s) && k == s.token)
        ensures exists j: nat, p: nat :: Timeline(h'.log, j, p, k, h'.w.t.tokens[k])
      {
        TokenBefore(h, s, k);
        OldTokenTimely(h, s, k);
      }
      if Inserts(h.w, s) {
        NewTokenTimely(h, s);
      }
    }
    hide Possible, Inserts, Late, CallsFound;
  }

  lemma TokenBefore(h: Trace, s: X.Step, k: Secret)
    requires Possible(h, s) && k in Do(h, s).w.t.tokens && !(Inserts(h.w, s) && k == s.token)
    ensures k in h.w.t.tokens
  {
    TokensAfter(h.w, s);
  }

  /**
    For one step: whatever comes between, all tokens stay in time if and only if the step does not
    insert a token whose user has left, or whose instance has ended, since the code was found.
   */
  lemma LateExactly(h: Trace, s: X.Step)
    requires Good(h)
    ensures Timely(Do(h, s)) <==> !StoresLate(h, s)
    ensures !StoresLate(h, s) ==> Good(Do(h, s))
  {
    hide *;
    GoodParts(h);
    StepTimely(h, s);
    if !StoresLate(h, s) {
      StepFaithful(h, s);
      StepStoredOnce(h, s);
      StepCallsFound(h, s);
      StepCallsSeated(h, s);
      StepSound(h, s);
      PartsGood(Do(h, s));
    }
  }

  lemma GoodParts(h: Trace)
    requires Good(h)
    ensures Sound(h.w.t) && Faithful(h) && StoredOnce(h.log) && CallsFound(h) && CallsSeated(h) && Timely(h)
  {
  }

  lemma PartsGood(h: Trace)
    requires Sound(h.w.t) && Faithful(h) && StoredOnce(h.log) && CallsFound(h) && CallsSeated(h) && Timely(h)
    ensures Good(h)
  {
  }

  ghost predicate NeverLate(catalog: map<ActivityId, nat>, steps: seq<X.Step>) {
    steps == [] ||
    (NeverLate(catalog, steps[..|steps| - 1]) && !StoresLate(Run(catalog, steps[..|steps| - 1]), steps[|steps| - 1]))
  }

  /** For whole runs. */
  lemma {:induction false} TimelyExactly(catalog: map<ActivityId, nat>, steps: seq<X.Step>)
    requires forall a | a in catalog :: catalog[a] >= 1
    ensures NeverLate(catalog, steps) <==> forall k: nat | k <= |steps| :: Timely(Run(catalog, steps[..k]))
    ensures NeverLate(catalog, steps) ==> Good(Run(catalog, steps))
  {
    hide Do, Good, Timely, StoresLate;
    if steps == [] {
      NothingLate(catalog);
      assert steps[..0] == [];
    } else {
      var n := |steps| - 1;
      var front := steps[..n];
      TimelyExactly(catalog, front);
      assert steps[..|steps|] == steps && front[..n] == front;
      assert forall k: nat | k <= n :: front[..k] == steps[..k];
      if NeverLate(catalog, front) {
        LateExactly(Run(catalog, front), steps[n]);
      }
    }
  }

  lemma NothingLate(catalog: map<ActivityId, nat>)
    requires forall a | a in catalog :: catalog[a] >= 1
    ensures Good(Run(catalog, [])) && Timely(Run(catalog, []))
  {
    EmptySound(catalog);
  }

  /**
    In a run in which no late token is stored, a token resolves exactly as if exchanges were whole:
    the code was found, the same call stored the token, which has not expired, and no leave or end
    came since the code was found.
   */
  lemma TimelyIdentity(catalog: map<ActivityId, nat>, steps: seq<X.Step>, seat: Seat, token: Secret, now: Time)
    requires forall a | a in catalog :: catalog[a] >= 1
    requires NeverLate(catalog, steps) && seat.instance != 0 && seat.user != 0
    ensures var h := Run(catalog, steps);
            Identity(h.w.t, token, now) == Some(seat) <==>
              exists j: nat, p: nat, e: Time :: Timeline(h.log, j, p, token, TokenRow(seat, e)) && !Expired(e, now)
  {
    var h := Run(catalog, steps);
    TimelyExactly(catalog, steps);
    GoodParts(h);
    hide Run, TokenIn, Timeline, StoredAt, StoredOnce, NeverLate, CallsFound, CallsSeated, Good;
    if Identity(h.w.t, token, now) == Some(seat) {
      var row := h.w.t.tokens[token];
      var j: nat, p: nat :| Timeline(h.log, j, p, token, row);
      assert Timeline(h.log, j, p, token, TokenRow(seat, row.expiresAt)) && !Expired(row.expiresAt, now);
    }
    if j: nat, p: nat, e: Time :| Timeline(h.log, j, p, token, TokenRow(seat, e)) && !Expired(e, now) {
      TimelineStored(h.log, j, p, token, TokenRow(seat, e));
      TokenInIsStored(h.log, token, TokenRow(seat, e));
      assert token in h.w.t.tokens && Seated(h.w.t, h.w.t.tokens[token].seat);
    }
  }

  lemma TimelineStored(log: seq<Mark>, j: nat, p: nat, token: Secret, row: TokenRow)
    requires Timeline(log, j, p, token, row)
    ensures StoredAt(log, p, token, row)
  {
  }

  /**
    A late token that resolves: a user whose code was found leaves and joins again before the token
    is stored. The departure should have ended the token, and it resolves.
   */
  lemma LateTokenResolves(t: Tables, code: Secret, role: Role, now: Time, newCode: Secret, token: Secret)
    requires Sound(t) && code in t.codes && X.Spendable(t, t.codes[code].seat.instance, code, now)
    requires var seat := t.codes[code].seat;
             && seat.instance != 0 && seat.user != 0 && SeatsOf(t.seats, seat.instance) != {seat}
    requires role != NotMember && newCode != code
    ensures var seat := t.codes[code].seat;
            var n, u := seat.instance, seat.user;
            var found := X.Do(X.World(t, [X.ReadCode(n, code)], [], {code}), X.Read(0, now));
            var away := X.Do(found, X.Whole(X.DoLeave(n, u)));
            var back := X.Do(away, X.Whole(X.DoJoin(n, u, role, now, newCode)));
            var one := X.Execute(0, now, token);
            var done := X.Do(X.Do(X.Do(back, one), one), one);
            seat !in away.t.seats && Identity(done.t, token, now) == Some(seat)
  {
    var seat := t.codes[code].seat;
    var n, u := seat.instance, seat.user;
    assert Seated(t, seat) && WithinCapacity(t, n);
    var found := X.Do(X.World(t, [X.ReadCode(n, code)], [], {code}), X.Read(0, now));
    assert found.calls == [X.ReadInstance(n, code, u)] && found.t == t;
    AwayAndBack(t, seat, role, now, newCode);
    var away := X.Do(found, X.Whole(X.DoLeave(n, u)));
    var back := X.Do(away, X.Whole(X.DoJoin(n, u, role, now, newCode)));
    assert away.t == Leave(t, n, u).0 && back.t == Join(away.t, n, u, role, now, newCode).0;
    assert back.calls == found.calls && IsActive(back.t, n) && seat in back.t.seats;
    var one := X.Execute(0, now, token);
    var w1 := X.Do(back, one);
    assert w1.calls == [X.MarkUsed(n, code, u)] && w1.t == back.t;
    var w2 := X.Do(w1, one);
    assert w2.calls == [X.InsertToken(n, code, u)] && w2.t.instances == back.t.instances && w2.t.seats == back.t.seats;
    hide Sound, SeatsOf, Leave, Join;
  }

  /** Leaving and joining again, while others play on. */
  lemma AwayAndBack(t: Tables, seat: Seat, role: Role, now: Time, newCode: Secret)
    requires Sound(t) && Seated(t, seat) && SeatsOf(t.seats, seat.instance) != {seat} && role != NotMember
    ensures var left := Leave(t, seat.instance, seat.user).0;
            var back := Join(left, seat.instance, seat.user, role, now, newCode).0;
            seat !in left.seats && IsActive(back, seat.instance) && seat in back.seats
  {
    var n := seat.instance;
    var mine := SeatsOf(t.seats, n);
    var left := Leave(t, n, seat.user).0;
    assert WithinCapacity(t, n) && seat in mine;
    assert SeatsOf(t.seats - {seat}, n) == mine - {seat};
    assert mine == (mine - {seat}) + {seat};
    assert left.seats == t.seats - {seat} && left.instances == t.instances && left.catalog == t.catalog;
    assert left.seats + {seat} == t.seats;
    hide Sound;
  }
}
