/**
  Exactly when a launch code is single-use, with `exchange_code` run statement by statement
  (rust/src/domain/activities.rs:313-361). Launches, joins, leaves and ends are whole operations that
  come between its statements.
 */
module ActivityExchange {
  import opened Wrappers
  import opened Activities

  /** The statement a call of `exchange_code` is about to run. */
  datatype Exchanging =
    | ReadCode(instance: InstanceId, code: Secret)
    | ReadInstance(instance: InstanceId, code: Secret, user: UserId)
    | MarkUsed(instance: InstanceId, code: Secret, user: UserId)
    | InsertToken(instance: InstanceId, code: Secret, user: UserId)
    | Over

  /** The SELECT of the code finds a row that may be spent. */
  predicate Spendable(t: Tables, n: InstanceId, code: Secret, now: Time) {
    && code in t.codes && t.codes[code].seat.instance == n
    && !t.codes[code].used && !Expired(t.codes[code].expiresAt, now)
  }

  function Marked(t: Tables, code: Secret): Tables {
    if code in t.codes then t.(codes := t.codes[code := t.codes[code].(used := true)]) else t
  }

  datatype Other =
    | DoLaunch(activity: ActivityId, group: GroupId, user: UserId, role: Role)
    | DoJoin(instance: InstanceId, user: UserId, role: Role, now: Time, code: Secret)
    | DoLeave(instance: InstanceId, user: UserId)
    | DoEnd(instance: InstanceId, user: UserId, role: Role)

  /** `issued` logs the code of each inserted token, `drawn` the codes ever drawn. */
  datatype World = World(t: Tables, calls: seq<Exchanging>, issued: seq<Secret>, drawn: set<Secret>)

  datatype Step =
    | Start(instance: InstanceId, code: Secret)
    | Read(call: nat, now: Time)
    | Execute(call: nat, now: Time, token: Secret)
    | Whole(op: Other)

  function DoOther(w: World, op: Other): World {
    match op
    case DoLaunch(activity, group, user, role) => w.(t := Launch(w.t, activity, group, user, role).0)
    case DoJoin(n, user, role, now, code) =>
      // A random code is never drawn twice.
      if code in w.drawn then w
      else w.(t := Join(w.t, n, user, role, now, code).0, drawn := w.drawn + {code})
    case DoLeave(n, user) => w.(t := Leave(w.t, n, user).0)
    case DoEnd(n, user, role) => w.(t := End(w.t, n, user, role).0)
  }

  function DoExecute(w: World, i: nat, now: Time, token: Secret): World
    requires i < |w.calls|
  {
    match w.calls[i]
    case ReadInstance(n, code, user) =>
      w.(calls := w.calls[i := if IsActive(w.t, n) then MarkUsed(n, code, user) else Over])
    case MarkUsed(n, code, user) =>
      w.(t := Marked(w.t, code), calls := w.calls[i := InsertToken(n, code, user)])
    case InsertToken(n, code, user) =>
      w.(t := w.t.(tokens := w.t.tokens[token := TokenRow(Seat(n, user), now + INSTANCE_TOKEN_TTL)]),
         calls := w.calls[i := Over],
         issued := w.issued + [code])
    case _ => w
  }

  function Do(w: World, s: Step): World {
    match s
    case Start(n, code) => w.(calls := w.calls + [ReadCode(n, code)])
    case Read(i, now) =>
      if i < |w.calls| && w.calls[i].ReadCode? then
        var (n, code) := (w.calls[i].instance, w.calls[i].code);
        w.(calls := w.calls[i := if Spendable(w.t, n, code, now) then ReadInstance(n, code, w.t.codes[code].seat.user)
                                 else Over])
      else w
    case Execute(i, now, token) => if i < |w.calls| then DoExecute(w, i, now, token) else w
    case Whole(op) => DoOther(w, op)
  }

  /** Alone and at one moment, the statements are the whole operation. */
  lemma StatementsAreExchange(t: Tables, n: InstanceId, code: Secret, now: Time, token: Secret)
    ensures var w := World(t, [ReadCode(n, code)], [], {});
            var found := Do(w, Read(0, now));
            var done := Do(Do(Do(found, Execute(0, now, token)), Execute(0, now, token)), Execute(0, now, token));
            && done.t == Exchange(t, n, code, now, token).0 && done.calls == [Over]
            && (done.issued == [code] <==> Exchange(t, n, code, now, token).1.Ok?)
  {
    var w := World(t, [ReadCode(n, code)], [], {});
    var w1 := Do(w, Read(0, now));
    var w2 := Do(w1, Execute(0, now, token));
    var w3 := Do(w2, Execute(0, now, token));
    assert w1.calls == [w1.calls[0]] && w2.calls == [w2.calls[0]] && w3.calls == [w3.calls[0]];
  }

  function Run(w: World, steps: seq<Step>): World {
    if steps == [] then w else Do(Run(w, steps[..|steps| - 1]), steps[|steps| - 1])
  }

  function Beginning(catalog: map<ActivityId, nat>): World {
    World(Tables(catalog, map[], 1, {}, map[], map[]), [], [], {})
  }

  // ---------------------------------------------------------------------------
  // What every separate run keeps
  // ---------------------------------------------------------------------------

  /** The call has read the code as unused and not yet marked it. */
  predicate Holds(p: Exchanging, code: Secret) {
    (p.ReadInstance? || p.MarkUsed?) && p.code == code
  }

  /** The call will issue a token for the code. */
  predicate Owes(p: Exchanging, code: Secret) {
    p.InsertToken? && p.code == code
  }

  /** The read finds a spendable code that another call holds. */
  predicate Overlaps(w: World, s: Step) {
    && s.Read? && s.call < |w.calls| && w.calls[s.call].ReadCode?
    && Spendable(w.t, w.calls[s.call].instance, w.calls[s.call].code, s.now)
    && exists j :: 0 <= j < |w.calls| && Holds(w.calls[j], w.calls[s.call].code)
  }

  ghost predicate CodesActive(t: Tables) {
    forall c | c in t.codes :: IsActive(t, t.codes[c].seat.instance)
  }

  /** A code is in one of these places: spendable, held or owed by one call, or issued once. */
  ghost predicate Single(w: World, c: Secret) {
    && multiset(w.issued)[c] <= 1
    && (forall i, j | 0 <= i < j < |w.calls| && (Holds(w.calls[i], c) || Owes(w.calls[i], c)) ::
          !Holds(w.calls[j], c) && !Owes(w.calls[j], c))
    && (forall i | 0 <= i < |w.calls| && (Holds(w.calls[i], c) || Owes(w.calls[i], c)) ::
          multiset(w.issued)[c] == 0 && c in w.drawn)
    && (multiset(w.issued)[c] > 0 ==> c in w.drawn)
    && (c in w.t.codes ==> c in w.drawn)
    && (c in w.t.codes && !w.t.codes[c].used ==>
          multiset(w.issued)[c] == 0 && forall i | 0 <= i < |w.calls| :: !Owes(w.calls[i], c))
    && (forall i | 0 <= i < |w.calls| && Holds(w.calls[i], c) && c in w.t.codes ::
          w.calls[i].instance == w.t.codes[c].seat.instance)
  }

  ghost predicate Inv(w: World) {
    CodesActive(w.t) && forall c :: Single(w, c)
  }

  // ---------------------------------------------------------------------------
  // The whole operations
  // ---------------------------------------------------------------------------

  /** What a whole operation may do to the codes: take some away, and add one new one. */
  ghost predicate CodesShrink(t: Tables, t': Tables, added: set<Secret>) {
    && (forall c | c in t'.codes && c !in added :: c in t.codes && t'.codes[c] == t.codes[c])
    && CodesActive(t')
  }

  lemma LaunchShrinks(t: Tables, activity: ActivityId, group: GroupId, user: UserId, role: Role)
    requires CodesActive(t) && forall n | n in t.instances :: n < t.nextInstance
    ensures CodesShrink(t, Launch(t, activity, group, user, role).0, {})
  {
  }

  lemma JoinShrinks(t: Tables, n: InstanceId, user: UserId, role: Role, now: Time, code: Secret)
    requires CodesActive(t)
    ensures CodesShrink(t, Join(t, n, user, role, now, code).0, {code})
  {
    hide SeatsOf;
  }

  lemma LeaveShrinks(t: Tables, n: InstanceId, user: UserId)
    requires CodesActive(t)
    ensures CodesShrink(t, Leave(t, n, user).0, {})
  {
    hide SeatsOf;
  }

  lemma EndShrinks(t: Tables, n: InstanceId, user: UserId, role: Role)
    requires CodesActive(t)
    ensures CodesShrink(t, End(t, n, user, role).0, {})
  {
  }

  lemma NumberedStays(w: World, s: Step)
    requires Numbered(w.t)
    ensures Numbered(Do(w, s).t)
  {
    hide SeatsOf, Swept;
  }

  ghost predicate Numbered(t: Tables) {
    forall n | n in t.instances :: n < t.nextInstance
  }

  /** A join draws its code whether or not it succeeds. */
  lemma WholeKeepsSingle(w: World, w': World, added: set<Secret>, c: Secret)
    requires Single(w, c) && CodesShrink(w.t, w'.t, added) && added !! w.drawn && w'.drawn == w.drawn + added
    requires w'.calls == w.calls && w'.issued == w.issued
    ensures Single(w', c)
  {
  }

  lemma WholeKeeps(w: World, op: Other)
    requires Inv(w) && Numbered(w.t)
    ensures Inv(DoOther(w, op))
  {
    var w' := DoOther(w, op);
    var added: set<Secret> := if op.DoJoin? && op.code !in w.drawn then {op.code} else {};
    match op {
      case DoLaunch(activity, group, user, role) => LaunchShrinks(w.t, activity, group, user, role);
      case DoJoin(n, user, role, now, code) => JoinShrinks(w.t, n, user, role, now, code);
      case DoLeave(n, user) => LeaveShrinks(w.t, n, user);
      case DoEnd(n, user, role) => EndShrinks(w.t, n, user, role);
    }
    if w' != w {
      assert CodesShrink(w.t, w'.t, added) && w'.drawn == w.drawn + added;
      assert w'.calls == w.calls && w'.issued == w.issued;
      hide DoOther, Single, CodesShrink;
      forall c ensures Single(w', c) {
        WholeKeepsSingle(w, w', added, c);
      }
    }
    hide DoOther, Single;
  }

  // ---------------------------------------------------------------------------
  // The statements
  // ---------------------------------------------------------------------------

  lemma StartKeepsSingle(w: World, n: InstanceId, code: Secret, c: Secret)
    requires Single(w, c)
    ensures Single(Do(w, Start(n, code)), c)
  {
    var w' := Do(w, Start(n, code));
    assert forall i | 0 <= i < |w'.calls| :: i < |w.calls| ==> w'.calls[i] == w.calls[i];
    assert !Holds(w'.calls[|w.calls|], c) && !Owes(w'.calls[|w.calls|], c);
  }

  lemma ReadKeepsSingle(w: World, i: nat, now: Time, c: Secret)
    requires Single(w, c) && !Overlaps(w, Read(i, now))
    ensures Single(Do(w, Read(i, now)), c)
  {
    var w' := Do(w, Read(i, now));
    if w' != w {
      assert w'.calls[i] == Over ||
             (w'.calls[i].code == w.calls[i].code && Spendable(w.t, w.calls[i].instance, w.calls[i].code, now));
      assert forall k | 0 <= k < |w.calls| && k != i :: w'.calls[k] == w.calls[k];
      hide Do;
    }
  }

  lemma ExecuteKeepsSingle(w: World, i: nat, now: Time, token: Secret, c: Secret)
    requires Single(w, c) && i < |w.calls|
    ensures Single(DoExecute(w, i, now, token), c)
  {
    var w' := DoExecute(w, i, now, token);
    assert forall k | 0 <= k < |w.calls| && k != i :: w'.calls[k] == w.calls[k];
    if w.calls[i].InsertToken? {
      assert Owes(w.calls[i], w.calls[i].code);
      assert multiset(w'.issued) == multiset(w.issued) + multiset{w.calls[i].code};
    } else if w.calls[i].MarkUsed? {
      assert Holds(w.calls[i], w.calls[i].code);
    } else if w.calls[i].ReadInstance? {
      assert Holds(w.calls[i], w.calls[i].code);
    }
  }

  lemma StatementCodesActive(w: World, s: Step)
    requires CodesActive(w.t) && !s.Whole?
    ensures CodesActive(Do(w, s).t)
  {
  }

  /** Every step but an overlapping read keeps every code in one place. */
  lemma StepKeeps(w: World, s: Step)
    requires Inv(w) && Numbered(w.t) && !Overlaps(w, s)
    ensures Inv(Do(w, s))
  {
    if s.Whole? {
      WholeKeeps(w, s.op);
    } else {
      StatementCodesActive(w, s);
      hide Single, DoExecute;
      forall c ensures Single(Do(w, s), c) {
        match s
        case Start(n, code) => StartKeepsSingle(w, n, code, c);
        case Read(i, now) => ReadKeepsSingle(w, i, now, c);
        case Execute(i, now, token) =>
          if i < |w.calls| {
            ExecuteKeepsSingle(w, i, now, token, c);
          }
      }
    }
    hide Do, Single, CodesActive;
  }

  /** No read of the run overlaps a call that holds the code. */
  predicate Separate(w: World, steps: seq<Step>) {
    steps == [] ||
    (Separate(w, steps[..|steps| - 1]) && !Overlaps(Run(w, steps[..|steps| - 1]), steps[|steps| - 1]))
  }

  lemma {:induction false} RunKeeps(w: World, steps: seq<Step>)
    requires Inv(w) && Numbered(w.t) && Separate(w, steps)
    ensures Inv(Run(w, steps)) && Numbered(Run(w, steps).t)
  {
    if steps != [] {
      RunKeeps(w, steps[..|steps| - 1]);
      StepKeeps(Run(w, steps[..|steps| - 1]), steps[|steps| - 1]);
      NumberedStays(Run(w, steps[..|steps| - 1]), steps[|steps| - 1]);
      hide Inv, Do, Numbered, Overlaps;
    }
  }

  lemma BeginningInv(catalog: map<ActivityId, nat>)
    ensures Inv(Beginning(catalog)) && Numbered(Beginning(catalog).t)
  {
  }

  /** Single use: in a run without overlapping reads, no code ever yields two tokens. */
  lemma SingleUse(catalog: map<ActivityId, nat>, steps: seq<Step>, c: Secret)
    requires Separate(Beginning(catalog), steps)
    ensures multiset(Run(Beginning(catalog), steps).issued)[c] <= 1
  {
    BeginningInv(catalog);
    RunKeeps(Beginning(catalog), steps);
    assert Single(Run(Beginning(catalog), steps), c);
    hide Run, Separate;
  }

  // ---------------------------------------------------------------------------
  // The exact condition
  // ---------------------------------------------------------------------------

  predicate NoReads(steps: seq<Step>) {
    forall k | 0 <= k < |steps| :: !steps[k].Read?
  }

  /** Some continuation without a further read yields a second token for one code. */
  ghost predicate CanIssueTwice(w: World) {
    exists steps: seq<Step>, c: Secret :: NoReads(steps) && multiset(Run(w, steps).issued)[c] >= 2
  }

  lemma {:induction false} RunFirst(w: World, s: Step, steps: seq<Step>)
    ensures Run(w, [s] + steps) == Run(Do(w, s), steps)
  {
    hide Do;
    if steps == [] {
      assert ([s] + steps)[..0] == [] && ([s] + steps)[0] == s;
    } else {
      var front, last := steps[..|steps| - 1], steps[|steps| - 1];
      assert ([s] + steps)[..|steps|] == [s] + front && ([s] + steps)[|steps|] == last;
      RunFirst(w, s, front);
    }
  }

  lemma IssuesTwice(w: World, steps: seq<Step>, c: Secret)
    requires NoReads(steps) && multiset(Run(w, steps).issued)[c] >= 2
    ensures CanIssueTwice(w)
  {
  }

  lemma Harmful(w: World) returns (steps: seq<Step>, c: Secret)
    requires CanIssueTwice(w)
    ensures NoReads(steps) && multiset(Run(w, steps).issued)[c] >= 2
  {
    hide NoReads, Run;
    steps, c :| NoReads(steps) && multiset(Run(w, steps).issued)[c] >= 2;
  }

  lemma Prepended(s: Step, steps: seq<Step>)
    requires NoReads(steps) && !s.Read?
    ensures NoReads([s] + steps)
  {
  }

  lemma Before(w: World, s: Step)
    requires !s.Read? && CanIssueTwice(Do(w, s))
    ensures CanIssueTwice(w)
  {
    hide *;
    var steps, c := Harmful(Do(w, s));
    Prepended(s, steps);
    RunFirst(w, s, steps);
    IssuesTwice(w, [s] + steps, c);
  }

  lemma Now(w: World, c: Secret)
    requires multiset(w.issued)[c] >= 2
    ensures CanIssueTwice(w)
  {
    assert NoReads([]) && Run(w, []) == w;
  }

  /** How many steps a call needs to issue its token. */
  function Left(p: Exchanging): nat {
    match p
    case ReadInstance(_, _, _) => 3
    case MarkUsed(_, _, _) => 2
    case InsertToken(_, _, _) => 1
    case _ => 0
  }

  predicate WillIssue(w: World, i: nat, c: Secret) {
    && i < |w.calls| && (Holds(w.calls[i], c) || Owes(w.calls[i], c))
    && (w.calls[i].ReadInstance? ==> IsActive(w.t, w.calls[i].instance))
  }

  lemma OneStatement(w: World, i: nat, j: nat, c: Secret)
    requires WillIssue(w, i, c) && Left(w.calls[i]) > 1 && j < |w.calls| && j != i
    ensures var w' := Do(w, Execute(i, 0, 0));
            && WillIssue(w', i, c) && Left(w'.calls[i]) == Left(w.calls[i]) - 1
            && w'.issued == w.issued && |w'.calls| == |w.calls| && w'.calls[j] == w.calls[j]
            && (WillIssue(w, j, c) ==> WillIssue(w', j, c))
  {
  }

  lemma LastStatement(w: World, i: nat, j: nat, c: Secret)
    requires WillIssue(w, i, c) && Left(w.calls[i]) == 1 && j < |w.calls| && j != i
    ensures var w' := Do(w, Execute(i, 0, 0));
            && w'.issued == w.issued + [c] && |w'.calls| == |w.calls| && w'.calls[j] == w.calls[j]
            && (WillIssue(w, j, c) ==> WillIssue(w', j, c))
  {
  }

  /** One call issues its token when the code has already yielded one. */
  lemma {:induction false} SecondToken(w: World, i: nat, j: nat, c: Secret)
    requires WillIssue(w, i, c) && multiset(w.issued)[c] >= 1 && j < |w.calls| && j != i
    ensures CanIssueTwice(w)
    decreases Left(w.calls[i])
  {
    hide CanIssueTwice, Do;
    var w' := Do(w, Execute(i, 0, 0));
    if Left(w.calls[i]) > 1 {
      OneStatement(w, i, j, c);
      SecondToken(w', i, j, c);
    } else {
      LastStatement(w, i, j, c);
      assert multiset(w'.issued) == multiset(w.issued) + multiset{c};
      Now(w', c);
    }
    Before(w, Execute(i, 0, 0));
  }

  /** Two calls on one code both issue. */
  lemma {:induction false} BothIssue(w: World, i: nat, j: nat, c: Secret)
    requires WillIssue(w, i, c) && WillIssue(w, j, c) && i != j
    ensures CanIssueTwice(w)
    decreases Left(w.calls[i])
  {
    hide CanIssueTwice, Do;
    var w' := Do(w, Execute(i, 0, 0));
    if Left(w.calls[i]) > 1 {
      OneStatement(w, i, j, c);
      BothIssue(w', i, j, c);
    } else {
      LastStatement(w, i, j, c);
      assert multiset(w'.issued) == multiset(w.issued) + multiset{c};
      SecondToken(w', j, i, c);
    }
    Before(w, Execute(i, 0, 0));
  }

  lemma OverlapIssuesTwice(w: World, s: Step)
    requires Inv(w) && Overlaps(w, s)
    ensures CanIssueTwice(Do(w, s))
  {
    var c := w.calls[s.call].code;
    var j :| 0 <= j < |w.calls| && Holds(w.calls[j], c);
    var w' := Do(w, s);
    assert Single(w, c) && w'.calls[j] == w.calls[j];
    assert WillIssue(w', s.call, c) && WillIssue(w', j, c);
    hide Do, CanIssueTwice, Inv, Single;
    BothIssue(w', s.call, j, c);
  }

  lemma {:induction false} NoReadsSeparate(w: World, steps: seq<Step>)
    requires NoReads(steps)
    ensures Separate(w, steps)
  {
    if steps != [] {
      NoReadsSeparate(w, steps[..|steps| - 1]);
    }
  }

  lemma InvIssuesOnce(w: World)
    requires Inv(w) && Numbered(w.t)
    ensures !CanIssueTwice(w)
  {
    forall steps: seq<Step>, c: Secret | NoReads(steps) ensures multiset(Run(w, steps).issued)[c] < 2 {
      NoReadsSeparate(w, steps);
      RunKeeps(w, steps);
      assert Single(Run(w, steps), c);
    }
    hide Run;
  }

  /**
    For one read: if every code was in one place before, then no continuation without a further read
    yields a second token for a code, if and only if the read does not overlap a call that has
    read the code and not yet marked it.
   */
  lemma ReadExactly(w: World, s: Step)
    requires Inv(w) && Numbered(w.t)
    ensures !CanIssueTwice(Do(w, s)) <==> !Overlaps(w, s)
  {
    if Overlaps(w, s) {
      OverlapIssuesTwice(w, s);
    } else {
      StepKeeps(w, s);
      NumberedStays(w, s);
      InvIssuesOnce(Do(w, s));
    }
    hide Do, Overlaps;
  }

  lemma {:induction false} FirstOverlap(w: World, steps: seq<Step>) returns (k: nat)
    requires !Separate(w, steps)
    ensures k < |steps| && Separate(w, steps[..k]) && Overlaps(Run(w, steps[..k]), steps[k])
  {
    hide Overlaps;
    var front := steps[..|steps| - 1];
    if Separate(w, front) {
      k := |steps| - 1;
    } else {
      k := FirstOverlap(w, front);
      assert front[..k] == steps[..k] && front[k] == steps[k];
    }
  }

  lemma {:induction false} SeparatePrefix(w: World, steps: seq<Step>, k: nat)
    requires Separate(w, steps) && k <= |steps|
    ensures Separate(w, steps[..k])
  {
    if k < |steps| {
      assert steps[..|steps| - 1][..k] == steps[..k];
      SeparatePrefix(w, steps[..|steps| - 1], k);
    } else {
      assert steps[..k] == steps;
    }
  }

  /**
    Single use, exactly: no continuation of any part of a run yields a second token for a code, if
    and only if no read of the run overlaps a call that holds the code.
   */
  lemma SingleUseExactly(catalog: map<ActivityId, nat>, steps: seq<Step>)
    ensures Separate(Beginning(catalog), steps) <==>
              forall k: nat | k <= |steps| :: !CanIssueTwice(Run(Beginning(catalog), steps[..k]))
  {
    var w := Beginning(catalog);
    BeginningInv(catalog);
    hide Inv, CanIssueTwice, Overlaps, Do, Beginning;
    if Separate(w, steps) {
      forall k: nat | k <= |steps| ensures !CanIssueTwice(Run(w, steps[..k])) {
        SeparatePrefix(w, steps, k);
        RunKeeps(w, steps[..k]);
        InvIssuesOnce(Run(w, steps[..k]));
      }
    } else {
      var k := FirstOverlap(w, steps);
      assert steps[..k + 1][..k] == steps[..k];
      RunKeeps(w, steps[..k]);
      OverlapIssuesTwice(Run(w, steps[..k]), steps[k]);
      assert Run(w, steps[..k + 1]) == Do(Run(w, steps[..k]), steps[k]);
    }
  }

  /** One statement of each of two exchanges. */
  function Both(w: World, now: Time, x: Secret, y: Secret): World {
    Do(Do(w, Execute(0, now, x)), Execute(1, now, y))
  }

  /** Such a run: two exchanges of one code that both read it before either marks it get a token each. */
  lemma CrossedExchangesIssueTwo(t: Tables, n: InstanceId, code: Secret, now: Time, x: Secret, y: Secret)
    requires Spendable(t, n, code, now) && IsActive(t, n) && x != y
    ensures var w := World(t, [ReadCode(n, code), ReadCode(n, code)], [], {code});
            var found := Do(Do(w, Read(0, now)), Read(1, now));
            var done := Both(Both(Both(found, now, x, y), now, x, y), now, x, y);
            && done.calls == [Over, Over] && done.issued == [code, code]
            && x in done.t.tokens && y in done.t.tokens && done.t.tokens[x] == done.t.tokens[y]
  {
    var w := World(t, [ReadCode(n, code), ReadCode(n, code)], [], {code});
    var found := Do(Do(w, Read(0, now)), Read(1, now));
    var user := t.codes[code].seat.user;
    assert found.calls == [ReadInstance(n, code, user), ReadInstance(n, code, user)] && found.t == t;
    var w1 := Both(found, now, x, y);
    assert w1.calls == [MarkUsed(n, code, user), MarkUsed(n, code, user)] && w1.t == t && w1.issued == [];
    var w2 := Both(w1, now, x, y);
    assert w2.calls == [InsertToken(n, code, user), InsertToken(n, code, user)] && w2.issued == [];
    var w3 := Both(w2, now, x, y);
    assert w3.calls == [Over, Over] && w3.issued == [code] + [code];
  }
}
