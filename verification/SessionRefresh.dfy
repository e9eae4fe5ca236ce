/**
  Exactly when a refresh rotates a session into one other (rust/src/auth/session.rs:36-79), with
  `refresh_session` run statement by statement. Creating and revoking sessions elsewhere are single
  statements that come between.
 */
module SessionRefresh {
  import opened Wrappers
  import opened Timestamps
  import opened Sessions

  /** The statement a call of `refresh_session` is about to run. */
  datatype Refreshing =
    | Resolving(token: Token)
    | Revoking(token: Token, user: UserId)
    | Issuing(token: Token, user: UserId)
    | Over

  /** `rotated` logs the old token of each session that a refresh has issued. */
  datatype World = World(rows: map<Token, Row>, calls: seq<Refreshing>, rotated: seq<Token>)

  datatype Step =
    | Start(token: Token)
    | Resolve(call: nat, users: set<UserId>, now: Stamp)
    | Execute(call: nat, next: Token, expires: Stamp)
    | Other(user: UserId, next: Token, expires: Stamp)
    | Revocation(token: Token)
    | Logout(user: UserId)

  /** Clocks are valid, and a random token is neither empty nor drawn twice. */
  predicate Possible(w: World, s: Step) {
    && (s.Resolve? ==> Valid(s.now))
    && (s.Execute? || s.Other? ==> Valid(s.expires) && s.next != "" && s.next !in w.rows)
  }

  function DoExecute(w: World, i: nat, next: Token, expires: Stamp): World
    requires i < |w.calls|
  {
    match w.calls[i]
    case Revoking(token, user) => w.(rows := Revoke(w.rows, token), calls := w.calls[i := Issuing(token, user)])
    case Issuing(token, user) =>
      World(Create(w.rows, user, next, expires), w.calls[i := Over], w.rotated + [token])
    case _ => w
  }

  /** A step that cannot happen changes nothing. */
  ghost function Do(w: World, s: Step): World
    requires Stored(w.rows)
  {
    if !Possible(w, s) then w
    else
      match s
      case Start(token) => w.(calls := w.calls + [Resolving(token)])
      case Resolve(i, users, now) =>
        if i < |w.calls| && w.calls[i].Resolving? then
          match UserFrom(w.rows, users, Some(w.calls[i].token), now)
          case None => w.(calls := w.calls[i := Over])
          case Some(user) => w.(calls := w.calls[i := Revoking(w.calls[i].token, user)])
        else w
      case Execute(i, next, expires) => if i < |w.calls| then DoExecute(w, i, next, expires) else w
      case Other(user, next, expires) => w.(rows := Create(w.rows, user, next, expires))
      case Revocation(token) => w.(rows := Revoke(w.rows, token))
      case Logout(user) => w.(rows := RevokeAll(w.rows, user))
  }

  lemma DoStored(w: World, s: Step)
    requires Stored(w.rows)
    ensures Stored(Do(w, s).rows)
  {
    hide UserFrom, Valid;
  }

  /** Logging out ends a token, and ending all sessions of a user all of that user's tokens. */
  lemma RevocationsEnd(w: World, users: set<UserId>, token: Token, user: UserId, now: Stamp)
    requires Stored(w.rows) && Valid(now)
    ensures var one, all := Do(w, Revocation(token)).rows, Do(w, Logout(user)).rows;
            && Stored(one) && UserFrom(one, users, Some(token), now) == None
            && Stored(all) && UserFrom(all, users, Some(token), now) != Some(user)
  {
    hide SessionLive, Valid;
  }

  /** Alone and at one moment, the statements are the whole refresh. */
  lemma StatementsAreRefresh(w: World, users: set<UserId>, token: Token, now: Stamp, next: Token, expires: Stamp)
    requires Stored(w.rows) && w.calls == [Resolving(token)]
    requires Valid(now) && Valid(expires) && next != "" && next !in w.rows
    ensures var w1 := Do(w, Resolve(0, users, now));
            && Stored(w1.rows)
            && var w2 := Do(w1, Execute(0, next, expires));
               && Stored(w2.rows)
               && var w3 := Do(w2, Execute(0, next, expires));
                  (w3.rows, if |w3.rotated| > |w.rotated| then Some(next) else None) ==
                  Refresh(w.rows, users, token, now, next, expires)
  {
    var s := Resolve(0, users, now);
    var one := Execute(0, next, expires);
    var w1 := Do(w, s);
    DoStored(w, s);
    DoStored(w1, one);
    ResolveFrame(w, s);
    assert w1.calls == [w1.calls[0]];
    hide UserFrom, Valid, Stored;
    var w2 := Do(w1, one);
    assert w2.calls == [w2.calls[0]];
  }

  ghost function Run(w: World, steps: seq<Step>): (r: World)
    requires Stored(w.rows)
    ensures Stored(r.rows)
  {
    if steps == [] then w
    else
      var before := Run(w, steps[..|steps| - 1]);
      DoStored(before, steps[|steps| - 1]);
      Do(before, steps[|steps| - 1])
  }

  const START := World(map[], [], [])

  // ---------------------------------------------------------------------------
  // What every separate run keeps
  // ---------------------------------------------------------------------------

  /** The call has found the session live and not yet revoked it. */
  predicate Holds(p: Refreshing, token: Token) {
    p.Revoking? && p.token == token
  }

  /** The call will issue a session for the token. */
  predicate Owes(p: Refreshing, token: Token) {
    p.Issuing? && p.token == token
  }

  /** The session of the token is there and not revoked. */
  predicate Open(rows: map<Token, Row>, token: Token) {
    token in rows && !rows[token].revoked
  }

  /** The read finds a live session that another call holds. */
  ghost predicate Overlaps(w: World, s: Step)
    requires Stored(w.rows)
  {
    && s.Resolve? && Valid(s.now) && s.call < |w.calls| && w.calls[s.call].Resolving?
    && UserFrom(w.rows, s.users, Some(w.calls[s.call].token), s.now).Some?
    && exists j :: 0 <= j < |w.calls| && Holds(w.calls[j], w.calls[s.call].token)
  }

  /** A token is in one of these places: open, held or owed by one call, or rotated once. */
  ghost predicate Single(w: World, k: Token) {
    && multiset(w.rotated)[k] <= 1
    && (forall i, j | 0 <= i < j < |w.calls| && (Holds(w.calls[i], k) || Owes(w.calls[i], k)) ::
          !Holds(w.calls[j], k) && !Owes(w.calls[j], k))
    && (forall i | 0 <= i < |w.calls| && (Holds(w.calls[i], k) || Owes(w.calls[i], k)) ::
          multiset(w.rotated)[k] == 0 && k in w.rows)
    && (multiset(w.rotated)[k] > 0 ==> k in w.rows)
    && (Open(w.rows, k) ==> multiset(w.rotated)[k] == 0 && forall i | 0 <= i < |w.calls| :: !Owes(w.calls[i], k))
  }

  ghost predicate Inv(w: World) {
    Stored(w.rows) && forall k :: Single(w, k)
  }

  /** Rows that open no closed session keep every token in its place. */
  lemma RowsKeepSingle(w: World, rows: map<Token, Row>, k: Token)
    requires Single(w, k) && w.rows.Keys <= rows.Keys
    requires Open(rows, k) ==> Open(w.rows, k) || k !in w.rows
    ensures Single(w.(rows := rows), k)
  {
  }

  lemma ResolveFrame(w: World, s: Step)
    requires Stored(w.rows) && s.Resolve?
    ensures var w' := Do(w, s);
            && w'.rows == w.rows && w'.rotated == w.rotated && |w'.calls| == |w.calls|
            && (forall j | 0 <= j < |w.calls| && j != s.call :: w'.calls[j] == w.calls[j])
            && (w' != w ==>
                  s.call < |w.calls| && w.calls[s.call].Resolving? && Valid(s.now)
                  && var found := UserFrom(w.rows, s.users, Some(w.calls[s.call].token), s.now);
                  && (found.None? ==> w'.calls[s.call] == Over)
                  && (found.Some? ==> w'.calls[s.call] == Revoking(w.calls[s.call].token, found.value)))
  {
    hide UserFrom, Valid;
  }

  lemma FoundIsOpen(rows: map<Token, Row>, users: set<UserId>, token: Token, now: Stamp)
    requires Stored(rows) && Valid(now) && UserFrom(rows, users, Some(token), now).Some?
    ensures Open(rows, token)
  {
  }

  lemma CallKeepsSingle(w: World, i: nat, p: Refreshing, k: Token)
    requires Single(w, k) && i < |w.calls| && w.calls[i].Resolving?
    requires p == Over || (p.Revoking? && Open(w.rows, p.token) &&
                           forall j | 0 <= j < |w.calls| :: !Holds(w.calls[j], p.token))
    ensures Single(w.(calls := w.calls[i := p]), k)
  {
    var w' := w.(calls := w.calls[i := p]);
    assert forall j | 0 <= j < |w.calls| && j != i :: w'.calls[j] == w.calls[j];
    assert !Owes(w'.calls[i], k) && (Holds(w'.calls[i], k) ==> p.token == k);
  }

  lemma ResolveKeepsSingle(w: World, s: Step, k: Token)
    requires Stored(w.rows) && Single(w, k) && s.Resolve? && !Overlaps(w, s)
    ensures Single(Do(w, s), k)
  {
    var w' := Do(w, s);
    ResolveFrame(w, s);
    hide Do, UserFrom, Valid, Stored, Single;
    if w' != w {
      var i, p := s.call, w'.calls[s.call];
      assert w' == w.(calls := w.calls[i := p]);
      if p.Revoking? {
        FoundIsOpen(w.rows, s.users, w.calls[i].token, s.now);
      }
      CallKeepsSingle(w, i, p, k);
    }
  }

  lemma ExecuteKeepsSingle(w: World, i: nat, next: Token, expires: Stamp, k: Token)
    requires Single(w, k) && i < |w.calls| && next !in w.rows
    ensures Single(DoExecute(w, i, next, expires), k)
  {
    var w' := DoExecute(w, i, next, expires);
    assert forall j | 0 <= j < |w.calls| && j != i :: w'.calls[j] == w.calls[j];
    if w.calls[i].Issuing? {
      assert Owes(w.calls[i], w.calls[i].token);
      assert multiset(w'.rotated) == multiset(w.rotated) + multiset{w.calls[i].token};
    } else if w.calls[i].Revoking? {
      assert Holds(w.calls[i], w.calls[i].token);
    }
  }

  lemma StartKeepsSingle(w: World, token: Token, k: Token)
    requires Single(w, k)
    ensures Single(w.(calls := w.calls + [Resolving(token)]), k)
  {
    var w' := w.(calls := w.calls + [Resolving(token)]);
    assert forall j | 0 <= j < |w.calls| :: w'.calls[j] == w.calls[j];
    assert !Holds(w'.calls[|w.calls|], k) && !Owes(w'.calls[|w.calls|], k);
  }

  lemma DoKeepsSingle(w: World, s: Step, k: Token)
    requires Stored(w.rows) && Single(w, k) && !Overlaps(w, s)
    ensures Single(Do(w, s), k)
  {
    hide Single, Valid, UserFrom, Overlaps, Stored;
    if Possible(w, s) {
      match s
      case Start(token) => StartKeepsSingle(w, token, k);
      case Resolve(i, users, now) => ResolveKeepsSingle(w, s, k);
      case Execute(i, next, expires) =>
        if i < |w.calls| {
          ExecuteKeepsSingle(w, i, next, expires, k);
        }
      case Other(user, next, expires) => RowsKeepSingle(w, Create(w.rows, user, next, expires), k);
      case Revocation(token) => RowsKeepSingle(w, Revoke(w.rows, token), k);
      case Logout(user) => RowsKeepSingle(w, RevokeAll(w.rows, user), k);
    }
  }

  /** Every step but an overlapping read keeps every token in one place. */
  lemma StepKeeps(w: World, s: Step)
    requires Inv(w) && !Overlaps(w, s)
    ensures Inv(Do(w, s))
  {
    DoStored(w, s);
    hide Single, Do, Overlaps, Stored;
    forall k ensures Single(Do(w, s), k) {
      assert Single(w, k);
      DoKeepsSingle(w, s, k);
    }
  }

  /** No read of the run overlaps a call that holds its token. */
  ghost predicate Separate(w: World, steps: seq<Step>)
    requires Stored(w.rows)
  {
    steps == [] ||
    (Separate(w, steps[..|steps| - 1]) && !Overlaps(Run(w, steps[..|steps| - 1]), steps[|steps| - 1]))
  }

  lemma {:induction false} RunKeeps(w: World, steps: seq<Step>)
    requires Inv(w) && Separate(w, steps)
    ensures Inv(Run(w, steps))
  {
    if steps != [] {
      RunKeeps(w, steps[..|steps| - 1]);
      StepKeeps(Run(w, steps[..|steps| - 1]), steps[|steps| - 1]);
      hide Do, Overlaps, Single, Stored;
    }
  }

  // ---------------------------------------------------------------------------
  // The exact condition
  // ---------------------------------------------------------------------------

  predicate NoReads(steps: seq<Step>) {
    forall k | 0 <= k < |steps| :: !steps[k].Resolve?
  }

  /** Some continuation without a further read rotates one session into two. */
  ghost predicate CanRotateTwice(w: World)
    requires Stored(w.rows)
  {
    exists steps: seq<Step>, k: Token :: NoReads(steps) && multiset(Run(w, steps).rotated)[k] >= 2
  }

  lemma RunOne(w: World, steps: seq<Step>, s: Step)
    requires Stored(w.rows)
    ensures Run(w, steps + [s]) == Do(Run(w, steps), s)
  {
    assert (steps + [s])[..|steps|] == steps;
  }

  lemma Rotates(w: World, steps: seq<Step>, k: Token)
    requires Stored(w.rows) && NoReads(steps) && multiset(Run(w, steps).rotated)[k] >= 2
    ensures CanRotateTwice(w)
  {
  }

  /** A number that every token of the set is shorter than. */
  lemma {:induction false} Longest(keys: set<Token>) returns (n: nat)
    ensures forall k | k in keys :: |k| < n
    decreases |keys|
  {
    if keys == {} {
      n := 0;
    } else {
      var k :| k in keys;
      var m := Longest(keys - {k});
      n := if |k| < m then m else |k| + 1;
    }
  }

  lemma FreshToken(rows: map<Token, Row>) returns (next: Token)
    ensures next !in rows && next != ""
  {
    var n := Longest(rows.Keys);
    next := seq(n + 1, _ => 'a');
  }

  /** The next statement of a call that holds or owes the token. */
  lemma OneStatement(w: World, i: nat, next: Token, expires: Stamp, k: Token)
    requires Stored(w.rows) && i < |w.calls| && Possible(w, Execute(i, next, expires))
    requires Holds(w.calls[i], k) || Owes(w.calls[i], k)
    ensures var w' := Do(w, Execute(i, next, expires));
            && |w'.calls| == |w.calls| && (forall j | 0 <= j < |w.calls| && j != i :: w'.calls[j] == w.calls[j])
            && (Holds(w.calls[i], k) ==> w'.rotated == w.rotated && Owes(w'.calls[i], k))
            && (Owes(w.calls[i], k) ==> w'.rotated == w.rotated + [k])
  {
  }

  /** A call that holds the token issues its session. */
  lemma Issues(w: World, i: nat, k: Token, expires: Stamp) returns (steps: seq<Step>)
    requires Stored(w.rows) && i < |w.calls| && Valid(expires) && (Holds(w.calls[i], k) || Owes(w.calls[i], k))
    ensures NoReads(steps)
    ensures var w' := Run(w, steps);
            && |w'.calls| == |w.calls| && (forall j | 0 <= j < |w.calls| && j != i :: w'.calls[j] == w.calls[j])
            && w'.rotated == w.rotated + [k]
  {
    var next := FreshToken(w.rows);
    var s := Execute(i, next, expires);
    OneStatement(w, i, next, expires, k);
    RunOne(w, [], s);
    assert [] + [s] == [s];
    steps := [s];
    if Holds(w.calls[i], k) {
      var w1 := Do(w, s);
      DoStored(w, s);
      next := FreshToken(w1.rows);
      OneStatement(w1, i, next, expires, k);
      RunOne(w, [s], Execute(i, next, expires));
      steps := [s] + [Execute(i, next, expires)];
    }
    hide Do;
  }

  lemma {:induction false} RunInTwo(w: World, first: seq<Step>, more: seq<Step>)
    requires Stored(w.rows)
    ensures Run(w, first + more) == Run(Run(w, first), more)
  {
    hide Do, Stored;
    if more == [] {
      assert first + more == first;
    } else {
      var front, last := more[..|more| - 1], more[|more| - 1];
      assert first + more == (first + front) + [last] && front + [last] == more;
      RunInTwo(w, first, front);
      RunOne(w, first + front, last);
      RunOne(Run(w, first), front, last);
    }
  }

  lemma BothIssue(w: World, i: nat, j: nat, k: Token, expires: Stamp)
    requires Stored(w.rows) && Valid(expires) && i < |w.calls| && j < |w.calls| && i != j
    requires Holds(w.calls[i], k) && Holds(w.calls[j], k)
    ensures CanRotateTwice(w)
  {
    var first := Issues(w, i, k, expires);
    var w1 := Run(w, first);
    var second := Issues(w1, j, k, expires);
    RunInTwo(w, first, second);
    var w2 := Run(w, first + second);
    assert w2.rotated == w.rotated + [k] + [k];
    assert multiset(w2.rotated) == multiset(w.rotated) + multiset{k, k};
    hide Run, CanRotateTwice;
    Rotates(w, first + second, k);
  }

  lemma OverlapRotatesTwice(w: World, s: Step)
    requires Stored(w.rows) && Overlaps(w, s)
    ensures Stored(Do(w, s).rows) && CanRotateTwice(Do(w, s))
  {
    var k := w.calls[s.call].token;
    var j :| 0 <= j < |w.calls| && Holds(w.calls[j], k);
    DoStored(w, s);
    var w' := Do(w, s);
    assert Holds(w'.calls[s.call], k) && w'.calls[j] == w.calls[j] && Valid(w.rows[k].expires);
    hide Do, CanRotateTwice, UserFrom, Valid;
    BothIssue(w', s.call, j, k, w.rows[k].expires);
  }

  lemma {:induction false} NoReadsSeparate(w: World, steps: seq<Step>)
    requires Stored(w.rows) && NoReads(steps)
    ensures Separate(w, steps)
  {
    if steps != [] {
      NoReadsSeparate(w, steps[..|steps| - 1]);
    }
  }

  lemma InvRotatesOnce(w: World)
    requires Inv(w)
    ensures !CanRotateTwice(w)
  {
    hide Run, Single;
    forall steps: seq<Step>, k: Token | NoReads(steps) ensures multiset(Run(w, steps).rotated)[k] < 2 {
      NoReadsSeparate(w, steps);
      RunKeeps(w, steps);
      RotatedOnce(Run(w, steps), k);
    }
  }

  lemma RotatedOnce(w: World, k: Token)
    requires Inv(w)
    ensures multiset(w.rotated)[k] <= 1
  {
    assert Single(w, k);
  }

  /**
    For one read: if every token was in one place before, no continuation without a further read
    rotates a session into two, if and only if the read does not find a session that another
    call has found and not yet revoked.
   */
  lemma ResolveExactly(w: World, s: Step)
    requires Inv(w)
    ensures Stored(Do(w, s).rows)
    ensures !CanRotateTwice(Do(w, s)) <==> !Overlaps(w, s)
  {
    DoStored(w, s);
    if Overlaps(w, s) {
      OverlapRotatesTwice(w, s);
    } else {
      StepKeeps(w, s);
      InvRotatesOnce(Do(w, s));
    }
    hide Do, Overlaps, CanRotateTwice;
  }

  lemma {:induction false} FirstOverlap(w: World, steps: seq<Step>) returns (k: nat)
    requires Stored(w.rows) && !Separate(w, steps)
    ensures k < |steps| && Separate(w, steps[..k]) && Overlaps(Run(w, steps[..k]), steps[k])
  {
    hide Overlaps, Run;
    var front := steps[..|steps| - 1];
    if Separate(w, front) {
      k := |steps| - 1;
    } else {
      k := FirstOverlap(w, front);
      assert front[..k] == steps[..k] && front[k] == steps[k];
    }
  }

  lemma {:induction false} SeparatePrefix(w: World, steps: seq<Step>, k: nat)
    requires Stored(w.rows) && Separate(w, steps) && k <= |steps|
    ensures Separate(w, steps[..k])
  {
    hide Overlaps, Run;
    if k < |steps| {
      assert steps[..|steps| - 1][..k] == steps[..k];
      SeparatePrefix(w, steps[..|steps| - 1], k);
    } else {
      assert steps[..k] == steps;
    }
  }

  lemma StartInv()
    ensures Inv(START)
  {
  }

  lemma InvStored(w: World)
    requires Inv(w)
    ensures Stored(w.rows)
  {
    hide Stored, Single;
  }

  lemma SeparateRotatesOnce(w: World, steps: seq<Step>, k: nat)
    requires Inv(w) && Separate(w, steps) && k <= |steps|
    ensures !CanRotateTwice(Run(w, steps[..k]))
  {
    hide *;
    InvStored(w);
    SeparatePrefix(w, steps, k);
    RunKeeps(w, steps[..k]);
    InvRotatesOnce(Run(w, steps[..k]));
  }

  lemma OverlapFound(w: World, steps: seq<Step>) returns (k: nat)
    requires Inv(w) && !Separate(w, steps)
    ensures k <= |steps| && CanRotateTwice(Run(w, steps[..k]))
  {
    hide *;
    InvStored(w);
    var n := FirstOverlap(w, steps);
    RunKeeps(w, steps[..n]);
    OverlapRotatesTwice(Run(w, steps[..n]), steps[n]);
    RunOne(w, steps[..n], steps[n]);
    k := n + 1;
    assert steps[..k] == steps[..n] + [steps[n]];
  }

  /**
    One session for one, exactly: no continuation of any part of a run rotates a session into two,
    if and only if no read of the run overlaps a call that holds the token.
   */
  lemma RotationExactly(steps: seq<Step>)
    ensures Stored(START.rows)
    ensures Separate(START, steps) <==> forall k: nat | k <= |steps| :: !CanRotateTwice(Run(START, steps[..k]))
  {
    hide *;
    StartInv();
    InvStored(START);
    if Separate(START, steps) {
      forall k: nat | k <= |steps| ensures !CanRotateTwice(Run(START, steps[..k])) {
        SeparateRotatesOnce(START, steps, k);
      }
    } else {
      var k := OverlapFound(START, steps);
    }
  }

  /** Such a run: two refreshes of one session that both find it before either revokes it. */
  lemma CrossedRefreshes(rows: map<Token, Row>, users: set<UserId>, token: Token, now: Stamp)
    requires Stored(rows) && Valid(now) && UserFrom(rows, users, Some(token), now).Some?
    ensures var first := Do(World(rows, [Resolving(token), Resolving(token)], []), Resolve(0, users, now));
            && Stored(first.rows)
            && var both := Do(first, Resolve(1, users, now));
               Stored(both.rows) && CanRotateTwice(both)
  {
    var w := World(rows, [Resolving(token), Resolving(token)], []);
    var first := Do(w, Resolve(0, users, now));
    DoStored(w, Resolve(0, users, now));
    assert first.rows == rows && first.calls[1] == Resolving(token) && Holds(first.calls[0], token);
    hide Do, UserFrom, CanRotateTwice, Valid;
    OverlapRotatesTwice(first, Resolve(1, users, now));
  }
}
