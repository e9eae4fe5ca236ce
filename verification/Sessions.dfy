/**
  The session table (rust/src/auth/session.rs:36-79, 124-136). A token is stored as its hash, which
  is taken to be injective, so the table is keyed by the token. New tokens and expiry times come
  from outside.
 */
module Sessions {
  import opened Wrappers
  import opened Timestamps

  type UserId = nat
  type Token = string

  datatype Row = Row(user: UserId, expires: Stamp, revoked: bool)

  ghost predicate Stored(rows: map<Token, Row>) {
    forall k | k in rows :: Valid(rows[k].expires)
  }

  /** `user_from_token`: the user of a live, unrevoked session whose account still exists. */
  function UserFrom(rows: map<Token, Row>, users: set<UserId>, token: Option<Token>, now: Stamp): Option<UserId>
    requires Valid(now) && Stored(rows)
  {
    if token.None? || token.value == "" || token.value !in rows then None
    else
      var row := rows[token.value];
      if row.user in users && !row.revoked && SessionLive(now, row.expires) then Some(row.user) else None
  }

  function Create(rows: map<Token, Row>, user: UserId, token: Token, expires: Stamp): map<Token, Row> {
    rows[token := Row(user, expires, false)]
  }

  function Revoke(rows: map<Token, Row>, token: Token): map<Token, Row> {
    if token in rows then rows[token := rows[token].(revoked := true)] else rows
  }

  function RevokeAll(rows: map<Token, Row>, user: UserId): map<Token, Row> {
    map k | k in rows :: if rows[k].user == user then rows[k].(revoked := true) else rows[k]
  }

  function Refresh(rows: map<Token, Row>, users: set<UserId>, token: Token, now: Stamp, next: Token, expires: Stamp)
    : (map<Token, Row>, Option<Token>)
    requires Valid(now) && Stored(rows)
  {
    match UserFrom(rows, users, Some(token), now)
    case None => (rows, None)
    case Some(user) => (Create(Revoke(rows, token), user, next, expires), Some(next))
  }

  class SessionStore {
    var rows: map<Token, Row>

    ghost predicate Inv()
      reads this
    {
      Stored(rows)
    }

    constructor ()
      ensures Inv() && rows == map[]
    {
      rows := map[];
    }

    method CreateSession(user: UserId, token: Token, expires: Stamp)
      requires Inv() && Valid(expires)
      modifies this
      ensures Inv() && rows == Create(old(rows), user, token, expires)
    {
      rows := rows[token := Row(user, expires, false)];
    }

    method RevokeSession(token: Token)
      requires Inv()
      modifies this
      ensures Inv() && rows == Revoke(old(rows), token)
    {
      if token in rows {
        rows := rows[token := rows[token].(revoked := true)];
      }
    }

    method RevokeAllSessions(user: UserId)
      requires Inv()
      modifies this
      ensures Inv() && rows == RevokeAll(old(rows), user)
    {
      rows := map k | k in rows :: if rows[k].user == user then rows[k].(revoked := true) else rows[k];
    }

    method UserFromToken(users: set<UserId>, token: Option<Token>, now: Stamp) returns (r: Option<UserId>)
      requires Inv() && Valid(now)
      ensures r == UserFrom(rows, users, token, now)
    {
      if token.None? || token.value == "" || token.value !in rows {
        return None;
      }
      var row := rows[token.value];
      if row.user in users && !row.revoked && SessionLive(now, row.expires) {
        return Some(row.user);
      }
      return None;
    }

    method RefreshSession(users: set<UserId>, token: Token, now: Stamp, next: Token, expires: Stamp)
      returns (r: Option<Token>)
      requires Inv() && Valid(now) && Valid(expires)
      modifies this
      ensures Inv() && (rows, r) == Refresh(old(rows), users, token, now, next, expires)
    {
      var user := UserFromToken(users, Some(token), now);
      if user.None? {
        return None;
      }
      RevokeSession(token);
      CreateSession(user.value, next, expires);
      return Some(next);
    }
  }

  // ---------------------------------------------------------------------------
  // Whole histories
  // ---------------------------------------------------------------------------

  datatype Step =
    | DoCreate(user: UserId, next: Token, expires: Stamp)
    | DoRevoke(token: Token)
    | DoRevokeAll(user: UserId)
    | DoRefresh(users: set<UserId>, token: Token, now: Stamp, next: Token, expires: Stamp)

  datatype Event = Issued(token: Token, user: UserId, expires: Stamp) | Revoked(token: Token) | AllRevoked(user: UserId)

  datatype History = History(rows: map<Token, Row>, log: seq<Event>)

  predicate ValidStep(s: Step) {
    (s.DoCreate? || s.DoRefresh? ==> Valid(s.expires)) && (s.DoRefresh? ==> Valid(s.now))
  }

  function Do(h: History, s: Step): History
    requires ValidStep(s) && Stored(h.rows)
  {
    match s
    case DoCreate(user, next, expires) => Issue(h, next, user, expires)
    case DoRevoke(token) => History(Revoke(h.rows, token), h.log + [Revoked(token)])
    case DoRevokeAll(user) => History(RevokeAll(h.rows, user), h.log + [AllRevoked(user)])
    case DoRefresh(users, token, now, next, expires) =>
      match UserFrom(h.rows, users, Some(token), now)
      case None => h
      case Some(user) => Issue(History(Revoke(h.rows, token), h.log + [Revoked(token)]), next, user, expires)
  }

  function Issue(h: History, token: Token, user: UserId, expires: Stamp): History {
    History(Create(h.rows, user, token, expires), h.log + [Issued(token, user, expires)])
  }

  /** Random tokens are neither empty nor drawn twice. */
  predicate Fresh(h: History, s: Step) {
    s.DoCreate? || s.DoRefresh? ==> s.next != "" && s.next !in h.rows
  }

  ghost predicate Run(steps: seq<Step>, h: History)
  {
    if steps == [] then h == History(map[], [])
    else
      exists before :: Run(steps[..|steps| - 1], before) && Stored(before.rows)
        && ValidStep(steps[|steps| - 1]) && Fresh(before, steps[|steps| - 1])
        && h == Do(before, steps[|steps| - 1])
  }

  /** Whether an event ends a session of the user. */
  predicate Ends(e: Event, token: Token, user: UserId) {
    e == Revoked(token) || e == AllRevoked(user)
  }

  /** The session was issued at position `i` and nothing has ended it since. */
  ghost predicate StandsFrom(log: seq<Event>, token: Token, user: UserId, expires: Stamp, i: nat) {
    i < |log| && log[i] == Issued(token, user, expires) && forall k | i < k < |log| :: !Ends(log[k], token, user)
  }

  ghost predicate Stands(log: seq<Event>, token: Token, user: UserId, expires: Stamp) {
    exists i: nat :: StandsFrom(log, token, user, expires, i)
  }

  ghost predicate Accounted(h: History) {
    && Stored(h.rows) && "" !in h.rows && IssuedOnce(h.log)
    && (forall k | 0 <= k < |h.log| && h.log[k].Issued? ::
          h.log[k].token in h.rows && h.rows[h.log[k].token] ==
            Row(h.log[k].user, h.log[k].expires, h.rows[h.log[k].token].revoked))
    && (forall token | token in h.rows ::
          !h.rows[token].revoked <==> Stands(h.log, token, h.rows[token].user, h.rows[token].expires))
  }

  /** No token is issued twice. */
  ghost predicate IssuedOnce(log: seq<Event>) {
    forall i, k | 0 <= i < k < |log| && log[i].Issued? && log[k].Issued? :: log[i].token != log[k].token
  }

  lemma OneMore(log: seq<Event>, e: Event, token: Token, user: UserId, expires: Stamp)
    ensures Stands(log + [e], token, user, expires) <==>
              e == Issued(token, user, expires) || (Stands(log, token, user, expires) && !Ends(e, token, user))
  {
    var more := log + [e];
    if Stands(more, token, user, expires) && e != Issued(token, user, expires) {
      var i: nat :| StandsFrom(more, token, user, expires, i);
      assert i < |log| && more[i] == log[i] && !Ends(more[|log|], token, user);
      assert forall k | i < k < |log| :: log[k] == more[k];
      assert StandsFrom(log, token, user, expires, i);
    }
    if e == Issued(token, user, expires) {
      assert StandsFrom(more, token, user, expires, |log|);
    }
    if Stands(log, token, user, expires) && !Ends(e, token, user) {
      var i: nat :| StandsFrom(log, token, user, expires, i);
      assert StandsFrom(more, token, user, expires, i);
    }
  }

  lemma IssueAccounted(h: History, token: Token, user: UserId, expires: Stamp)
    requires Accounted(h) && token != "" && token !in h.rows && Valid(expires)
    ensures Accounted(Issue(h, token, user, expires))
  {
    var h' := Issue(h, token, user, expires);
    forall k | k in h'.rows
      ensures !h'.rows[k].revoked <==> Stands(h'.log, k, h'.rows[k].user, h'.rows[k].expires)
    {
      OneMore(h.log, Issued(token, user, expires), k, h'.rows[k].user, h'.rows[k].expires);
    }
    hide Stands;
  }

  lemma RevokeAccounted(h: History, token: Token)
    requires Accounted(h)
    ensures Accounted(History(Revoke(h.rows, token), h.log + [Revoked(token)]))
  {
    var h' := History(Revoke(h.rows, token), h.log + [Revoked(token)]);
    forall k | k in h'.rows
      ensures !h'.rows[k].revoked <==> Stands(h'.log, k, h'.rows[k].user, h'.rows[k].expires)
    {
      OneMore(h.log, Revoked(token), k, h'.rows[k].user, h'.rows[k].expires);
    }
    hide Stands;
  }

  lemma RevokeAllAccounted(h: History, user: UserId)
    requires Accounted(h)
    ensures Accounted(History(RevokeAll(h.rows, user), h.log + [AllRevoked(user)]))
  {
    var h' := History(RevokeAll(h.rows, user), h.log + [AllRevoked(user)]);
    forall k | k in h'.rows
      ensures !h'.rows[k].revoked <==> Stands(h'.log, k, h'.rows[k].user, h'.rows[k].expires)
    {
      OneMore(h.log, AllRevoked(user), k, h'.rows[k].user, h'.rows[k].expires);
    }
    hide Stands;
  }

  lemma StepAccounted(h: History, s: Step)
    requires Accounted(h) && ValidStep(s) && Fresh(h, s)
    ensures Accounted(Do(h, s))
  {
    hide Stands, IssuedOnce, Issue, RevokeAll;
    match s
    case DoCreate(user, next, expires) => IssueAccounted(h, next, user, expires);
    case DoRevoke(token) => RevokeAccounted(h, token);
    case DoRevokeAll(user) => RevokeAllAccounted(h, user);
    case DoRefresh(users, token, now, next, expires) =>
      var found := UserFrom(h.rows, users, Some(token), now);
      if found.Some? {
        RevokeAccounted(h, token);
        IssueAccounted(History(Revoke(h.rows, token), h.log + [Revoked(token)]), next, found.value, expires);
      }
  }

  lemma {:induction false} RunAccounted(steps: seq<Step>, h: History)
    requires Run(steps, h)
    ensures Accounted(h)
  {
    if steps != [] {
      var init, last := steps[..|steps| - 1], steps[|steps| - 1];
      var before :| Run(init, before) && Stored(before.rows) && ValidStep(last) && Fresh(before, last) &&
          h == Do(before, last);
      RunAccounted(init, before);
      StepAccounted(before, last);
    }
  }

  ghost predicate LiveUntil(log: seq<Event>, token: Token, user: UserId, now: Stamp, expires: Stamp) {
    Valid(expires) && Stands(log, token, user, expires) && DayNumber(now.date) <= DayNumber(expires.date)
  }

  /**
    A token resolves to a user exactly if it was issued to that user, neither the token nor all of
    the user's sessions were revoked since, the account exists, and the day of the expiry is not over.
   */
  lemma ResolvesExactly(steps: seq<Step>, h: History, users: set<UserId>, token: Token, now: Stamp, user: UserId)
    requires Run(steps, h) && Valid(now)
    ensures Stored(h.rows)
    ensures UserFrom(h.rows, users, Some(token), now) == Some(user) <==>
              user in users && exists expires: Stamp :: LiveUntil(h.log, token, user, now, expires)
  {
    RunAccounted(steps, h);
    hide Run;
    if UserFrom(h.rows, users, Some(token), now) == Some(user) {
      var expires := h.rows[token].expires;
      SessionLivesThroughDay(now, expires);
      assert LiveUntil(h.log, token, user, now, expires);
    }
    if expires: Stamp :| LiveUntil(h.log, token, user, now, expires) {
      var i: nat :| StandsFrom(h.log, token, user, expires, i);
      assert h.log[i].Issued? && token in h.rows && h.rows[token].expires == expires && h.rows[token].user == user;
      SessionLivesThroughDay(now, expires);
      hide SessionLive, Stands;
      assert token != "";
    }
  }

  /** A token that was revoked, or replaced by a refresh, never resolves again. */
  lemma RevokedForGood(steps: seq<Step>, h: History, users: set<UserId>, token: Token, now: Stamp, i: nat,
          j: nat, user: UserId)
    requires Run(steps, h) && Valid(now) && i < j < |h.log|
    requires h.log[i].Issued? && h.log[i].token == token && h.log[i].user == user && Ends(h.log[j], token, user)
    ensures Stored(h.rows) && UserFrom(h.rows, users, Some(token), now) == None
  {
    RunAccounted(steps, h);
    hide Run;
    var row := h.rows[token];
    forall k: nat ensures !StandsFrom(h.log, token, row.user, row.expires, k) {
      if k < |h.log| && h.log[k] == Issued(token, row.user, row.expires) {
        assert k == i;
      }
    }
    assert !Stands(h.log, token, row.user, row.expires);
  }

  // ---------------------------------------------------------------------------
  // What each operation does to the tokens
  // ---------------------------------------------------------------------------

  /** Logging out ends the token and no other; ending all sessions of a user ends exactly that user's tokens. */
  lemma RevokingExactly(h: History, users: set<UserId>, token: Token, user: UserId, now: Stamp, x: Token)
    requires Stored(h.rows) && Valid(now)
    ensures var one, all := Do(h, DoRevoke(token)).rows, Do(h, DoRevokeAll(user)).rows;
            var before := UserFrom(h.rows, users, Some(x), now);
            && Stored(one) && UserFrom(one, users, Some(x), now) == (if x == token then None else before)
            && Stored(all) && UserFrom(all, users, Some(x), now) == (if before == Some(user) then None else before)
  {
    hide SessionLive, Valid;
  }

  /** A new session resolves to its user while it lives, and no other token is touched. */
  lemma CreatingExactly(h: History, users: set<UserId>, user: UserId, next: Token, expires: Stamp, now: Stamp, x: Token)
    requires Stored(h.rows) && Valid(now) && Valid(expires) && next != ""
    ensures var rows := Do(h, DoCreate(user, next, expires)).rows;
            && Stored(rows)
            && UserFrom(rows, users, Some(x), now) ==
               (if x != next then UserFrom(h.rows, users, Some(x), now)
                else if user in users && SessionLive(now, expires) then Some(user) else None)
  {
    hide SessionLive, Valid;
  }

  /**
    A refresh with a token that resolves ends that token and hands its user over to the next one; no
    other token is touched. With any other token, the empty one among them, nothing happens.
   */
  lemma RefreshExactly(h: History, users: set<UserId>, token: Token, now: Stamp, next: Token, expires: Stamp, x: Token)
    requires Stored(h.rows) && Valid(now) && Valid(expires) && next != "" && next !in h.rows
    ensures var h' := Do(h, DoRefresh(users, token, now, next, expires));
            var user := UserFrom(h.rows, users, Some(token), now);
            && Stored(h'.rows) && h'.rows == Refresh(h.rows, users, token, now, next, expires).0
            && Refresh(h.rows, users, token, now, next, expires).1 == (if user.Some? then Some(next) else None)
            && (user.None? ==> h' == h) && (token == "" ==> user.None?)
            && (user.Some? ==>
                  UserFrom(h'.rows, users, Some(x), now) ==
                  if x == token then None
                  else if x == next then (if SessionLive(now, expires) then user else None)
                  else UserFrom(h.rows, users, Some(x), now))
  {
    hide SessionLive, Valid;
  }
}
