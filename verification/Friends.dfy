/**
  The friends table (rust/src/domain/friends.rs:152-232, rust/src/db.rs:257-265) and the list of
  accepted friends read from it (rust/src/presence.rs:14-36). A row holds the requester in `a` and
  the recipient in `b`; only the recipient may answer, and a request after a decline rewrites both.
 */
module Friends {
  import opened Wrappers

  type UserId = n: nat | 1 <= n witness 1
  type RowId = nat

  datatype Status = Pending | Accepted | Declined
  datatype Row = Row(a: UserId, b: UserId, status: Status)
  datatype Table = Table(rows: map<RowId, Row>, nextId: RowId)
  datatype FriendError = SelfTarget | NotFound | UniqueViolated

  predicate Pairs(row: Row, x: UserId, y: UserId) {
    (row.a == x && row.b == y) || (row.a == y && row.b == x)
  }

  /** The first row of an unordered pair, in id order from `k`. */
  function Find(t: Table, x: UserId, y: UserId, k: RowId): (r: Option<RowId>)
    ensures r.Some? ==> r.value in t.rows && k <= r.value < t.nextId && Pairs(t.rows[r.value], x, y)
    ensures r.None? ==> forall id | k <= id < t.nextId && id in t.rows :: !Pairs(t.rows[id], x, y)
    decreases t.nextId - k
  {
    if k >= t.nextId then None
    else if k in t.rows && Pairs(t.rows[k], x, y) then Some(k)
    else Find(t, x, y, k + 1)
  }

  /** Storing a row breaks `UNIQUE(user_a_id, user_b_id)` if another row has the same columns. */
  predicate Taken(t: Table, id: RowId, a: UserId, b: UserId) {
    exists k :: k in t.rows && k != id && t.rows[k].a == a && t.rows[k].b == b
  }

  function SendRequest(t: Table, user: UserId, target: UserId): (Table, Result<(), FriendError>) {
    if user == target then (t, Err(SelfTarget))
    else
      match Find(t, user, target, 0)
      case Some(id) =>
        if t.rows[id].status != Declined then (t, Ok(()))
        else if Taken(t, id, user, target) then (t, Err(UniqueViolated))
        else (t.(rows := t.rows[id := Row(user, target, Pending)]), Ok(()))
      case None =>
        if Taken(t, t.nextId, user, target) then (t, Err(UniqueViolated))
        else (Table(t.rows[t.nextId := Row(user, target, Pending)], t.nextId + 1), Ok(()))
  }

  function Respond(t: Table, id: RowId, user: UserId, accept: bool): (Table, Result<Status, FriendError>) {
    if id !in t.rows || t.rows[id].b != user || t.rows[id].status != Pending then (t, Err(NotFound))
    else
      var status := if accept then Accepted else Declined;
      (t.(rows := t.rows[id := t.rows[id].(status := status)]), Ok(status))
  }

  function Remove(t: Table, id: RowId, user: UserId): Table {
    if id in t.rows && (t.rows[id].a == user || t.rows[id].b == user) then t.(rows := t.rows - {id}) else t
  }

  function Friend(row: Row, user: UserId): UserId {
    if row.a == user then row.b else row.a
  }

  predicate AcceptedWith(row: Row, user: UserId) {
    row.status == Accepted && (row.a == user || row.b == user)
  }

  /** `accepted_friend_ids`, over the rows with ids below `k`. */
  function AcceptedFriends(t: Table, user: UserId, k: RowId): seq<UserId> {
    if k == 0 then []
    else if k - 1 in t.rows && AcceptedWith(t.rows[k - 1], user) then
      AcceptedFriends(t, user, k - 1) + [Friend(t.rows[k - 1], user)]
    else AcceptedFriends(t, user, k - 1)
  }

  function FriendsOf(t: Table, user: UserId): seq<UserId> {
    AcceptedFriends(t, user, t.nextId)
  }

  class FriendStore {
    var rows: map<RowId, Row>
    var nextId: RowId

    function View(): Table
      reads this
    {
      Table(rows, nextId)
    }

    constructor ()
      ensures View() == Table(map[], 1)
    {
      rows, nextId := map[], 1;
    }

    /** `SELECT id, status FROM friends WHERE` the two users, in either order. */
    method Select(x: UserId, y: UserId) returns (r: Option<RowId>)
      ensures r == Find(View(), x, y, 0)
    {
      var k := 0;
      while k < nextId
        invariant Find(View(), x, y, 0) == Find(View(), x, y, k)
      {
        if k in rows && Pairs(rows[k], x, y) {
          return Some(k);
        }
        k := k + 1;
      }
      return None;
    }

    method SendFriendRequest(user: UserId, target: UserId) returns (r: Result<(), FriendError>)
      modifies this
      ensures (View(), r) == SendRequest(old(View()), user, target)
    {
      if user == target {
        return Err(SelfTarget);
      }
      var found := Select(user, target);
      if found.Some? {
        var id := found.value;
        if rows[id].status == Accepted || rows[id].status == Pending {
          return Ok(());
        }
        if Taken(View(), id, user, target) {
          return Err(UniqueViolated);
        }
        rows := rows[id := Row(user, target, Pending)];
        return Ok(());
      }
      if Taken(View(), nextId, user, target) {
        return Err(UniqueViolated);
      }
      rows := rows[nextId := Row(user, target, Pending)];
      nextId := nextId + 1;
      return Ok(());
    }

    method RespondFriendRequest(id: RowId, user: UserId, accept: bool) returns (r: Result<Status, FriendError>)
      modifies this
      ensures (View(), r) == Respond(old(View()), id, user, accept)
    {
      if !(id in rows && rows[id].b == user && rows[id].status == Pending) {
        return Err(NotFound);
      }
      var status := if accept then Accepted else Declined;
      rows := rows[id := rows[id].(status := status)];
      return Ok(status);
    }

    method RemoveFriend(id: RowId, user: UserId)
      modifies this
      ensures View() == Remove(old(View()), id, user)
    {
      if id in rows && (rows[id].a == user || rows[id].b == user) {
        rows := rows - {id};
      }
    }

    method AcceptedFriendIds(user: UserId) returns (out: seq<UserId>)
      ensures out == FriendsOf(View(), user)
    {
      out := [];
      var k := 0;
      while k < nextId
        invariant k <= nextId
        invariant out == AcceptedFriends(View(), user, k)
      {
        if k in rows && AcceptedWith(rows[k], user) {
          out := out + [if rows[k].a == user then rows[k].b else rows[k].a];
        }
        k := k + 1;
      }
    }
  }

  // ---------------------------------------------------------------------------
  // The table over whole histories
  // ---------------------------------------------------------------------------

  ghost predicate OneRowPerPair(t: Table) {
    && (forall id | id in t.rows :: id < t.nextId && t.rows[id].a != t.rows[id].b)
    && (forall i, j | i in t.rows && j in t.rows && i != j :: !Pairs(t.rows[i], t.rows[j].a, t.rows[j].b))
  }

  datatype Event =
    | Requested(id: RowId, user: UserId, target: UserId)
    | Answered(id: RowId, user: UserId, accepted: bool)
    | Removed(id: RowId, user: UserId)

  datatype Call =
    | CallSend(user: UserId, target: UserId)
    | CallRespond(id: RowId, user: UserId, accept: bool)
    | CallRemove(id: RowId, user: UserId)

  /** The table, and the calls that changed it. */
  datatype History = History(t: Table, log: seq<Event>)

  function Do(h: History, c: Call): History {
    match c
    case CallSend(user, target) =>
      var t' := SendRequest(h.t, user, target).0;
      var id := Find(h.t, user, target, 0).GetOr(h.t.nextId);
      History(t', if t' == h.t then h.log else h.log + [Requested(id, user, target)])
    case CallRespond(id, user, accept) =>
      var (t', r) := Respond(h.t, id, user, accept);
      History(t', if r.Ok? then h.log + [Answered(id, user, accept)] else h.log)
    case CallRemove(id, user) =>
      var t' := Remove(h.t, id, user);
      History(t', if t' == h.t then h.log else h.log + [Removed(id, user)])
  }

  function Run(calls: seq<Call>): History {
    if calls == [] then History(Table(map[], 1), [])
    else Do(Run(calls[..|calls| - 1]), calls[|calls| - 1])
  }

  /** The log from which a row follows: its last request, and the recipient's answer if there is one. */
  ghost predicate Explains(log: seq<Event>, id: RowId, row: Row) {
    if row.status == Pending then
      exists i: nat :: i < |log| && log[i] == Requested(id, row.a, row.b) && Silent(log, id, i + 1)
    else
      exists i: nat, j: nat :: i < j < |log| && log[i] == Requested(id, row.a, row.b)
        && log[j] == Answered(id, row.b, row.status == Accepted)
        && Silent(log[..j], id, i + 1) && Silent(log, id, j + 1)
  }

  /** Nothing about the row from position `from` on. */
  ghost predicate Silent(log: seq<Event>, id: RowId, from: nat) {
    forall k | from <= k < |log| :: log[k].id != id
  }

  ghost predicate Gone(log: seq<Event>, id: RowId) {
    exists i: nat :: i < |log| && log[i].id == id && log[i].Removed? && Silent(log, id, i + 1)
  }

  ghost predicate Explained(h: History) {
    && (forall id | id in h.t.rows :: Explains(h.log, id, h.t.rows[id]))
    && (forall id | id !in h.t.rows :: Silent(h.log, id, 0) || Gone(h.log, id))
    && (forall k | 0 <= k < |h.log| :: h.log[k].id < h.t.nextId)
  }

  lemma FindOnly(t: Table, x: UserId, y: UserId, id: RowId)
    requires OneRowPerPair(t) && id in t.rows && Pairs(t.rows[id], x, y)
    ensures Find(t, x, y, 0) == Some(id)
  {
    var r := Find(t, x, y, 0);
    assert r.Some?;
    assert Pairs(t.rows[r.value], t.rows[id].a, t.rows[id].b);
  }

  lemma TurnedKeepsTable(t: Table, id: RowId, user: UserId, target: UserId)
    requires OneRowPerPair(t) && id in t.rows && Pairs(t.rows[id], user, target) && user != target
    ensures !Taken(t, id, user, target)
    ensures OneRowPerPair(t.(rows := t.rows[id := Row(user, target, Pending)]))
  {
  }

  lemma AddedKeepsTable(t: Table, user: UserId, target: UserId)
    requires OneRowPerPair(t) && user != target && forall k | k in t.rows :: !Pairs(t.rows[k], user, target)
    ensures !Taken(t, t.nextId, user, target)
    ensures OneRowPerPair(Table(t.rows[t.nextId := Row(user, target, Pending)], t.nextId + 1))
  {
  }

  /** A request never breaks the UNIQUE constraint, not even when it swaps the columns of a row. */
  lemma SendKeepsTable(t: Table, user: UserId, target: UserId)
    requires OneRowPerPair(t)
    ensures OneRowPerPair(SendRequest(t, user, target).0)
    ensures SendRequest(t, user, target).1 == (if user == target then Err(SelfTarget) else Ok(()))
  {
    if user != target {
      var r := Find(t, user, target, 0);
      forall k | k in t.rows && Pairs(t.rows[k], user, target) ensures r == Some(k) {
        FindOnly(t, user, target, k);
      }
      if r.Some? {
        TurnedKeepsTable(t, r.value, user, target);
      } else {
        AddedKeepsTable(t, user, target);
      }
    }
    hide Find, Taken, OneRowPerPair;
  }

  lemma CallKeepsTable(h: History, c: Call)
    requires OneRowPerPair(h.t)
    ensures OneRowPerPair(Do(h, c).t)
  {
    if c.CallSend? {
      SendKeepsTable(h.t, c.user, c.target);
    }
  }

  /** One more event about another row changes nothing for this one. */
  lemma UnrelatedEvent(log: seq<Event>, e: Event, id: RowId, row: Row)
    requires e.id != id
    ensures Explains(log, id, row) ==> Explains(log + [e], id, row)
    ensures Silent(log, id, 0) || Gone(log, id) ==> Silent(log + [e], id, 0) || Gone(log + [e], id)
  {
    var log' := log + [e];
    if Explains(log, id, row) {
      if row.status == Pending {
        var i: nat :| i < |log| && log[i] == Requested(id, row.a, row.b) && Silent(log, id, i + 1);
        assert log'[i] == log[i] && Silent(log', id, i + 1);
      } else {
        var i: nat, j: nat :| i < j < |log| && log[i] == Requested(id, row.a, row.b)
          && log[j] == Answered(id, row.b, row.status == Accepted)
          && Silent(log[..j], id, i + 1) && Silent(log, id, j + 1);
        assert log'[..j] == log[..j] && log'[i] == log[i] && log'[j] == log[j] && Silent(log', id, j + 1);
      }
    }
    if Gone(log, id) {
      var i: nat :| i < |log| && log[i].id == id && log[i].Removed? && Silent(log, id, i + 1);
      assert log'[i] == log[i] && Silent(log', id, i + 1);
    }
  }

  lemma EventExplains(log: seq<Event>, e: Event, row: Row)
    requires e == Requested(e.id, row.a, row.b) && row.status == Pending
    ensures Explains(log + [e], e.id, row)
  {
    var log' := log + [e];
    assert log'[|log|] == e && Silent(log', e.id, |log| + 1);
  }

  lemma AnswerExplains(log: seq<Event>, id: RowId, row: Row, accept: bool)
    requires row.status == Pending && Explains(log, id, row)
    ensures Explains(log + [Answered(id, row.b, accept)], id, row.(status := if accept then Accepted else Declined))
  {
    var log' := log + [Answered(id, row.b, accept)];
    var i: nat :| i < |log| && log[i] == Requested(id, row.a, row.b) && Silent(log, id, i + 1);
    assert log'[i] == log[i] && log'[|log|] == Answered(id, row.b, accept) && log'[..|log|] == log;
    assert Silent(log', id, |log| + 1);
  }

  lemma RemovalExplains(log: seq<Event>, e: Event)
    requires e.Removed?
    ensures Gone(log + [e], e.id)
  {
    var log' := log + [e];
    assert log'[|log|] == e && Silent(log', e.id, |log| + 1);
  }

  /** What one call does to the table and the log together. */
  lemma CallShape(h: History, c: Call)
    requires OneRowPerPair(h.t)
    ensures var h' := Do(h, c);
            || h' == h
            || exists e :: Effect(h, h', e)
  {
    var h' := Do(h, c);
    match c
    case CallSend(user, target) =>
      var id := Find(h.t, user, target, 0).GetOr(h.t.nextId);
      if h' != h {
        assert Effect(h, h', Requested(id, user, target));
      }
    case CallRespond(id, user, accept) =>
      if h' != h {
        assert Effect(h, h', Answered(id, user, accept));
      }
    case CallRemove(id, user) =>
      if h' != h {
        assert Effect(h, h', Removed(id, user));
      }
  }

  ghost predicate Effect(h: History, h': History, e: Event) {
    && h'.log == h.log + [e] && e.id < h'.t.nextId && h.t.nextId <= h'.t.nextId
    && (forall id | id != e.id :: id in h.t.rows <==> id in h'.t.rows)
    && (forall id | id != e.id && id in h.t.rows :: h'.t.rows[id] == h.t.rows[id])
    && match e
       case Requested(id, user, target) => id in h'.t.rows && h'.t.rows[id] == Row(user, target, Pending)
       case Answered(id, user, accepted) =>
         && id in h.t.rows && h.t.rows[id].status == Pending && h.t.rows[id].b == user && id in h'.t.rows
         && h'.t.rows[id] == h.t.rows[id].(status := if accepted then Accepted else Declined)
       case Removed(id, user) => id !in h'.t.rows
  }

  lemma EffectExplains(h: History, h': History, e: Event)
    requires Explained(h) && Effect(h, h', e)
    ensures e.id in h'.t.rows ==> Explains(h'.log, e.id, h'.t.rows[e.id])
    ensures e.id !in h'.t.rows ==> Gone(h'.log, e.id)
  {
    match e
    case Requested(id, user, target) => EventExplains(h.log, e, h'.t.rows[id]);
    case Answered(id, user, accepted) => AnswerExplains(h.log, id, h.t.rows[id], accepted);
    case Removed(id, user) => RemovalExplains(h.log, e);
  }

  lemma EffectElsewhere(h: History, h': History, e: Event, id: RowId)
    requires Explained(h) && Effect(h, h', e) && id != e.id
    ensures id in h'.t.rows ==> Explains(h'.log, id, h'.t.rows[id])
    ensures id !in h'.t.rows ==> Silent(h'.log, id, 0) || Gone(h'.log, id)
  {
    assert h'.log == h.log + [e] && (id in h.t.rows <==> id in h'.t.rows);
    UnrelatedEvent(h.log, e, id, if id in h.t.rows then h.t.rows[id] else Row(1, 1, Pending));
    hide Explains, Silent, Gone;
  }

  lemma EffectExplained(h: History, h': History, e: Event)
    requires Explained(h) && Effect(h, h', e)
    ensures Explained(h')
  {
    EffectExplains(h, h', e);
    forall id | id != e.id
      ensures id in h'.t.rows ==> Explains(h'.log, id, h'.t.rows[id])
      ensures id !in h'.t.rows ==> Silent(h'.log, id, 0) || Gone(h'.log, id)
    {
      EffectElsewhere(h, h', e, id);
    }
    hide Explains, Silent, Gone;
  }

  lemma {:induction false} RunExplained(calls: seq<Call>)
    ensures OneRowPerPair(Run(calls).t) && Explained(Run(calls))
  {
    if calls != [] {
      var h, c := Run(calls[..|calls| - 1]), calls[|calls| - 1];
      RunExplained(calls[..|calls| - 1]);
      CallKeepsTable(h, c);
      CallShape(h, c);
      hide Effect, Explained, Do, OneRowPerPair;
      if Do(h, c) != h {
        var e :| Effect(h, Do(h, c), e);
        EffectExplained(h, Do(h, c), e);
      }
    }
  }

  lemma ExplainsOne(log: seq<Event>, id: RowId, row: Row, other: Row)
    requires Explains(log, id, row) && Explains(log, id, other)
    ensures row == other && !Silent(log, id, 0) && !Gone(log, id)
  {
    var i: nat, j := LastTwo(log, id, row);
    var i': nat, j' := LastTwo(log, id, other);
    assert j == j';
    assert i == i';
  }

  /** The positions of a row's last request and of its last event. */
  lemma LastTwo(log: seq<Event>, id: RowId, row: Row) returns (i: nat, j: nat)
    requires Explains(log, id, row)
    ensures i <= j < |log| && log[i] == Requested(id, row.a, row.b) && log[j].id == id
    ensures if row.status == Pending then i == j else i < j && log[j] == Answered(id, row.b, row.status == Accepted)
    ensures forall k | i < k < |log| && k != j :: log[k].id != id
  {
    if row.status == Pending {
      i :| i < |log| && log[i] == Requested(id, row.a, row.b) && Silent(log, id, i + 1);
      j := i;
    } else {
      i, j :| i < j < |log| && log[i] == Requested(id, row.a, row.b)
        && log[j] == Answered(id, row.b, row.status == Accepted)
        && Silent(log[..j], id, i + 1) && Silent(log, id, j + 1);
      forall k | i < k < |log| && k != j ensures log[k].id != id {
        if k < j {
          assert log[..j][k] == log[k];
        }
      }
    }
  }

  /**
    Consent: a row stands in the table exactly if the calls explain it. So a friendship is accepted
    if and only if its recipient accepted after its requester's latest request, and neither the
    row's removal nor a later request came after that.
   */
  lemma Consent(calls: seq<Call>, id: RowId, row: Row)
    ensures id in Run(calls).t.rows && Run(calls).t.rows[id] == row <==> Explains(Run(calls).log, id, row)
  {
    var h := Run(calls);
    RunExplained(calls);
    hide Run, Explains, Silent, Gone;
    if Explains(h.log, id, row) {
      ExplainsOne(h.log, id, row, row);
      assert id in h.t.rows;
      ExplainsOne(h.log, id, row, h.t.rows[id]);
    }
  }

  /** In a run, a row leaves the table by the call of one of its two users, and only so. */
  lemma RunRemoves(calls: seq<Call>, c: Call, id: RowId)
    requires id in Run(calls).t.rows
    ensures id !in Run(calls + [c]).t.rows <==>
              && c.CallRemove? && c.id == id
              && (c.user == Run(calls).t.rows[id].a || c.user == Run(calls).t.rows[id].b)
  {
    assert (calls + [c])[..|calls|] == calls;
    hide Find, Taken;
  }

  // ---------------------------------------------------------------------------
  // The friendship relation
  // ---------------------------------------------------------------------------

  lemma {:induction false} AcceptedMembers(t: Table, user: UserId, k: RowId, friend: UserId)
    ensures friend in AcceptedFriends(t, user, k) <==>
              exists id :: id in t.rows && id < k && AcceptedWith(t.rows[id], user) &&
                Friend(t.rows[id], user) == friend
  {
    if k != 0 {
      AcceptedMembers(t, user, k - 1, friend);
    }
  }

  lemma {:induction false} AcceptedOnce(t: Table, user: UserId, k: RowId)
    requires OneRowPerPair(t)
    ensures NoDuplicates(AcceptedFriends(t, user, k))
  {
    if k != 0 {
      AcceptedOnce(t, user, k - 1);
      if k - 1 in t.rows && AcceptedWith(t.rows[k - 1], user) {
        var friend := Friend(t.rows[k - 1], user);
        AcceptedMembers(t, user, k - 1, friend);
        forall id | id in t.rows && id < k - 1 && AcceptedWith(t.rows[id], user)
          ensures Friend(t.rows[id], user) != friend
        {
          assert !Pairs(t.rows[id], t.rows[k - 1].a, t.rows[k - 1].b);
        }
      }
    }
  }

  /** Accepted friendship is symmetric and irreflexive, and each friend is listed once. */
  lemma Friendship(t: Table, u: UserId, v: UserId)
    requires OneRowPerPair(t)
    ensures u in FriendsOf(t, v) <==> v in FriendsOf(t, u)
    ensures u !in FriendsOf(t, u)
    ensures NoDuplicates(FriendsOf(t, u))
  {
    AcceptedOnce(t, u, t.nextId);
    AcceptedMembers(t, u, t.nextId, u);
    OneSide(t, u, v);
    OneSide(t, v, u);
  }

  lemma OneSide(t: Table, u: UserId, v: UserId)
    requires OneRowPerPair(t)
    ensures u in FriendsOf(t, v) ==> v in FriendsOf(t, u)
  {
    AcceptedMembers(t, v, t.nextId, u);
    AcceptedMembers(t, u, t.nextId, v);
    if u in FriendsOf(t, v) {
      var id :| id in t.rows && id < t.nextId && AcceptedWith(t.rows[id], v) && Friend(t.rows[id], v) == u;
      assert AcceptedWith(t.rows[id], u) && Friend(t.rows[id], u) == v;
    }
  }

  // ---------------------------------------------------------------------------
  // What each call changes
  // ---------------------------------------------------------------------------

  ghost predicate HaveRow(t: Table, x: UserId, y: UserId) {
    exists id :: id in t.rows && Pairs(t.rows[id], x, y)
  }

  /**
    A request, from the rows alone: it turns the declined row of the two users, or adds a pending
    row if they have none, and no other row changes. So a pending or accepted row stays as it is,
    with its recipient, and every user keeps the same friends.
   */
  lemma SendExactly(t: Table, user: UserId, target: UserId)
    requires OneRowPerPair(t) && user != target
    ensures var t' := SendRequest(t, user, target).0;
            && (forall id :: id in t'.rows <==> id in t.rows || (id == t.nextId && !HaveRow(t, user, target)))
            && (forall id | id in t.rows :: t'.rows[id] ==
                  if Pairs(t.rows[id], user, target) && t.rows[id].status == Declined then Row(user, target, Pending)
                  else t.rows[id])
            && (!HaveRow(t, user, target) ==> t'.rows[t.nextId] == Row(user, target, Pending))
  {
    SendBranches(t, user, target);
    var r := Find(t, user, target, 0);
    assert r.Some? ==> Pairs(t.rows[r.value], user, target);
    hide Find, SendRequest;
    forall id | id in t.rows && Pairs(t.rows[id], user, target) ensures r == Some(id) {
      FindOnly(t, user, target, id);
    }
    hide OneRowPerPair, Pairs;
  }

  /** The branch of a request, told by what its SELECT finds. */
  lemma SendBranches(t: Table, user: UserId, target: UserId)
    requires OneRowPerPair(t) && user != target
    ensures SendRequest(t, user, target).0 ==
            match Find(t, user, target, 0)
            case Some(id) =>
              if t.rows[id].status == Declined then t.(rows := t.rows[id := Row(user, target, Pending)]) else t
            case None => Table(t.rows[t.nextId := Row(user, target, Pending)], t.nextId + 1)
  {
    match Find(t, user, target, 0)
    case Some(id) => TurnedKeepsTable(t, id, user, target);
    case None => NoneFound(t, user, target);
    hide Find, Taken, OneRowPerPair;
  }

  lemma NoneFound(t: Table, user: UserId, target: UserId)
    requires OneRowPerPair(t) && user != target && Find(t, user, target, 0).None?
    ensures !Taken(t, t.nextId, user, target)
  {
    hide Find;
  }

  /** The friends of a user depend on the accepted rows alone. */
  lemma {:induction false} SameAccepted(t: Table, t': Table, user: UserId, k: RowId)
    requires forall id | id < k ::
               && (id in t.rows && t.rows[id].status == Accepted <==> id in t'.rows && t'.rows[id].status == Accepted)
               && (id in t.rows && t.rows[id].status == Accepted ==> t'.rows[id] == t.rows[id])
    ensures AcceptedFriends(t, user, k) == AcceptedFriends(t', user, k)
  {
    if k != 0 {
      SameAccepted(t, t', user, k - 1);
    }
  }

  lemma {:induction false} NothingAbove(t: Table, user: UserId, k: RowId, n: RowId)
    requires k <= n && forall id | k <= id < n && id in t.rows :: t.rows[id].status != Accepted
    ensures AcceptedFriends(t, user, n) == AcceptedFriends(t, user, k)
    decreases n
  {
    if k < n {
      NothingAbove(t, user, k, n - 1);
    }
  }

  /** No request changes anybody's friends. */
  lemma SendKeepsFriends(t: Table, user: UserId, target: UserId, x: UserId)
    requires OneRowPerPair(t)
    ensures FriendsOf(SendRequest(t, user, target).0, x) == FriendsOf(t, x)
  {
    if user != target {
      var t' := SendRequest(t, user, target).0;
      SendExactly(t, user, target);
      assert t.nextId <= t'.nextId <= t.nextId + 1;
      hide SendRequest, OneRowPerPair, HaveRow;
      SameAccepted(t, t', x, t.nextId);
      NothingAbove(t', x, t.nextId, t'.nextId);
    }
  }

  ghost predicate Befriended(t: Table, x: UserId, y: UserId) {
    exists id :: id in t.rows && t.rows[id].status == Accepted && Pairs(t.rows[id], x, y)
  }

  /** A user's friends are those with whom it shares an accepted row. */
  lemma FriendsExactly(t: Table, x: UserId, y: UserId)
    requires OneRowPerPair(t)
    ensures y in FriendsOf(t, x) <==> Befriended(t, x, y)
  {
    AcceptedMembers(t, x, t.nextId, y);
    if id :| id in t.rows && t.rows[id].status == Accepted && Pairs(t.rows[id], x, y) {
      assert AcceptedWith(t.rows[id], x) && Friend(t.rows[id], x) == y;
    }
  }

  /** An answer goes through exactly for the recipient of a pending row, and only accepting makes friends. */
  lemma RespondExactly(t: Table, id: RowId, user: UserId, accept: bool)
    requires OneRowPerPair(t)
    ensures var (t', r) := Respond(t, id, user, accept);
            && (r.Ok? <==> id in t.rows && t.rows[id].b == user && t.rows[id].status == Pending)
            && (r.Err? ==> t' == t)
            && OneRowPerPair(t')
            && (forall x, y :: y in FriendsOf(t', x) <==>
                  y in FriendsOf(t, x) || (r.Ok? && accept && Pairs(t.rows[id], x, y)))
  {
    var (t', r) := Respond(t, id, user, accept);
    forall x, y
      ensures y in FriendsOf(t', x) <==> y in FriendsOf(t, x) || (r.Ok? && accept && Pairs(t.rows[id], x, y))
    {
      FriendsExactly(t, x, y);
      FriendsExactly(t', x, y);
      AnsweredFriends(t, id, user, accept, x, y);
    }
    hide FriendsOf;
  }

  lemma AnsweredFriends(t: Table, id: RowId, user: UserId, accept: bool, x: UserId, y: UserId)
    ensures var (t', r) := Respond(t, id, user, accept);
            Befriended(t', x, y) <==> Befriended(t, x, y) || (r.Ok? && accept && Pairs(t.rows[id], x, y))
  {
    var (t', r) := Respond(t, id, user, accept);
    if k :| k in t.rows && t.rows[k].status == Accepted && Pairs(t.rows[k], x, y) {
      assert t'.rows[k] == t.rows[k];
    }
    if r.Ok? && accept && Pairs(t.rows[id], x, y) {
      assert t'.rows[id].status == Accepted;
    }
  }

  /** Removing a row as either of its users ends that friendship and no other; as anybody else, nothing changes. */
  lemma RemoveExactly(t: Table, id: RowId, user: UserId)
    requires OneRowPerPair(t)
    ensures var t' := Remove(t, id, user);
            var mine := id in t.rows && (t.rows[id].a == user || t.rows[id].b == user);
            && (!mine ==> t' == t)
            && (mine ==> !HaveRow(t', t.rows[id].a, t.rows[id].b))
            && OneRowPerPair(t')
            && (forall x, y :: y in FriendsOf(t', x) <==> y in FriendsOf(t, x) && !(mine && Pairs(t.rows[id], x, y)))
  {
    var t' := Remove(t, id, user);
    var mine := id in t.rows && (t.rows[id].a == user || t.rows[id].b == user);
    forall x, y ensures y in FriendsOf(t', x) <==> y in FriendsOf(t, x) && !(mine && Pairs(t.rows[id], x, y)) {
      FriendsExactly(t, x, y);
      FriendsExactly(t', x, y);
      RemovedFriends(t, id, user, x, y);
    }
    hide FriendsOf;
  }

  lemma RemovedFriends(t: Table, id: RowId, user: UserId, x: UserId, y: UserId)
    requires OneRowPerPair(t)
    ensures var t' := Remove(t, id, user);
            var mine := id in t.rows && (t.rows[id].a == user || t.rows[id].b == user);
            Befriended(t', x, y) <==> Befriended(t, x, y) && !(mine && Pairs(t.rows[id], x, y))
  {
    var t' := Remove(t, id, user);
    if k :| k in t.rows && t.rows[k].status == Accepted && Pairs(t.rows[k], x, y) && k in t'.rows {
      assert t'.rows[k] == t.rows[k];
      assert k != id && id in t.rows ==> !Pairs(t.rows[k], t.rows[id].a, t.rows[id].b);
    }
  }

  // ---------------------------------------------------------------------------
  // Requests statement by statement
  // ---------------------------------------------------------------------------

  /** What the SELECT of a request found: the row and its status, or nothing. */
  type Look = Option<(RowId, Status)>

  function LookUp(t: Table, user: UserId, target: UserId): Look {
    match Find(t, user, target, 0)
    case None => None
    case Some(id) => Some((id, t.rows[id].status))
  }

  /** The statement of a request that follows its SELECT, on the table as it is by then. */
  function Write(t: Table, user: UserId, target: UserId, look: Look): Table {
    if user == target then t
    else
      match look
      case Some((id, status)) =>
        if status != Declined || id !in t.rows || Taken(t, id, user, target) then t
        else t.(rows := t.rows[id := Row(user, target, Pending)])
      case None =>
        if Taken(t, t.nextId, user, target) then t
        else Table(t.rows[t.nextId := Row(user, target, Pending)], t.nextId + 1)
  }

  /** The two statements one after the other are the request. */
  lemma LookAndWriteIsSend(t: Table, user: UserId, target: UserId)
    ensures Write(t, user, target, LookUp(t, user, target)) == SendRequest(t, user, target).0
  {
  }

  /** A found row still belongs to the two users, if it still exists. */
  predicate Current(t: Table, user: UserId, target: UserId, look: Look) {
    look.Some? ==> look.value.0 < t.nextId && (look.value.0 in t.rows ==> Pairs(t.rows[look.value.0], user, target))
  }

  /** The insert of a request that saw no row, after the other user's request has come in. */
  predicate Crossed(t: Table, user: UserId, target: UserId, look: Look) {
    look.None? && user != target && exists id :: id in t.rows && t.rows[id].a == target && t.rows[id].b == user
  }

  /** Exactly when the second statement of a request keeps one row per pair, however old its look is. */
  lemma WriteExactly(t: Table, user: UserId, target: UserId, look: Look)
    requires OneRowPerPair(t) && Current(t, user, target, look)
    ensures OneRowPerPair(Write(t, user, target, look)) <==> !Crossed(t, user, target, look)
  {
    var t' := Write(t, user, target, look);
    if Crossed(t, user, target, look) {
      var id :| id in t.rows && t.rows[id].a == target && t.rows[id].b == user;
      CrossedRowIsOnly(t, user, target, id);
      assert t'.rows[t.nextId] == Row(user, target, Pending) && id != t.nextId && t'.rows[id] == t.rows[id];
      assert Pairs(t'.rows[id], user, target);
    } else if t' != t && look.None? {
      NobodyYet(t, user, target);
    }
  }

  lemma CrossedRowIsOnly(t: Table, user: UserId, target: UserId, id: RowId)
    requires OneRowPerPair(t) && id in t.rows && t.rows[id].a == target && t.rows[id].b == user
    ensures !Taken(t, t.nextId, user, target)
  {
    forall k | k in t.rows ensures !(t.rows[k].a == user && t.rows[k].b == target) {
      assert k != id ==> !Pairs(t.rows[k], t.rows[id].a, t.rows[id].b);
    }
  }

  lemma NobodyYet(t: Table, user: UserId, target: UserId)
    requires OneRowPerPair(t) && user != target
    requires !Crossed(t, user, target, None) && !Taken(t, t.nextId, user, target)
    ensures forall k | k in t.rows :: !Pairs(t.rows[k], user, target)
    ensures OneRowPerPair(Write(t, user, target, None))
  {
  }

  /** The write of a request whose look is out of date: it saw the row declined, and it is not any more. */
  predicate Overtaken(t: Table, user: UserId, target: UserId, look: Look) {
    && user != target && look.Some? && look.value.1 == Declined
    && look.value.0 in t.rows && t.rows[look.value.0].status != Declined
  }

  /** What the write of a request does to the rows that stand. */
  lemma WriteRows(t: Table, user: UserId, target: UserId, look: Look)
    requires OneRowPerPair(t) && Current(t, user, target, look)
    ensures var t' := Write(t, user, target, look);
            && t.nextId <= t'.nextId
            && (forall id | id in t'.rows && id !in t.rows :: id == t.nextId && t'.rows[id].status == Pending)
            && (forall id | id in t.rows :: id in t'.rows)
            && (forall id | id in t.rows && t.rows[id].status != Declined ::
                  t'.rows[id] == if Overtaken(t, user, target, look) && look.value.0 == id
                                 then Row(user, target, Pending) else t.rows[id])
            && (forall id | id in t.rows && t.rows[id].status == Declined :: t'.rows[id].status != Accepted)
  {
    if look.Some? && user != target && look.value.0 in t.rows {
      TurnedKeepsTable(t, look.value.0, user, target);
    }
    hide Taken;
  }

  /**
    Exactly when the write of a request leaves everybody's friends alone: unless it saw the row
    declined and the row has been accepted since. With a look that is not out of date, it also
    leaves every pending row to its recipient.
   */
  lemma WriteKeepsFriendsExactly(t: Table, user: UserId, target: UserId, look: Look)
    requires OneRowPerPair(t) && Current(t, user, target, look)
    ensures (forall x :: FriendsOf(Write(t, user, target, look), x) == FriendsOf(t, x)) <==>
              !(Overtaken(t, user, target, look) && t.rows[look.value.0].status == Accepted)
    ensures !Overtaken(t, user, target, look) ==>
              forall id | id in t.rows && t.rows[id].status != Declined ::
                id in Write(t, user, target, look).rows && Write(t, user, target, look).rows[id] == t.rows[id]
  {
    var t' := Write(t, user, target, look);
    WriteRows(t, user, target, look);
    if Overtaken(t, user, target, look) && t.rows[look.value.0].status == Accepted {
      UnfriendedRow(t, user, target, look);
    } else {
      hide Write, OneRowPerPair, Current;
      forall x ensures FriendsOf(t', x) == FriendsOf(t, x) {
        SameAccepted(t, t', x, t.nextId);
        NothingAbove(t', x, t.nextId, t'.nextId);
      }
    }
  }

  lemma UnfriendedRow(t: Table, user: UserId, target: UserId, look: Look)
    requires OneRowPerPair(t) && Current(t, user, target, look)
    requires Overtaken(t, user, target, look) && t.rows[look.value.0].status == Accepted
    ensures target in FriendsOf(t, user) && target !in FriendsOf(Write(t, user, target, look), user)
  {
    var id := look.value.0;
    var t' := Write(t, user, target, look);
    TurnedKeepsTable(t, id, user, target);
    assert t' == t.(rows := t.rows[id := Row(user, target, Pending)]);
    FriendsExactly(t, user, target);
    FriendsExactly(t', user, target);
    hide FriendsOf, Taken;
    forall k | k in t'.rows && Pairs(t'.rows[k], user, target) ensures k == id {
      assert k != id ==> !Pairs(t.rows[k], t.rows[id].a, t.rows[id].b);
    }
  }

  /** A call between its SELECT and its write: a request, or an answer that found its row pending. */
  datatype Waiting =
    | Asking(user: UserId, target: UserId, look: Look)
    | Answering(id: RowId, user: UserId, accept: bool)

  /** `log` holds what was written, in order. */
  datatype Busy = Busy(t: Table, waiting: seq<Waiting>, log: seq<Event>)

  datatype Statement =
    | Look(user: UserId, target: UserId)
    | Check(id: RowId, user: UserId, accept: bool)
    | Finish(call: nat)
    | Delete(id: RowId, user: UserId)

  /** The UPDATE of an answer, which names the row by its id alone. */
  function Settle(t: Table, id: RowId, accept: bool): Table {
    if id !in t.rows then t
    else t.(rows := t.rows[id := t.rows[id].(status := if accept then Accepted else Declined)])
  }

  /** The second statement of a call, and what it logs. */
  function Written(t: Table, log: seq<Event>, c: Waiting): (Table, seq<Event>) {
    match c
    case Asking(user, target, look) =>
      var t' := Write(t, user, target, look);
      var id := if look.Some? then look.value.0 else t.nextId;
      (t', if t' == t then log else log + [Requested(id, user, target)])
    case Answering(id, user, accept) =>
      (Settle(t, id, accept), if id in t.rows then log + [Answered(id, user, accept)] else log)
  }

  /** One statement of any call; a removal has only one. */
  function Execute(w: Busy, s: Statement): Busy {
    match s
    case Look(user, target) => w.(waiting := w.waiting + [Asking(user, target, LookUp(w.t, user, target))])
    case Check(id, user, accept) =>
      if id in w.t.rows && w.t.rows[id].b == user && w.t.rows[id].status == Pending then
        w.(waiting := w.waiting + [Answering(id, user, accept)])
      else w
    case Finish(i) =>
      if i >= |w.waiting| then w
      else
        var (t', log) := Written(w.t, w.log, w.waiting[i]);
        Busy(t', w.waiting[..i] + w.waiting[i + 1..], log)
    case Delete(id, user) =>
      var t' := Remove(w.t, id, user);
      w.(t := t', log := if t' == w.t then w.log else w.log + [Removed(id, user)])
  }

  /** The two statements of an answer one after the other are the answer. */
  lemma CheckAndFinishIsRespond(w: Busy, id: RowId, user: UserId, accept: bool)
    ensures var checked := Execute(w, Check(id, user, accept));
            var (t', r) := Respond(w.t, id, user, accept);
            && (r.Ok? <==> |checked.waiting| == |w.waiting| + 1)
            && (r.Ok? ==> Execute(checked, Finish(|w.waiting|)) ==
                            Busy(t', w.waiting, w.log + [Answered(id, user, accept)]))
            && (r.Err? ==> checked == w && t' == w.t)
  {
    var call := Answering(id, user, accept);
    assert (w.waiting + [call])[..|w.waiting|] == w.waiting && (w.waiting + [call])[|w.waiting| + 1..] == [];
  }

  function ExecuteAll(ss: seq<Statement>): Busy {
    if ss == [] then Busy(Table(map[], 1), [], []) else Execute(ExecuteAll(ss[..|ss| - 1]), ss[|ss| - 1])
  }

  /** A row leaves the table by the DELETE of one of its two users, and by no other statement. */
  lemma ExecuteRemoves(w: Busy, s: Statement, id: RowId)
    requires id in w.t.rows
    ensures id !in Execute(w, s).t.rows <==>
              s.Delete? && s.id == id && (s.user == w.t.rows[id].a || s.user == w.t.rows[id].b)
  {
    hide Find, Taken;
  }

  /** The statement is an insert that another one has crossed. */
  predicate Crosses(w: Busy, s: Statement) {
    && s.Finish? && s.call < |w.waiting| && w.waiting[s.call].Asking?
    && Crossed(w.t, w.waiting[s.call].user, w.waiting[s.call].target, w.waiting[s.call].look)
  }

  predicate CallCurrent(t: Table, c: Waiting) {
    c.Asking? ==> Current(t, c.user, c.target, c.look)
  }

  ghost predicate Orderly(w: Busy) {
    OneRowPerPair(w.t) && forall i | 0 <= i < |w.waiting| :: CallCurrent(w.t, w.waiting[i])
  }

  /** A row never moves to another pair of users, and its id is never used again. */
  lemma StillCurrent(t: Table, t': Table, user: UserId, target: UserId, look: Look)
    requires Current(t, user, target, look) && t.nextId <= t'.nextId
    requires forall id, x, y | id in t'.rows && id < t.nextId ::
               id in t.rows && (Pairs(t.rows[id], x, y) ==> Pairs(t'.rows[id], x, y))
    ensures Current(t', user, target, look)
  {
  }

  lemma ExecuteMoves(w: Busy, s: Statement)
    requires Orderly(w)
    ensures var t' := Execute(w, s).t;
            && w.t.nextId <= t'.nextId
            && (forall id, x, y | id in t'.rows && id < w.t.nextId ::
                  id in w.t.rows && (Pairs(w.t.rows[id], x, y) ==> Pairs(t'.rows[id], x, y)))
  {
    hide Find;
    if s.Finish? && s.call < |w.waiting| {
      assert CallCurrent(w.t, w.waiting[s.call]);
    }
  }

  lemma TableExactly(w: Busy, s: Statement)
    requires Orderly(w)
    ensures OneRowPerPair(Execute(w, s).t) <==> !Crosses(w, s)
  {
    hide Write, Find, Taken, Crossed;
    if s.Finish? && s.call < |w.waiting| {
      var c := w.waiting[s.call];
      assert CallCurrent(w.t, c);
      if c.Asking? {
        WriteExactly(w.t, c.user, c.target, c.look);
      }
    }
  }

  /** Every call that waits waited before, or has just looked. */
  lemma WaitingAfter(w: Busy, s: Statement)
    requires Orderly(w)
    ensures var w' := Execute(w, s);
            forall i | 0 <= i < |w'.waiting| :: w'.waiting[i] in w.waiting || CallCurrent(w'.t, w'.waiting[i])
  {
    hide Write, Taken;
  }

  /** Exactly when a statement keeps the table and the waiting requests in order. */
  lemma ExecuteExactly(w: Busy, s: Statement)
    requires Orderly(w)
    ensures Orderly(Execute(w, s)) <==> !Crosses(w, s)
  {
    TableExactly(w, s);
    ExecuteMoves(w, s);
    var w' := Execute(w, s);
    forall i | 0 <= i < |w.waiting| ensures CallCurrent(w'.t, w.waiting[i]) {
      assert CallCurrent(w.t, w.waiting[i]);
      if w.waiting[i].Asking? {
        StillCurrent(w.t, w'.t, w.waiting[i].user, w.waiting[i].target, w.waiting[i].look);
      }
    }
    WaitingAfter(w, s);
    hide CallCurrent, OneRowPerPair, Crosses, Execute;
  }

  /**
    For any number of requests and answers whose statements interleave with each other and with
    removals: as long as no insert is crossed, there is one row per pair.
   */
  lemma {:induction false} InterleavedRequests(ss: seq<Statement>)
    requires forall k | 0 <= k < |ss| :: !Crosses(ExecuteAll(ss[..k]), ss[k])
    ensures Orderly(ExecuteAll(ss))
  {
    if ss != [] {
      var front := ss[..|ss| - 1];
      forall k | 0 <= k < |front| ensures !Crosses(ExecuteAll(front[..k]), front[k]) {
        assert front[..k] == ss[..k] && front[k] == ss[k];
      }
      InterleavedRequests(front);
      ExecuteExactly(ExecuteAll(front), ss[|ss| - 1]);
      hide Orderly, Crosses, Execute;
    }
  }

  // ---------------------------------------------------------------------------
  // Consent, statement by statement
  // ---------------------------------------------------------------------------

  /** The last thing written about the row. */
  ghost predicate LastIs(log: seq<Event>, id: RowId, e: Event) {
    exists k: nat :: k < |log| && log[k] == e && Silent(log, id, k + 1)
  }

  /** Every accepted row was last written by an answer of its recipient, who accepted. */
  ghost predicate Consented(w: Busy) {
    forall id | id in w.t.rows && w.t.rows[id].status == Accepted ::
      LastIs(w.log, id, Answered(id, w.t.rows[id].b, true))
  }

  /** An acceptance is written to a row whose recipient is somebody else by now. */
  predicate Overrides(w: Busy, s: Statement) {
    && s.Finish? && s.call < |w.waiting| && w.waiting[s.call].Answering? && w.waiting[s.call].accept
    && w.waiting[s.call].id in w.t.rows && w.t.rows[w.waiting[s.call].id].b != w.waiting[s.call].user
  }

  lemma LastAppend(log: seq<Event>, e: Event, id: RowId, last: Event)
    requires last.id == id
    ensures e.id != id ==> (LastIs(log + [e], id, last) <==> LastIs(log, id, last))
    ensures e.id == id ==> (LastIs(log + [e], id, last) <==> e == last)
  {
    var log' := log + [e];
    assert log'[|log|] == e;
    if k: nat :| k < |log| && log[k] == last && Silent(log, id, k + 1) {
      assert log'[k] == last;
      assert e.id != id ==> Silent(log', id, k + 1);
    }
    if k: nat :| k < |log'| && log'[k] == last && Silent(log', id, k + 1) {
      if k < |log| && e.id != id {
        assert log[k] == last;
        forall j | k + 1 <= j < |log| ensures log[j].id != id {
          assert log'[j] == log[j];
        }
      }
    }
    assert e == last ==> log'[|log|] == last && Silent(log', id, |log| + 1);
  }

  /** What a statement does to one row, and what it logs about it. */
  lemma RowAfter(w: Busy, s: Statement, id: RowId)
    ensures var w' := Execute(w, s);
            && (w'.log == w.log || (|w'.log| == |w.log| + 1 && w'.log[..|w.log|] == w.log))
            && (id in w'.t.rows && w'.t.rows[id].status == Accepted ==>
                  || (id in w.t.rows && w.t.rows[id] == w'.t.rows[id]
                      && (w'.log == w.log || w'.log[|w.log|].id != id))
                  || (s.Finish? && s.call < |w.waiting| && id in w.t.rows && w'.t.rows[id].b == w.t.rows[id].b
                      && w.waiting[s.call] == Answering(id, w.waiting[s.call].user, true)
                      && w'.log == w.log + [Answered(id, w.waiting[s.call].user, true)]))
  {
    hide LookUp, Taken;
  }

  /** Exactly when a statement keeps consent: it does not override the recipient of a row. */
  lemma ConsentExactly(w: Busy, s: Statement)
    requires Consented(w)
    ensures Consented(Execute(w, s)) <==> !Overrides(w, s)
  {
    var w' := Execute(w, s);
    if Overrides(w, s) {
      var id := w.waiting[s.call].id;
      assert id in w'.t.rows && w'.t.rows[id].status == Accepted;
      assert w'.log == w.log + [Answered(id, w.waiting[s.call].user, true)];
      LastAppend(w.log, Answered(id, w.waiting[s.call].user, true), id, Answered(id, w'.t.rows[id].b, true));
    } else {
      hide Execute;
      forall id | id in w'.t.rows && w'.t.rows[id].status == Accepted
        ensures LastIs(w'.log, id, Answered(id, w'.t.rows[id].b, true))
      {
        RowAfter(w, s, id);
        if w'.log != w.log {
          var e := w'.log[|w.log|];
          assert w'.log == w.log + [e];
          LastAppend(w.log, e, id, Answered(id, w'.t.rows[id].b, true));
        }
      }
    }
    hide LastIs, Execute, Overrides;
  }

  predicate NeverOverrides(ss: seq<Statement>) {
    ss == [] ||
    (NeverOverrides(ss[..|ss| - 1]) && !Overrides(ExecuteAll(ss[..|ss| - 1]), ss[|ss| - 1]))
  }

  /** For whole runs: friendship rests on consent all along, exactly if no acceptance overrides a recipient. */
  lemma {:induction false} ConsentedRuns(ss: seq<Statement>)
    ensures NeverOverrides(ss) <==> forall k: nat | k <= |ss| :: Consented(ExecuteAll(ss[..k]))
  {
    hide Execute, Consented, Overrides;
    if ss == [] {
      EmptyConsented();
      assert ss[..0] == [];
    } else {
      var n := |ss| - 1;
      var front := ss[..n];
      ConsentedRuns(front);
      assert ss[..|ss|] == ss && front[..n] == front;
      assert forall k: nat | k <= n :: front[..k] == ss[..k];
      if Consented(ExecuteAll(front)) {
        ConsentExactly(ExecuteAll(front), ss[n]);
      }
    }
  }

  lemma EmptyConsented()
    ensures Consented(ExecuteAll([]))
  {
  }

  /**
    Such a run: two tabs of a recipient accept and decline a request at the same time, and the
    recipient then asks back. The acceptance is written last, to the request the other way round.
   */
  lemma AcceptedWithoutConsent(t: Table, id: RowId, log: seq<Event>)
    requires OneRowPerPair(t) && id in t.rows && t.rows[id].status == Pending
    ensures var a, b := t.rows[id].a, t.rows[id].b;
            var checked := Execute(Execute(Busy(t, [], log), Check(id, b, true)), Check(id, b, false));
            var asking := Execute(Execute(checked, Finish(1)), Look(b, a));
            var done := Execute(Execute(asking, Finish(1)), Finish(0));
            && done.t == t.(rows := t.rows[id := Row(b, a, Accepted)])
            && Overrides(Execute(asking, Finish(1)), Finish(0))
  {
    var a, b := t.rows[id].a, t.rows[id].b;
    var t1 := t.(rows := t.rows[id := Row(a, b, Declined)]);
    var log1 := log + [Answered(id, b, false)];
    CheckedTwice(t, id, log);
    AskedBack(t1, id, b, a, Answering(id, b, true), log1);
    assert t1.rows[id := Row(b, a, Pending)] == t.rows[id := Row(b, a, Pending)];
    hide LookUp, OneRowPerPair, Write;
  }

  /**
    Another such run: a user whose request was declined asks again while the other one asks back,
    and accepts that. The first request, written last, turns the accepted row into a pending one,
    so that the two are no friends.
   */
  lemma OvertakenRequest(t: Table, id: RowId, log: seq<Event>)
    requires OneRowPerPair(t) && id in t.rows && t.rows[id].status == Declined
    ensures var u, v := t.rows[id].a, t.rows[id].b;
            var asked := Execute(Execute(Execute(Busy(t, [], log), Look(u, v)), Look(v, u)), Finish(1));
            var accepted := Execute(Execute(asked, Check(id, u, true)), Finish(1));
            var done := Execute(accepted, Finish(0));
            && v in FriendsOf(accepted.t, u) && v !in FriendsOf(done.t, u)
            && done.t == t.(rows := t.rows[id := Row(u, v, Pending)])
  {
    var u, v := t.rows[id].a, t.rows[id].b;
    var ask := Asking(u, v, Some((id, Declined)));
    FindOnly(t, u, v, id);
    assert Execute(Busy(t, [], log), Look(u, v)) == Busy(t, [ask], log);
    AskedBack(t, id, v, u, ask, log);
    var t1 := t.(rows := t.rows[id := Row(v, u, Pending)]);
    AnsweredOne(t1, id, ask, log + [Requested(id, v, u)]);
    var t2 := t.(rows := t.rows[id := Row(v, u, Accepted)]);
    assert t1.rows[id := Row(v, u, Accepted)] == t2.rows;
    assert t2.rows[id := Row(u, v, Pending)] == t.rows[id := Row(u, v, Pending)];
    TurnedKeepsTable(t, id, v, u);
    TurnedKeepsTable(t2, id, u, v);
    UnfriendedRow(t2, u, v, Some((id, Declined)));
    hide LookUp, Taken, Find, FriendsOf, OneRowPerPair;
  }

  lemma AnsweredOne(t: Table, id: RowId, waiting: Waiting, log: seq<Event>)
    requires id in t.rows && t.rows[id].status == Pending
    ensures var user := t.rows[id].b;
            Execute(Execute(Busy(t, [waiting], log), Check(id, user, true)), Finish(1)) ==
            Busy(t.(rows := t.rows[id := t.rows[id].(status := Accepted)]), [waiting],
                 log + [Answered(id, user, true)])
  {
    CheckAndFinishIsRespond(Busy(t, [waiting], log), id, t.rows[id].b, true);
  }

  /** Two tabs check the request; the declining one writes first. */
  lemma CheckedTwice(t: Table, id: RowId, log: seq<Event>)
    requires OneRowPerPair(t) && id in t.rows && t.rows[id].status == Pending
    ensures var a, b := t.rows[id].a, t.rows[id].b;
            var checked := Execute(Execute(Busy(t, [], log), Check(id, b, true)), Check(id, b, false));
            var t1 := t.(rows := t.rows[id := Row(a, b, Declined)]);
            && Execute(checked, Finish(1)) == Busy(t1, [Answering(id, b, true)], log + [Answered(id, b, false)])
            && OneRowPerPair(t1)
  {
    var b := t.rows[id].b;
    var yes, no := Answering(id, b, true), Answering(id, b, false);
    var checked := Execute(Execute(Busy(t, [], log), Check(id, b, true)), Check(id, b, false));
    assert checked == Busy(t, [yes, no], log);
    assert [yes, no][..1] == [yes] && [yes, no][2..] == [];
  }

  /** The recipient of a declined request asks back while another call waits. */
  lemma AskedBack(t: Table, id: RowId, user: UserId, target: UserId, waiting: Waiting, log: seq<Event>)
    requires OneRowPerPair(t) && id in t.rows && t.rows[id] == Row(target, user, Declined)
    ensures var asking := Execute(Busy(t, [waiting], log), Look(user, target));
            var t' := t.(rows := t.rows[id := Row(user, target, Pending)]);
            Execute(asking, Finish(1)) == Busy(t', [waiting], log + [Requested(id, user, target)])
  {
    FindOnly(t, user, target, id);
    TurnedKeepsTable(t, id, user, target);
    var ask := Asking(user, target, Some((id, Declined)));
    hide Find, Taken, OneRowPerPair;
    assert Execute(Busy(t, [waiting], log), Look(user, target)) == Busy(t, [waiting, ask], log);
    assert [waiting, ask][..1] == [waiting] && [waiting, ask][2..] == [];
  }

  // ---------------------------------------------------------------------------
  // Two requests
  // ---------------------------------------------------------------------------

  /**
    Two requests that both look before either writes break the table exactly if two users ask each
    other and have no row yet; each other pair of requests is harmless in this order, too.
   */
  lemma CrossedRequestsExactly(t: Table, u: UserId, v: UserId, x: UserId, y: UserId)
    requires OneRowPerPair(t)
    ensures var t1 := Write(t, u, v, LookUp(t, u, v));
            var t2 := Write(t1, x, y, LookUp(t, x, y));
            OneRowPerPair(t2) <==> !(u != v && x == v && y == u && Find(t, u, v, 0).None?)
  {
    var t1 := Write(t, u, v, LookUp(t, u, v));
    LookAndWriteIsSend(t, u, v);
    SendKeepsTable(t, u, v);
    SecondLookCurrent(t, u, v, x, y);
    WriteExactly(t1, x, y, LookUp(t, x, y));
    CrossedAfter(t, u, v, x, y);
    hide *;
  }

  lemma SecondLookCurrent(t: Table, u: UserId, v: UserId, x: UserId, y: UserId)
    requires OneRowPerPair(t)
    ensures Current(SendRequest(t, u, v).0, x, y, LookUp(t, x, y))
  {
    hide Taken;
  }

  lemma CrossedAfter(t: Table, u: UserId, v: UserId, x: UserId, y: UserId)
    requires OneRowPerPair(t)
    ensures Crossed(SendRequest(t, u, v).0, x, y, LookUp(t, x, y)) <==>
              u != v && x == v && y == u && Find(t, u, v, 0).None?
  {
    var t1 := SendRequest(t, u, v).0;
    SendKeepsTable(t, u, v);
    if LookUp(t, x, y).None? && x != y {
      assert forall k | k in t.rows :: !Pairs(t.rows[k], x, y);
      if u != v && x == v && y == u {
        assert Find(t, u, v, 0).None?;
        assert t.nextId in t1.rows && t1.rows[t.nextId] == Row(u, v, Pending);
      }
    } else if u != v && x == v && y == u {
      SameFind(t, u, v);
    }
  }

  lemma SameFind(t: Table, u: UserId, v: UserId)
    requires OneRowPerPair(t)
    ensures Find(t, u, v, 0) == Find(t, v, u, 0)
  {
    var r, q := Find(t, u, v, 0), Find(t, v, u, 0);
    if r.Some? {
      FindOnly(t, v, u, r.value);
    } else if q.Some? {
      FindOnly(t, u, v, q.value);
    }
  }

  /**
    Only whole requests keep one row per pair: if two users ask each other and both look before
    either inserts, neither insert breaks UNIQUE and the pair has two rows.
   */
  lemma CrossedRequestsMakeTwoRows(t: Table, u: UserId, v: UserId)
    requires OneRowPerPair(t) && u != v && Find(t, u, v, 0).None?
    ensures var t1 := SendRequest(t, u, v).0;
            && Find(t, v, u, 0).None? && !Taken(t1, t1.nextId, v, u)
            && !OneRowPerPair(Table(t1.rows[t1.nextId := Row(v, u, Pending)], t1.nextId + 1))
  {
    var t1 := SendRequest(t, u, v).0;
    SendKeepsTable(t, u, v);
    forall k | k in t.rows ensures !Pairs(t.rows[k], u, v) {
    }
    var r := Find(t, v, u, 0);
    assert r.Some? ==> Pairs(t.rows[r.value], u, v);
    var t2 := Table(t1.rows[t1.nextId := Row(v, u, Pending)], t1.nextId + 1);
    assert t.nextId in t2.rows && t1.nextId in t2.rows && Pairs(t2.rows[t.nextId], v, u);
  }
}
