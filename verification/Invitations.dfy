/**
  Match invitations (rust/src/domain/friends.rs:428-512, rust/src/db.rs:273-282). There is one row for
  an inviter, an invitee and a room; sending again replaces it under a new id.
 */
module Invitations {
  import opened Wrappers

  type UserId = nat
  type RoomId = nat
  type RowId = nat
  type Time = int

  datatype Status = Pending | Accepted | Declined
  datatype Row = Row(inviter: UserId, invitee: UserId, room: RoomId, status: Status, expires: Time)
  datatype Table = Table(rows: map<RowId, Row>, nextId: RowId)
  datatype InviteError = SelfTarget | NotFound | AlreadySettled

  const INVITATION_MINUTES := 30

  predicate Same(row: Row, inviter: UserId, invitee: UserId, room: RoomId) {
    row.inviter == inviter && row.invitee == invitee && row.room == room
  }

  /** `INSERT OR REPLACE`: rows with the same unique columns give way to the new one. */
  function Replaced(t: Table, row: Row): Table {
    Table((map k | k in t.rows && !Same(t.rows[k], row.inviter, row.invitee, row.room) :: t.rows[k])[t.nextId := row],
          t.nextId + 1)
  }

  /** The first pending row of the triple, in id order from `k`, or 0. */
  function FindPending(t: Table, inviter: UserId, invitee: UserId, room: RoomId, k: RowId): (r: RowId)
    requires k >= 1
    ensures r != 0 ==> r in t.rows && Same(t.rows[r], inviter, invitee, room) && t.rows[r].status == Pending
    ensures r == 0 ==> forall id | k <= id < t.nextId && id in t.rows ::
                         !(Same(t.rows[id], inviter, invitee, room) && t.rows[id].status == Pending)
    decreases t.nextId - k
  {
    if k >= t.nextId then 0
    else if k in t.rows && Same(t.rows[k], inviter, invitee, room) && t.rows[k].status == Pending then k
    else FindPending(t, inviter, invitee, room, k + 1)
  }

  function Send(t: Table, inviter: UserId, invitee: UserId, room: RoomId, now: Time)
    : (Table, Result<RowId, InviteError>)
  {
    if inviter == invitee then (t, Err(SelfTarget))
    else
      var t' := Replaced(t, Row(inviter, invitee, room, Pending, now + INVITATION_MINUTES));
      (t', Ok(FindPending(t', inviter, invitee, room, 1)))
  }

  function Respond(t: Table, id: RowId, invitee: UserId, accept: bool): (Table, Result<Status, InviteError>) {
    if id !in t.rows || t.rows[id].invitee != invitee then (t, Err(NotFound))
    else
      var target := if accept then Accepted else Declined;
      if t.rows[id].status == target then (t, Ok(target))
      else if t.rows[id].status != Pending then (t, Err(AlreadySettled))
      else (t.(rows := t.rows[id := t.rows[id].(status := target)]), Ok(target))
  }

  function Cancel(t: Table, id: RowId, inviter: UserId): Table {
    if id in t.rows && t.rows[id].inviter == inviter then t.(rows := t.rows - {id}) else t
  }

  class InvitationStore {
    var rows: map<RowId, Row>
    var nextId: RowId

    function View(): Table
      reads this
    {
      Table(rows, nextId)
    }

    constructor ()
      ensures View() == Table(map[], 1)
    {
      rows, nextId := map[], 1;
    }

    method SendInvitation(inviter: UserId, invitee: UserId, room: RoomId, now: Time)
      returns (r: Result<RowId, InviteError>)
      modifies this
      ensures (View(), r) == Send(old(View()), inviter, invitee, room, now)
    {
      if inviter == invitee {
        return Err(SelfTarget);
      }
      rows := map k | k in rows && !Same(rows[k], inviter, invitee, room) :: rows[k];
      rows := rows[nextId := Row(inviter, invitee, room, Pending, now + INVITATION_MINUTES)];
      nextId := nextId + 1;
      var k := 1;
      while k < nextId
        invariant 1 <= k
        invariant View() == Replaced(old(View()), Row(inviter, invitee, room, Pending, now + INVITATION_MINUTES))
        invariant FindPending(View(), inviter, invitee, room, 1) == FindPending(View(), inviter, invitee, room, k)
      {
        if k in rows && Same(rows[k], inviter, invitee, room) && rows[k].status == Pending {
          return Ok(k);
        }
        k := k + 1;
      }
      return Ok(0);
    }

    method RespondInvitation(id: RowId, invitee: UserId, accept: bool) returns (r: Result<Status, InviteError>)
      modifies this
      ensures (View(), r) == Respond(old(View()), id, invitee, accept)
    {
      if id !in rows || rows[id].invitee != invitee {
        return Err(NotFound);
      }
      var target := if accept then Accepted else Declined;
      if rows[id].status == target {
        return Ok(target);
      }
      if rows[id].status != Pending {
        return Err(AlreadySettled);
      }
      rows := rows[id := rows[id].(status := target)];
      return Ok(target);
    }

    method CancelInvitation(id: RowId, inviter: UserId)
      modifies this
      ensures View() == Cancel(old(View()), id, inviter)
    {
      if id in rows && rows[id].inviter == inviter {
        rows := rows - {id};
      }
    }
  }

  // ---------------------------------------------------------------------------
  // Whole histories
  // ---------------------------------------------------------------------------

  datatype Call =
    | CallSend(inviter: UserId, invitee: UserId, room: RoomId, now: Time)
    | CallRespond(id: RowId, invitee: UserId, accept: bool)
    | CallCancel(id: RowId, inviter: UserId)

  /** An answer that the service gave to an invitee. */
  datatype Answer = Answer(id: RowId, invitee: UserId, status: Status)

  datatype History = History(t: Table, answers: seq<Answer>)

  function Do(h: History, c: Call): History {
    match c
    case CallSend(inviter, invitee, room, now) => h.(t := Send(h.t, inviter, invitee, room, now).0)
    case CallRespond(id, invitee, accept) =>
      var (t', r) := Respond(h.t, id, invitee, accept);
      History(t', if r.Ok? then h.answers + [Answer(id, invitee, r.value)] else h.answers)
    case CallCancel(id, inviter) => h.(t := Cancel(h.t, id, inviter))
  }

  function Run(calls: seq<Call>): History {
    if calls == [] then History(Table(map[], 1), [])
    else Do(Run(calls[..|calls| - 1]), calls[|calls| - 1])
  }

  ghost predicate OneRowPerTriple(t: Table) {
    && t.nextId >= 1
    && (forall k | k in t.rows :: 1 <= k < t.nextId && t.rows[k].inviter != t.rows[k].invitee)
    && (forall j, k | j in t.rows && k in t.rows && j != k ::
          !Same(t.rows[j], t.rows[k].inviter, t.rows[k].invitee, t.rows[k].room))
  }

  /** A row that was answered still says so, and its id is never given to another row. */
  ghost predicate Settled(h: History) {
    && OneRowPerTriple(h.t)
    && (forall i | 0 <= i < |h.answers| ::
          && h.answers[i].id < h.t.nextId && h.answers[i].status != Pending
          && (h.answers[i].id in h.t.rows ==>
                h.t.rows[h.answers[i].id].status == h.answers[i].status
                && h.t.rows[h.answers[i].id].invitee == h.answers[i].invitee))
    && (forall i, j | 0 <= i < j < |h.answers| && h.answers[i].id == h.answers[j].id ::
          h.answers[i].status == h.answers[j].status && h.answers[i].invitee == h.answers[j].invitee)
  }

  lemma SendSettled(h: History, inviter: UserId, invitee: UserId, room: RoomId, now: Time)
    requires Settled(h)
    ensures Settled(Do(h, CallSend(inviter, invitee, room, now)))
  {
    hide FindPending;
  }

  lemma RespondSettled(h: History, id: RowId, invitee: UserId, accept: bool)
    requires Settled(h)
    ensures Settled(Do(h, CallRespond(id, invitee, accept)))
  {
    var (t', r) := Respond(h.t, id, invitee, accept);
    if t' != h.t {
      assert r == Ok(t'.rows[id].status) && h.t.rows[id].status == Pending;
    }
  }

  lemma CallSettled(h: History, c: Call)
    requires Settled(h)
    ensures Settled(Do(h, c))
  {
    hide FindPending;
    match c
    case CallSend(inviter, invitee, room, now) => SendSettled(h, inviter, invitee, room, now);
    case CallRespond(id, invitee, accept) => RespondSettled(h, id, invitee, accept);
    case CallCancel(id, inviter) =>
  }

  lemma {:induction false} RunSettled(calls: seq<Call>)
    ensures Settled(Run(calls))
  {
    if calls != [] {
      RunSettled(calls[..|calls| - 1]);
      CallSettled(Run(calls[..|calls| - 1]), calls[|calls| - 1]);
      hide Settled, Do;
    }
  }

  /**
    Over every run, all answers that an invitation ever got agree: nobody can accept it at one
    time and decline it at another, and only one user answers it.
   */
  lemma AnswersAgree(calls: seq<Call>, i: nat, j: nat)
    requires i < |Run(calls).answers| && j < |Run(calls).answers|
    requires Run(calls).answers[i].id == Run(calls).answers[j].id
    ensures Run(calls).answers[i].status == Run(calls).answers[j].status
    ensures Run(calls).answers[i].invitee == Run(calls).answers[j].invitee
  {
    RunSettled(calls);
    hide Run;
    if j < i {
      assert Run(calls).answers[j].id == Run(calls).answers[i].id;
    }
  }

  /**
    Sending again replaces the invitation: the id it returns is new, it belongs to the only row of
    the two users and the room, which is pending, and every earlier id of theirs is gone.
   */
  lemma SendReplaces(calls: seq<Call>, inviter: UserId, invitee: UserId, room: RoomId, now: Time)
    requires inviter != invitee
    ensures var t := Run(calls).t;
            var (t', r) := Send(t, inviter, invitee, room, now);
            && r == Ok(t.nextId) && t.nextId !in t.rows && t'.nextId == t.nextId + 1
            && (forall k | k in t'.rows && Same(t'.rows[k], inviter, invitee, room) :: k == t.nextId)
            && t.nextId in t'.rows
            && t'.rows[t.nextId] == Row(inviter, invitee, room, Pending, now + 30)
            && (forall k | k in t.rows && !Same(t.rows[k], inviter, invitee, room) ::
                  k in t'.rows && t'.rows[k] == t.rows[k])
  {
    RunSettled(calls);
    hide Run;
    var t := Run(calls).t;
    var t' := Replaced(t, Row(inviter, invitee, room, Pending, now + INVITATION_MINUTES));
    var r := FindPending(t', inviter, invitee, room, 1);
    hide FindPending;
    assert t.nextId in t'.rows && Same(t'.rows[t.nextId], inviter, invitee, room);
    assert r != 0;
  }

  // ---------------------------------------------------------------------------
  // Which invitations stand
  // ---------------------------------------------------------------------------

  datatype Event =
    | Sent(id: RowId, inviter: UserId, invitee: UserId, room: RoomId)
    | Cancelled(id: RowId, user: UserId)

  /** The invitations sent, and the calls to cancel one, by whomever. */
  function Log(calls: seq<Call>): seq<Event> {
    if calls == [] then []
    else
      var h := Run(calls[..|calls| - 1]);
      Log(calls[..|calls| - 1]) +
      match calls[|calls| - 1]
      case CallSend(inviter, invitee, room, now) =>
        var r := Send(h.t, inviter, invitee, room, now).1;
        if r.Ok? then [Sent(r.value, inviter, invitee, room)] else []
      case CallRespond(_, _, _) => []
      case CallCancel(id, user) => [Cancelled(id, user)]
  }

  /** The inviter cancels the invitation, or sends a new one of the same three columns. */
  predicate Ends(e: Event, sent: Event)
    requires sent.Sent?
  {
    match e
    case Sent(_, inviter, invitee, room) => inviter == sent.inviter && invitee == sent.invitee && room == sent.room
    case Cancelled(id, user) => id == sent.id && user == sent.inviter
  }

  ghost predicate StandsSince(log: seq<Event>, i: nat, sent: Event) {
    sent.Sent? && i < |log| && log[i] == sent && forall j | i < j < |log| :: !Ends(log[j], sent)
  }

  ghost predicate Stands(log: seq<Event>, sent: Event) {
    exists i: nat :: StandsSince(log, i, sent)
  }

  lemma StandsAppend(log: seq<Event>, e: Event, sent: Event)
    requires sent.Sent?
    ensures Stands(log + [e], sent) <==> e == sent || (Stands(log, sent) && !Ends(e, sent))
  {
    var log' := log + [e];
    if e == sent {
      assert StandsSince(log', |log|, sent);
    }
    if i: nat :| StandsSince(log, i, sent) && !Ends(e, sent) {
      assert StandsSince(log', i, sent);
    }
    if i: nat :| StandsSince(log', i, sent) && e != sent {
      assert !Ends(log'[|log|], sent);
      assert forall j | 0 <= j < |log| :: log'[j] == log[j];
      assert StandsSince(log, i, sent);
    }
  }

  predicate Stored(t: Table, sent: Event)
    requires sent.Sent?
  {
    sent.id in t.rows && Same(t.rows[sent.id], sent.inviter, sent.invitee, sent.room)
  }

  /** The rows are the invitations that stand, and a row that is settled has been answered. */
  ghost predicate Registered(h: History, log: seq<Event>) {
    && (forall sent: Event | sent.Sent? :: Stored(h.t, sent) <==> Stands(log, sent))
    && (forall id | id in h.t.rows && h.t.rows[id].status != Pending ::
          exists k :: 0 <= k < |h.answers| && h.answers[k].id == id)
  }

  lemma SendRegistered(h: History, log: seq<Event>, inviter: UserId, invitee: UserId, room: RoomId, now: Time)
    requires Settled(h) && Registered(h, log) && inviter != invitee
    requires Send(h.t, inviter, invitee, room, now).1 == Ok(h.t.nextId)
    ensures Registered(Do(h, CallSend(inviter, invitee, room, now)), log + [Sent(h.t.nextId, inviter, invitee, room)])
  {
    var e := Sent(h.t.nextId, inviter, invitee, room);
    var h' := Do(h, CallSend(inviter, invitee, room, now));
    hide FindPending;
    assert h.t.nextId !in h.t.rows;
    forall sent: Event | sent.Sent? ensures Stored(h'.t, sent) <==> Stands(log + [e], sent) {
      StandsAppend(log, e, sent);
      assert Stored(h'.t, sent) <==> sent == e || (Stored(h.t, sent) && !Ends(e, sent));
    }
    hide Stands;
  }

  lemma CancelRegistered(h: History, log: seq<Event>, id: RowId, user: UserId)
    requires Registered(h, log)
    ensures Registered(Do(h, CallCancel(id, user)), log + [Cancelled(id, user)])
  {
    var e := Cancelled(id, user);
    forall sent: Event | sent.Sent?
      ensures Stored(Do(h, CallCancel(id, user)).t, sent) <==> Stands(log + [e], sent)
    {
      StandsAppend(log, e, sent);
      assert Stored(Do(h, CallCancel(id, user)).t, sent) <==> Stored(h.t, sent) && !Ends(e, sent);
    }
    hide Stands;
  }

  lemma RespondRegistered(h: History, log: seq<Event>, id: RowId, invitee: UserId, accept: bool)
    requires Settled(h) && Registered(h, log)
    ensures Registered(Do(h, CallRespond(id, invitee, accept)), log)
  {
    var h' := Do(h, CallRespond(id, invitee, accept));
    forall sent: Event | sent.Sent? ensures Stored(h'.t, sent) <==> Stands(log, sent) {
      assert Stored(h'.t, sent) <==> Stored(h.t, sent);
    }
    hide Stands;
    forall k | k in h'.t.rows && h'.t.rows[k].status != Pending
      ensures exists i :: 0 <= i < |h'.answers| && h'.answers[i].id == k
    {
      if k in h.t.rows && h.t.rows[k].status != Pending {
        var i :| 0 <= i < |h.answers| && h.answers[i].id == k;
        assert h'.answers[i].id == k;
      } else {
        assert h'.answers[|h.answers|].id == k;
      }
    }
  }

  lemma {:induction false} RunRegistered(calls: seq<Call>)
    ensures Settled(Run(calls)) && Registered(Run(calls), Log(calls))
  {
    RunSettled(calls);
    if calls != [] {
      var front := calls[..|calls| - 1];
      var h, log := Run(front), Log(front);
      RunRegistered(front);
      hide Registered, Settled;
      match calls[|calls| - 1]
      case CallSend(inviter, invitee, room, now) =>
        if inviter != invitee {
          SendReplaces(front, inviter, invitee, room, now);
          SendRegistered(h, log, inviter, invitee, room, now);
        }
      case CallRespond(id, invitee, accept) =>
        RespondRegistered(h, log, id, invitee, accept);
        assert log + [] == log;
      case CallCancel(id, user) => CancelRegistered(h, log, id, user);
      hide Do;
    }
  }

  /**
    After any run an invitation is in the table exactly if it was sent and since then neither its
    inviter has cancelled it nor another one has taken its place.
   */
  lemma StandsExactly(calls: seq<Call>, id: RowId, inviter: UserId, invitee: UserId, room: RoomId)
    ensures var t := Run(calls).t;
            id in t.rows && Same(t.rows[id], inviter, invitee, room) <==>
              Stands(Log(calls), Sent(id, inviter, invitee, room))
  {
    RunRegistered(calls);
    assert Stored(Run(calls).t, Sent(id, inviter, invitee, room)) <==>
           Stands(Log(calls), Sent(id, inviter, invitee, room));
    hide Registered, Run, Log, Stands;
  }

  /**
    An answer goes through exactly if such an invitation to the caller stands and every answer that
    was given to it says the same; its row then says so, and otherwise nothing changes.
   */
  lemma RespondExactly(calls: seq<Call>, id: RowId, user: UserId, accept: bool)
    ensures var h := Run(calls);
            var (t', r) := Respond(h.t, id, user, accept);
            var status := if accept then Accepted else Declined;
            var invited := exists inviter, room :: Stands(Log(calls), Sent(id, inviter, user, room));
            && (r == Err(NotFound) <==> !invited)
            && (r.Ok? <==> invited && forall k | 0 <= k < |h.answers| && h.answers[k].id == id ::
                                        h.answers[k].status == status)
            && (r.Err? ==> t' == h.t)
            && (r.Ok? ==>
                  && r.value == status && id in t'.rows && t'.rows[id].status == status
                  && t'.rows.Keys == h.t.rows.Keys
                  && forall k | k in h.t.rows && k != id :: t'.rows[k] == h.t.rows[k])
  {
    var h := Run(calls);
    RunRegistered(calls);
    hide Run, Log, Stands;
    if id in h.t.rows {
      var row := h.t.rows[id];
      assert Stored(h.t, Sent(id, row.inviter, row.invitee, row.room));
    }
    forall inviter, room
      ensures Stands(Log(calls), Sent(id, inviter, user, room)) ==> id in h.t.rows && h.t.rows[id].invitee == user
    {
      assert Stored(h.t, Sent(id, inviter, user, room)) <==> Stands(Log(calls), Sent(id, inviter, user, room));
    }
  }

  // ---------------------------------------------------------------------------
  // Answers statement by statement
  // ---------------------------------------------------------------------------

  /** `waiting` holds the answers whose SELECT found the invitation pending and whose UPDATE is still to come. */
  datatype Busy = Busy(h: History, waiting: seq<Answer>)

  datatype Statement =
    | Whole(call: Call)
    | Read(id: RowId, invitee: UserId, accept: bool)
    | Write(answer: nat)

  function Execute(w: Busy, s: Statement): Busy {
    match s
    case Whole(c) => w.(h := Do(w.h, c))
    case Read(id, invitee, accept) =>
      var target := if accept then Accepted else Declined;
      if id !in w.h.t.rows || w.h.t.rows[id].invitee != invitee then w
      else if w.h.t.rows[id].status == target then
        w.(h := w.h.(answers := w.h.answers + [Answer(id, invitee, target)]))
      else if w.h.t.rows[id].status != Pending then w
      else w.(waiting := w.waiting + [Answer(id, invitee, target)])
    case Write(i) =>
      if i >= |w.waiting| then w
      else
        var a := w.waiting[i];
        Busy(History(Updated(w.h.t, a), w.h.answers + [a]), w.waiting[..i] + w.waiting[i + 1..])
  }

  /** The UPDATE of an answer, which names the row by its id alone and succeeds also without one. */
  function Updated(t: Table, a: Answer): Table {
    if a.id in t.rows then t.(rows := t.rows[a.id := t.rows[a.id].(status := a.status)]) else t
  }

  /** The two statements one after the other are the answer. */
  lemma ReadAndWriteIsRespond(w: Busy, id: RowId, invitee: UserId, accept: bool)
    ensures var read := Execute(w, Read(id, invitee, accept));
            var done := if |read.waiting| > |w.waiting| then Execute(read, Write(|w.waiting|)) else read;
            done == Busy(Do(w.h, CallRespond(id, invitee, accept)), w.waiting)
  {
    var a := Answer(id, invitee, if accept then Accepted else Declined);
    assert (w.waiting + [a])[..|w.waiting|] == w.waiting && (w.waiting + [a])[|w.waiting| + 1..] == [];
  }

  function ExecuteAll(ss: seq<Statement>): Busy {
    if ss == [] then Busy(Run([]), []) else Execute(ExecuteAll(ss[..|ss| - 1]), ss[|ss| - 1])
  }

  /** An answer is about to be given although the invitation got another one. */
  predicate Contradicts(w: Busy, s: Statement) {
    && s.Write? && s.answer < |w.waiting|
    && exists i :: 0 <= i < |w.h.answers| && w.h.answers[i].id == w.waiting[s.answer].id
                   && w.h.answers[i].status != w.waiting[s.answer].status
  }

  /** An answer, given or about to be, comes from the one invitee of its id. */
  predicate Addressed(h: History, a: Answer) {
    && a.id < h.t.nextId && a.status != Pending
    && (a.id in h.t.rows ==> h.t.rows[a.id].invitee == a.invitee)
    && (forall i | 0 <= i < |h.answers| && h.answers[i].id == a.id :: h.answers[i].invitee == a.invitee)
  }

  ghost predicate AllAddressed(w: Busy) {
    && (forall k | 0 <= k < |w.waiting| :: Addressed(w.h, w.waiting[k]))
    && (forall j, k | 0 <= j < |w.waiting| && 0 <= k < |w.waiting| && w.waiting[j].id == w.waiting[k].id ::
          w.waiting[j].invitee == w.waiting[k].invitee)
  }

  lemma WriteExactly(h: History, a: Answer)
    requires Settled(h) && Addressed(h, a)
    ensures Settled(History(Updated(h.t, a), h.answers + [a])) <==>
              forall i | 0 <= i < |h.answers| && h.answers[i].id == a.id :: h.answers[i].status == a.status
  {
    var h' := History(Updated(h.t, a), h.answers + [a]);
    assert forall i | 0 <= i < |h.answers| :: h'.answers[i] == h.answers[i];
    assert h'.answers[|h.answers|] == a;
    assert forall k | k in h'.t.rows :: k in h.t.rows && h'.t.rows[k].(status := h.t.rows[k].status) == h.t.rows[k];
    if i :| 0 <= i < |h.answers| && h.answers[i].id == a.id && h.answers[i].status != a.status {
      assert h'.answers[i].status != h'.answers[|h.answers|].status;
    }
  }

  lemma ReadSettled(w: Busy, id: RowId, invitee: UserId, accept: bool)
    requires Settled(w.h)
    ensures Settled(Execute(w, Read(id, invitee, accept)).h)
  {
    if Execute(w, Read(id, invitee, accept)).h != w.h {
      assert Do(w.h, CallRespond(id, invitee, accept)) == Execute(w, Read(id, invitee, accept)).h;
      RespondSettled(w.h, id, invitee, accept);
    }
    hide Settled;
  }

  /** Ids are never reused, and neither rows nor answers change their invitee. */
  lemma StillAddressed(h: History, h': History, a: Answer)
    requires Addressed(h, a) && h.t.nextId <= h'.t.nextId
    requires forall k | k in h'.t.rows && k < h.t.nextId :: k in h.t.rows && h'.t.rows[k].invitee == h.t.rows[k].invitee
    requires forall b | b in h'.answers && b !in h.answers && b.id == a.id :: b.invitee == a.invitee
    ensures Addressed(h', a)
  {
    forall i | 0 <= i < |h'.answers| && h'.answers[i].id == a.id ensures h'.answers[i].invitee == a.invitee {
      assert h'.answers[i] in h'.answers;
    }
  }

  lemma ExecuteMoves(w: Busy, s: Statement)
    requires Settled(w.h)
    ensures var h' := Execute(w, s).h;
            && w.h.t.nextId <= h'.t.nextId
            && (forall k | k in h'.t.rows && k < w.h.t.nextId ::
                  k in w.h.t.rows && h'.t.rows[k].invitee == w.h.t.rows[k].invitee)
            && (forall b | b in h'.answers && b !in w.h.answers ::
                  (b.id in w.h.t.rows && w.h.t.rows[b.id].invitee == b.invitee) || b in w.waiting)
  {
    hide FindPending;
  }

  lemma WaitingAfter(w: Busy, s: Statement)
    requires Settled(w.h)
    ensures var w' := Execute(w, s);
            forall k | 0 <= k < |w'.waiting| && w'.waiting[k] !in w.waiting ::
              var a := w'.waiting[k];
              a.id in w.h.t.rows && w.h.t.rows[a.id].invitee == a.invitee && Addressed(w.h, a) && w'.h == w.h
  {
    hide FindPending;
  }

  lemma ExecuteAddressed(w: Busy, s: Statement)
    requires Settled(w.h) && AllAddressed(w)
    ensures AllAddressed(Execute(w, s))
  {
    var w' := Execute(w, s);
    ExecuteMoves(w, s);
    WaitingAfter(w, s);
    hide Execute, Settled;
    forall a | a in w.waiting ensures Addressed(w.h, a) {
      var k :| 0 <= k < |w.waiting| && w.waiting[k] == a;
    }
    forall k | 0 <= k < |w'.waiting| ensures Addressed(w'.h, w'.waiting[k]) {
      var a := w'.waiting[k];
      forall b | b in w'.h.answers && b !in w.h.answers && b.id == a.id ensures b.invitee == a.invitee {
      }
      StillAddressed(w.h, w'.h, a);
    }
  }

  /** Exactly when a statement leaves all answers in agreement with each other and with the rows. */
  lemma AnswersExactly(w: Busy, s: Statement)
    requires Settled(w.h) && AllAddressed(w)
    ensures Settled(Execute(w, s).h) <==> !Contradicts(w, s)
    ensures AllAddressed(Execute(w, s))
  {
    ExecuteAddressed(w, s);
    match s {
      case Whole(c) => CallSettled(w.h, c);
      case Read(id, invitee, accept) => ReadSettled(w, id, invitee, accept);
      case Write(i) =>
        if i < |w.waiting| {
          WriteExactly(w.h, w.waiting[i]);
        }
    }
    hide Settled, Do, Updated, AllAddressed;
  }

  predicate NeverContradicts(ss: seq<Statement>) {
    ss == [] ||
    (NeverContradicts(ss[..|ss| - 1]) && !Contradicts(ExecuteAll(ss[..|ss| - 1]), ss[|ss| - 1]))
  }

  /** For whole runs: all answers agree all along, exactly if none is written that contradicts an earlier one. */
  lemma {:induction false} AgreementExactly(ss: seq<Statement>)
    ensures NeverContradicts(ss) <==> forall k: nat | k <= |ss| :: Settled(ExecuteAll(ss[..k]).h)
    ensures NeverContradicts(ss) ==> AllAddressed(ExecuteAll(ss))
  {
    hide Execute, Settled, AllAddressed, Contradicts;
    if ss == [] {
      NothingAnswered();
      assert ss[..0] == [];
    } else {
      var n := |ss| - 1;
      var front := ss[..n];
      AgreementExactly(front);
      assert ss[..|ss|] == ss && front[..n] == front;
      assert forall k: nat | k <= n :: front[..k] == ss[..k];
      if NeverContradicts(front) {
        AnswersExactly(ExecuteAll(front), ss[n]);
      }
    }
  }

  lemma NothingAnswered()
    ensures Settled(ExecuteAll([]).h) && AllAddressed(ExecuteAll([]))
  {
  }

  /** Such a run: two tabs of an invitee accept and decline at the same time, and both are told that they did. */
  lemma TwoTabsDisagree(h: History, id: RowId)
    requires Settled(h) && id in h.t.rows && h.t.rows[id].status == Pending
    ensures var u := h.t.rows[id].invitee;
            var read := Execute(Execute(Busy(h, []), Read(id, u, true)), Read(id, u, false));
            var done := Execute(Execute(read, Write(0)), Write(0));
            && done.h.answers == h.answers + [Answer(id, u, Accepted), Answer(id, u, Declined)]
            && done.h.t.rows[id].status == Declined && Contradicts(Execute(read, Write(0)), Write(0))
  {
    var u := h.t.rows[id].invitee;
    var yes, no := Answer(id, u, Accepted), Answer(id, u, Declined);
    var read := Execute(Execute(Busy(h, []), Read(id, u, true)), Read(id, u, false));
    assert read.waiting == [yes, no] && read.h == h;
    var first := Execute(read, Write(0));
    assert first.waiting == [no] && first.h.answers == h.answers + [yes];
    assert first.h.answers[|h.answers|] == yes;
  }
}
