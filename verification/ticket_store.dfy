/**
 * The slice of the SmartPanel database the bot touches: the `tickets`,
 * `ticket_messages` and `general_users` tables, the selection query of the
 * scan, and the three writes of the reply handler. Tables are in-memory
 * values; SQL execution, connection failures and timestamps are not part of
 * this model.
 */
module TicketStore {

  import opened Wrappers

  /** Any other value of `tickets.status` (`closed`, ...): a spelling
      distinct from the three the script names. */
  type OtherStatusName = s: string | s != "pending" && s != "customer-reply" && s != "answered" witness "closed"

  datatype Status = Pending | CustomerReply | Answered | OtherStatus(name: OtherStatusName)

  datatype Ticket = Ticket(
    id: int,
    uid: int,
    subject: string,
    description: string,
    status: Status,
    adminRead: bool)

  /** A row of `ticket_messages`; `support` is true for messages written by
      the support side (column `support = 1`), false for customer messages. */
  datatype TicketMessage = TicketMessage(
    id: int,
    ticketId: int,
    uid: int,
    author: string,
    support: bool,
    message: string,
    isRead: bool)

  datatype User = User(email: string, firstName: string, lastName: string)

  /** `general_users` is keyed by its primary key `id`. */
  datatype Db = Db(tickets: seq<Ticket>, messages: seq<TicketMessage>, users: map<int, User>)

  /** One row of the scan query's result. */
  datatype Row = Row(
    ticketId: int,
    subject: string,
    description: string,
    status: Status,
    email: string,
    fullname: string,
    latestMessage: Option<string>,
    latestMsgId: Option<int>)

  /** `t.status IN ('pending', 'customer-reply')` */
  predicate NeedsAttention(s: Status) {
    s == Pending || s == CustomerReply
  }

  /** `tm.ticket_id = t.id AND tm.support = 0` */
  predicate IsCustomerMessageOf(m: TicketMessage, ticketId: int) {
    m.ticketId == ticketId && !m.support
  }

  /** The customer message of the ticket with the largest id, as both
      sub-queries `ORDER BY tm.id DESC LIMIT 1` pick it; none when the
      ticket has no customer message. */
  function LatestCustomerMessage(msgs: seq<TicketMessage>, ticketId: int): (r: Option<TicketMessage>)
    ensures r.None? <==> forall j | 0 <= j < |msgs| :: !IsCustomerMessageOf(msgs[j], ticketId)
    ensures r.Some? ==> r.value in msgs && IsCustomerMessageOf(r.value, ticketId)
    ensures r.Some? ==> forall j | 0 <= j < |msgs| && IsCustomerMessageOf(msgs[j], ticketId) :: msgs[j].id <= r.value.id
    decreases |msgs|
  {
    if msgs == [] then None
    else
      var last := msgs[|msgs| - 1];
      var before := LatestCustomerMessage(msgs[..|msgs| - 1], ticketId);
      if !IsCustomerMessageOf(last, ticketId) then before
      else if before.Some? && before.value.id > last.id then before
      else Some(last)
  }

  /** `CONCAT(gu.first_name, ' ', gu.last_name)` */
  function FullName(u: User): string {
    u.firstName + " " + u.lastName
  }

  /** The result row for ticket `t` owned by user `u`. */
  function RowOf(t: Ticket, u: User, msgs: seq<TicketMessage>): Row {
    var latest := LatestCustomerMessage(msgs, t.id);
    Row(t.id, t.subject, t.description, t.status, u.email, FullName(u),
        if latest.Some? then Some(latest.value.message) else None,
        if latest.Some? then Some(latest.value.id) else None)
  }

  /** The scan's `WHERE` and `INNER JOIN`: the ticket needs attention and its
      owner exists in `general_users`. */
  predicate Selected(t: Ticket, users: map<int, User>) {
    NeedsAttention(t.status) && t.uid in users
  }

  function SelectFrom(ts: seq<Ticket>, msgs: seq<TicketMessage>, users: map<int, User>): (rows: seq<Row>)
    ensures |rows| <= |ts|
    ensures forall r | r in rows :: exists t | t in ts :: Selected(t, users) && r == RowOf(t, users[t.uid], msgs)
    ensures forall t | t in ts && Selected(t, users) :: RowOf(t, users[t.uid], msgs) in rows
    decreases |ts|
  {
    if ts == [] then []
    else
      var rest := SelectFrom(ts[1..], msgs, users);
      assert forall t | t in ts[1..] :: t in ts;
      if Selected(ts[0], users) then [RowOf(ts[0], users[ts[0].uid], msgs)] + rest else rest
  }

  /** The scan query: one row per ticket that needs attention and has an
      owner, carrying that ticket's latest customer message, in table order. */
  function SelectRows(db: Db): (rows: seq<Row>)
    ensures |rows| <= |db.tickets|
    ensures forall r | r in rows :: exists t | t in db.tickets :: Selected(t, db.users) && r == RowOf(t, db.users[t.uid], db.messages)
    ensures forall t | t in db.tickets && Selected(t, db.users) :: RowOf(t, db.users[t.uid], db.messages) in rows
  {
    SelectFrom(db.tickets, db.messages, db.users)
  }

  /** `tickets.id` is the table's primary key. */
  predicate UniqueTicketIds(ts: seq<Ticket>) {
    forall i, j | 0 <= i < j < |ts| :: ts[i].id != ts[j].id
  }

  /** No two rows are about the same ticket. */
  predicate OneRowPerTicket(rows: seq<Row>) {
    forall i, j | 0 <= i < j < |rows| :: rows[i].ticketId != rows[j].ticketId
  }

  /** Over a table keyed by id, the query yields at most one row per ticket. */
  lemma {:induction false} SelectFromDistinct(ts: seq<Ticket>, msgs: seq<TicketMessage>, users: map<int, User>)
    requires UniqueTicketIds(ts)
    ensures OneRowPerTicket(SelectFrom(ts, msgs, users))
    ensures forall r | r in SelectFrom(ts, msgs, users) :: exists k | 0 <= k < |ts| :: ts[k].id == r.ticketId
    decreases |ts|
  {
    if ts != [] {
      var rest := SelectFrom(ts[1..], msgs, users);
      SelectFromDistinct(ts[1..], msgs, users);
      assert OneRowPerTicket(rest);
      forall r | r in rest ensures r.ticketId != ts[0].id && exists k | 0 <= k < |ts| :: ts[k].id == r.ticketId {
        var k :| 0 <= k < |ts[1..]| && ts[1..][k].id == r.ticketId;
        assert ts[k + 1].id == r.ticketId;
      }
      if Selected(ts[0], users) {
        var row := RowOf(ts[0], users[ts[0].uid], msgs);
        assert SelectFrom(ts, msgs, users) == [row] + rest;
        PrependOneRowPerTicket(row, rest);
      } else {
        assert SelectFrom(ts, msgs, users) == rest;
      }
    }
  }

  lemma PrependOneRowPerTicket(row: Row, rest: seq<Row>)
    requires OneRowPerTicket(rest)
    requires forall r | r in rest :: r.ticketId != row.ticketId
    ensures OneRowPerTicket([row] + rest)
  {
    var rows := [row] + rest;
    forall i, j | 0 <= i < j < |rows| ensures rows[i].ticketId != rows[j].ticketId {
      assert rows[j] == rest[j - 1] && rest[j - 1] in rest;
      if i > 0 {
        assert rows[i] == rest[i - 1];
      }
    }
  }

  /** The scan lists each ticket at most once, so no ticket is alerted twice
      in one run. */
  lemma SelectRowsDistinct(db: Db)
    requires UniqueTicketIds(db.tickets)
    ensures forall i, j | 0 <= i < j < |SelectRows(db)| :: SelectRows(db)[i].ticketId != SelectRows(db)[j].ticketId
  {
    assert SelectRows(db) == SelectFrom(db.tickets, db.messages, db.users);
    SelectFromDistinct(db.tickets, db.messages, db.users);
  }

  /** A selected row's status is one of the two that need attention, and
      its latest message fields come from the ticket's newest customer
      message, or are both absent when it has none. */
  lemma SelectedRowShape(db: Db, r: Row)
    requires r in SelectRows(db)
    ensures NeedsAttention(r.status)
    ensures r.latestMsgId.Some? <==> r.latestMessage.Some?
    ensures r.latestMsgId.None? ==> forall j | 0 <= j < |db.messages| :: !IsCustomerMessageOf(db.messages[j], r.ticketId)
    ensures r.latestMsgId.Some? ==> exists m | m in db.messages ::
              IsCustomerMessageOf(m, r.ticketId) && m.id == r.latestMsgId.value && m.message == r.latestMessage.value
              && forall j | 0 <= j < |db.messages| && IsCustomerMessageOf(db.messages[j], r.ticketId) :: db.messages[j].id <= m.id
  {
    var t :| t in db.tickets && Selected(t, db.users) && r == RowOf(t, db.users[t.uid], db.messages);
    var latest := LatestCustomerMessage(db.messages, t.id);
    if latest.Some? {
      assert latest.value in db.messages;
    }
  }

  /** The writes the reply handler issues. */
  datatype Effect =
    | InsertAdminReply(ticketId: int, text: string)   // INSERT INTO ticket_messages ... 'Admin', 1, ?, 1
    | MarkAnswered(ticketId: int)                     // UPDATE tickets SET status = 'answered', admin_read = 1
    | MarkCustomerMessagesRead(ticketId: int)         // UPDATE ticket_messages SET is_read = 1 WHERE support = 0

  const AdminAuthor: string := "Admin"

  /** An auto-increment id for a new message: larger than every id in the table. */
  function NextMessageId(msgs: seq<TicketMessage>): (n: int)
    ensures n > 0
    ensures forall j | 0 <= j < |msgs| :: msgs[j].id < n
    decreases |msgs|
  {
    if msgs == [] then 1
    else
      var n := NextMessageId(msgs[..|msgs| - 1]);
      if msgs[|msgs| - 1].id < n then n else msgs[|msgs| - 1].id + 1
  }

  function ApplyEffect(db: Db, e: Effect): Db {
    match e
    case InsertAdminReply(tid, text) =>
      db.(messages := db.messages + [TicketMessage(NextMessageId(db.messages), tid, 0, AdminAuthor, true, text, true)])
    case MarkAnswered(tid) =>
      db.(tickets := seq(|db.tickets|, i requires 0 <= i < |db.tickets| =>
            if db.tickets[i].id == tid then db.tickets[i].(status := Answered, adminRead := true) else db.tickets[i]))
    case MarkCustomerMessagesRead(tid) =>
      db.(messages := seq(|db.messages|, i requires 0 <= i < |db.messages| =>
            if IsCustomerMessageOf(db.messages[i], tid) then db.messages[i].(isRead := true) else db.messages[i]))
  }

  /** Runs the writes in order. */
  function ApplyEffects(db: Db, es: seq<Effect>): Db
    decreases |es|
  {
    if es == [] then db else ApplyEffects(ApplyEffect(db, es[0]), es[1..])
  }
}
