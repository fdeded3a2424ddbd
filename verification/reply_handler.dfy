/**
 * Webhook mode: the admin answers an alert on Telegram with a reply, and the
 * reply is written back into the ticket the alert announced. The message is
 * what `json_decode` of the webhook body gives under `message`.
 */
module ReplyHandler {

  import opened Wrappers
  import opened Text
  import opened CorrelationMap
  import opened TicketStore

  /** The fields of an inbound Telegram message the handler reads; each may
      be missing from the payload. */
  datatype InboundMessage = InboundMessage(
    chatId: Option<int>,    // message.chat.id
    text: Option<string>,   // message.text
    replyTo: Option<int>)   // message.reply_to_message.message_id

  /** The best-effort "Reply sent to Ticket #..." message back to the admin. */
  datatype Confirmation = Confirmation(chatId: int, ticketId: int, text: string)

  datatype ReplyOutcome = ReplyOutcome(effects: seq<Effect>, confirmation: Option<Confirmation>, response: string)

  /** The body of every webhook response. */
  const Ack: string := "OK"

  /** `$msg['chat']['id'] ?? 0` */
  function ChatIdOf(msg: InboundMessage): int {
    msg.chatId.GetOr(0)
  }

  /** `trim($msg['text'] ?? '')` */
  function ReplyText(msg: InboundMessage): string {
    Trim(msg.text.GetOr(""))
  }

  /** The guard of the handler: from the admin, a reply to a message with a
      non-zero id, with text left after trimming, to a message the map knows. */
  predicate Accepts(adminId: int, m: CorrMap, msg: InboundMessage) {
    && ChatIdOf(msg) == adminId
    && msg.replyTo.Some? && msg.replyTo.value != 0
    && ReplyText(msg) != ""
    && Isset(m, MsgId(msg.replyTo.value))
  }

  /** The three writes for a reply to `ticketId`, in the order they are issued. */
  function ReplyEffects(ticketId: int, text: string): seq<Effect> {
    [InsertAdminReply(ticketId, text), MarkAnswered(ticketId), MarkCustomerMessagesRead(ticketId)]
  }

  /** Handles one inbound message. A rejected message causes no write and no
      confirmation; an accepted one resolves its ticket through the map and
      issues the three writes against that ticket with the trimmed text.
      Either way the webhook is answered with `OK`. */
  function HandleReply(adminId: int, m: CorrMap, msg: InboundMessage): (r: ReplyOutcome)
    ensures r.response == Ack
    ensures r.effects == [] <==>
              || msg.chatId.GetOr(0) != adminId
              || msg.replyTo.None? || msg.replyTo.value == 0
              || AllTrimmable(msg.text.GetOr(""))
              || MsgId(msg.replyTo.value) !in m || m[MsgId(msg.replyTo.value)] == Null
    ensures r.effects == [] <==> r.confirmation.None?
    ensures r.effects != [] ==>
              var tid := ToInt(m[MsgId(msg.replyTo.value)]);
              && |r.effects| == 3
              && r.effects[0] == InsertAdminReply(tid, Trim(msg.text.value))
              && r.effects[1] == MarkAnswered(tid)
              && r.effects[2] == MarkCustomerMessagesRead(tid)
              && r.confirmation == Some(Confirmation(adminId, tid, Trim(msg.text.value)))
  {
    if !Accepts(adminId, m, msg) then
      ReplyOutcome([], None, Ack)
    else
      var ticketId := ToInt(m[MsgId(msg.replyTo.value)]);
      var text := ReplyText(msg);
      ReplyOutcome(ReplyEffects(ticketId, text), Some(Confirmation(adminId, ticketId, text)), Ack)
  }

  /** What the three writes do to the database: the tickets with that id
      become answered and read by the admin, that ticket's customer messages
      become read, one admin message with the text is appended with a fresh
      id, and nothing else changes. */
  lemma ReplyEffectsOnDb(db: Db, ticketId: int, text: string)
    ensures var db' := ApplyEffects(db, ReplyEffects(ticketId, text));
      && db'.users == db.users
      && |db'.tickets| == |db.tickets|
      && (forall i | 0 <= i < |db.tickets| ::
            db'.tickets[i] == if db.tickets[i].id == ticketId
                              then db.tickets[i].(status := Answered, adminRead := true)
                              else db.tickets[i])
      && |db'.messages| == |db.messages| + 1
      && (forall i | 0 <= i < |db.messages| ::
            db'.messages[i] == if IsCustomerMessageOf(db.messages[i], ticketId)
                               then db.messages[i].(isRead := true)
                               else db.messages[i])
      && var added := db'.messages[|db.messages|];
         && added.ticketId == ticketId && added.author == AdminAuthor && added.support
         && added.isRead && added.message == text && added.uid == 0
         && (forall j | 0 <= j < |db.messages| :: db.messages[j].id < added.id)
  {
    var es := ReplyEffects(ticketId, text);
    var db1 := ApplyEffect(db, es[0]);
    var db2 := ApplyEffect(db1, es[1]);
    var db3 := ApplyEffect(db2, es[2]);
    calc {
      ApplyEffects(db, es);
      ApplyEffects(db1, es[1..]);
      ApplyEffects(db2, es[1..][1..]);
      { assert es[1..][1..][1..] == []; }
      ApplyEffects(db3, es[1..][1..][1..]);
      db3;
    }
  }

  /** Once a reply has been written, the ticket is no longer picked up by the
      scan, since it is no longer pending or awaiting a customer reply. */
  lemma AnsweredTicketLeavesScan(db: Db, ticketId: int, text: string)
    ensures forall r | r in SelectRows(ApplyEffects(db, ReplyEffects(ticketId, text))) :: r.ticketId != ticketId
  {
    var db' := ApplyEffects(db, ReplyEffects(ticketId, text));
    ReplyEffectsOnDb(db, ticketId, text);
    forall r | r in SelectRows(db') ensures r.ticketId != ticketId {
      var t :| t in db'.tickets && Selected(t, db'.users) && r == RowOf(t, db'.users[t.uid], db'.messages);
      var i :| 0 <= i < |db'.tickets| && db'.tickets[i] == t;
    }
  }
}
