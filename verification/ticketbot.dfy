/**
 * One invocation of the script. It loads the correlation map, then either
 * handles a Telegram webhook update (when the request body decodes to an
 * object with a `message`) or runs the cron scan and saves the map it built.
 * The lemmas here relate consecutive invocations through the saved file.
 */
module TicketBot {

  import opened Wrappers
  import opened Text
  import opened CorrelationMap
  import opened TicketStore
  import opened ReplyHandler
  import opened Notifier

  /** The decoded request body; `message` is missing or `null` on a cron run. */
  datatype Update = Update(message: Option<InboundMessage>)

  /** What an invocation did: answered a webhook (the map file is left as it
      was), or ran a scan and wrote `file`. */
  datatype Outcome =
    | Replied(reply: ReplyOutcome)
    | Scanned(pass: Pass, file: MapFile)

  /** `isset($update['message'])`; `input` is `None` when the body is empty
      or not a JSON object. */
  predicate IsWebhook(input: Option<Update>) {
    input.Some? && input.value.message.Some?
  }

  /** The cron scan: one pass over the selected rows from the map in `file`,
      and the file it writes. The written file loads back as the map the
      pass built, the pass sends at most one alert per selected row, and it
      records no marker the loaded map already had. */
  ghost function Scan(file: MapFile, db: Db, outcomes: seq<Option<int>>): (o: Outcome)
    ensures o.Scanned?
    ensures Load(o.file) == o.pass.saved
    ensures o.pass.attempts == NonSkipped(Load(file), SelectRows(db))
    ensures o.pass.sent <= |SelectRows(db)|
    ensures forall k | k in o.pass.saved && k.Alerted? :: !Isset(Load(file), k)
  {
    var pass := Notify(Load(file), SelectRows(db), outcomes);
    AttemptsInOrder(Load(file), map[], SelectRows(db), outcomes);
    LoadSave(pass.saved);
    Scanned(pass, Save(pass.saved))
  }

  /** The invocation: webhook mode exactly when the update carries a message,
      answered `OK` and leaving the map file alone; otherwise the scan. */
  ghost function Run(adminId: int, file: MapFile, input: Option<Update>, db: Db, outcomes: seq<Option<int>>): (o: Outcome)
    ensures o.Replied? <==> input.Some? && input.value.message.Some?
    ensures o.Replied? ==> o.reply.response == Ack
    ensures o.Scanned? ==> Load(o.file) == o.pass.saved
  {
    if IsWebhook(input) then
      Replied(HandleReply(adminId, Load(file), input.value.message.value))
    else
      Scan(file, db, outcomes)
  }

  /** After a cron run, the next run skips a row exactly when a row with the
      same dedup key was delivered by this run; everything this run skipped
      is alerted again. */
  lemma NextRunSkipsOnlyDelivered(file: MapFile, db: Db, outcomes: seq<Option<int>>, row: Row)
    ensures Skipped(Load(Scan(file, db, outcomes).file), row) <==>
              exists i :: Delivered(Load(file), SelectRows(db), outcomes, i) && DedupKey(SelectRows(db)[i]) == DedupKey(row)
  {
    SavedMarksDelivered(Load(file), SelectRows(db), outcomes, row);
  }

  /** A cron run that finds every selected row already marked sends nothing
      and writes a file that loads as the empty map, so the run after it
      alerts every row that still needs attention. */
  lemma QuietRunForgets(file: MapFile, db: Db, outcomes: seq<Option<int>>)
    requires forall i | 0 <= i < |SelectRows(db)| :: Skipped(Load(file), SelectRows(db)[i])
    ensures Scan(file, db, outcomes).pass.sent == 0
    ensures Load(Scan(file, db, outcomes).file) == map[]
    ensures forall r | r in SelectRows(db) :: !Skipped(Load(Scan(file, db, outcomes).file), r)
  {
    AllSkippedSavesEmpty(Load(file), SelectRows(db), outcomes);
  }

  /** The admin's Telegram reply to a delivered alert, with non-blank text. */
  function ReplyTo(adminId: int, g: int, text: string): InboundMessage {
    InboundMessage(Some(adminId), Some(text), Some(g))
  }

  /** A reply to the alert sent for selected row `i` in a cron run, handled
      by the next invocation, is written into that row's ticket, provided
      the alert's message id is non-zero and no later alert of the run got
      the same id. */
  lemma ReplyResolvesAfterRun(adminId: int, file: MapFile, db: Db, outcomes: seq<Option<int>>, i: int, g: int, text: string)
    requires Delivered(Load(file), SelectRows(db), outcomes, i) && OutcomeAt(outcomes, i) == Some(g) && g != 0
    requires forall j | i < j < |SelectRows(db)| && Delivered(Load(file), SelectRows(db), outcomes, j) :: OutcomeAt(outcomes, j) != Some(g)
    requires Trim(text) != ""
    ensures var next := Run(adminId, Scan(file, db, outcomes).file, Some(Update(Some(ReplyTo(adminId, g, text)))), db, []);
      && next.Replied?
      && next.reply.effects == ReplyEffects(SelectRows(db)[i].ticketId, Trim(text))
  {
    ReplyResolvesFrom(adminId, file, Scan(file, db, outcomes).file, db, outcomes, i, g, text);
  }

  /** The same for any file that loads as the map the scan built. */
  lemma ReplyResolvesFrom(adminId: int, file: MapFile, next: MapFile, db: Db, outcomes: seq<Option<int>>, i: int, g: int, text: string)
    requires Delivered(Load(file), SelectRows(db), outcomes, i) && OutcomeAt(outcomes, i) == Some(g) && g != 0
    requires forall j | i < j < |SelectRows(db)| && Delivered(Load(file), SelectRows(db), outcomes, j) :: OutcomeAt(outcomes, j) != Some(g)
    requires Trim(text) != ""
    requires Load(next) == Notify(Load(file), SelectRows(db), outcomes).saved
    ensures var o := Run(adminId, next, Some(Update(Some(ReplyTo(adminId, g, text)))), db, []);
      && o.Replied?
      && o.reply.effects == ReplyEffects(SelectRows(db)[i].ticketId, Trim(text))
  {
    var rows := SelectRows(db);
    MsgIdResolves(Load(file), map[], rows, outcomes, i, g);
    assert !AllTrimmable(text);
    ReplyToTicket(adminId, Load(next), g, rows[i].ticketId, text);
  }

  /** A non-blank reply to a message the map resolves to a ticket writes
      into that ticket. */
  lemma ReplyToTicket(adminId: int, m: CorrMap, g: int, ticketId: int, text: string)
    requires MsgId(g) in m && m[MsgId(g)] == TicketRef(ticketId) && g != 0
    requires !AllTrimmable(text)
    ensures HandleReply(adminId, m, ReplyTo(adminId, g, text)).effects == ReplyEffects(ticketId, Trim(text))
  {
  }

  /** After a quiet cron run, a reply to any earlier alert is dropped: the
      map it would be resolved through is empty. */
  lemma ReplyLostAfterQuietRun(adminId: int, file: MapFile, db: Db, outcomes: seq<Option<int>>, msg: InboundMessage)
    requires forall i | 0 <= i < |SelectRows(db)| :: Skipped(Load(file), SelectRows(db)[i])
    ensures var next := Run(adminId, Scan(file, db, outcomes).file, Some(Update(Some(msg))), db, []);
      next.Replied? && next.reply.effects == [] && next.reply.confirmation.None?
  {
    QuietRunForgets(file, db, outcomes);
  }

  /** The scan with the map fix: the pass starts from the loaded map, so
      the written file keeps every marker and message id it had and adds
      those of the rows delivered now. */
  ghost function ScanAccumulating(file: MapFile, db: Db, outcomes: seq<Option<int>>): (o: Outcome)
    ensures o.Scanned?
    ensures Load(o.file) == o.pass.saved
    ensures forall k: Key | k.Alerted? && Isset(Load(file), k) :: Isset(o.pass.saved, k)
    ensures forall i | Delivered(Load(file), SelectRows(db), outcomes, i) :: Skipped(o.pass.saved, SelectRows(db)[i])
    ensures forall g | MsgId(g) in Load(file) :: MsgId(g) in o.pass.saved
    ensures forall g | MsgId(g) in Load(file) && NotReturned(Load(file), SelectRows(db), outcomes, g) ::
              o.pass.saved[MsgId(g)] == Load(file)[MsgId(g)]
  {
    var pass := NotifyAccumulating(Load(file), SelectRows(db), outcomes);
    LoadSave(pass.saved);
    Scanned(pass, Save(pass.saved))
  }

  /** With the fix, a row the next run would skip is one this run skipped
      or delivered: a quiet run forgets nothing. */
  lemma AccumulatingRunKeepsSkips(file: MapFile, db: Db, outcomes: seq<Option<int>>, row: Row)
    requires Skipped(Load(file), row) || exists i :: Delivered(Load(file), SelectRows(db), outcomes, i) && DedupKey(SelectRows(db)[i]) == DedupKey(row)
    ensures Skipped(Load(ScanAccumulating(file, db, outcomes).file), row)
  {
  }

  /** With the fix, a non-blank reply to an alert recorded in the loaded map is still
      written into that alert's ticket after the run, unless a send of this
      run got the same message id back. */
  lemma ReplyKeptAfterAccumulatingRun(adminId: int, file: MapFile, db: Db, outcomes: seq<Option<int>>, g: int, text: string)
    requires Isset(Load(file), MsgId(g)) && g != 0
    requires NotReturned(Load(file), SelectRows(db), outcomes, g)
    requires !AllTrimmable(text)
    ensures var next := Run(adminId, ScanAccumulating(file, db, outcomes).file, Some(Update(Some(ReplyTo(adminId, g, text)))), db, []);
      && next.Replied?
      && next.reply.effects == ReplyEffects(ToInt(Load(file)[MsgId(g)]), Trim(text))
  {
  }

  /** The corrected counterpart of `ReplyLostAfterQuietRun`: after a
      corrected run that skipped every row, a non-blank reply to an alert recorded in
      the loaded map is still written into that alert's ticket. */
  lemma ReplyKeptAfterQuietAccumulatingRun(adminId: int, file: MapFile, db: Db, outcomes: seq<Option<int>>, g: int, text: string)
    requires forall i | 0 <= i < |SelectRows(db)| :: Skipped(Load(file), SelectRows(db)[i])
    requires Isset(Load(file), MsgId(g)) && g != 0
    requires !AllTrimmable(text)
    ensures var next := Run(adminId, ScanAccumulating(file, db, outcomes).file, Some(Update(Some(ReplyTo(adminId, g, text)))), db, []);
      next.Replied? && next.reply.effects == ReplyEffects(ToInt(Load(file)[MsgId(g)]), Trim(text))
  {
    ReplyKeptAfterAccumulatingRun(adminId, file, db, outcomes, g, text);
  }

  /** A customer message posted after a cron run gets a fresh message id, so
      the ticket's row carries a dedup key no row of that run had, and the
      next run alerts it. */
  lemma NewCustomerMessageRealerts(file: MapFile, db: Db, outcomes: seq<Option<int>>, t: Ticket, text: string)
    requires t in db.tickets && Selected(t, db.users)
    ensures var m := TicketMessage(NextMessageId(db.messages), t.id, t.uid, "", false, text, false);
      var after := db.(messages := db.messages + [m]);
      var row := RowOf(t, db.users[t.uid], after.messages);
      && row in SelectRows(after)
      && row.latestMsgId == Some(m.id)
      && !Skipped(Load(Scan(file, db, outcomes).file), row)
  {
    var n := NextMessageId(db.messages);
    var m := TicketMessage(n, t.id, t.uid, "", false, text, false);
    var msgs := db.messages + [m];
    var row := RowOf(t, db.users[t.uid], msgs);
    assert msgs[..|msgs| - 1] == db.messages;
    assert LatestCustomerMessage(msgs, t.id) == Some(m);
    assert DedupKey(row) == Alerted(t.id, Id(n));
    NextRunSkipsOnlyDelivered(file, db, outcomes, row);
    if exists i :: Delivered(Load(file), SelectRows(db), outcomes, i) && DedupKey(SelectRows(db)[i]) == DedupKey(row) {
      var i :| Delivered(Load(file), SelectRows(db), outcomes, i) && DedupKey(SelectRows(db)[i]) == DedupKey(row);
      var r := SelectRows(db)[i];
      SelectedRowShape(db, r);
      assert false;
    }
  }

  /** The marker for ticket 42 spells as in the script, with and without a
      customer message. */
  lemma MarkerSpelling()
    ensures EncodeKey(Alerted(42, Initial)) == "alerted_42_initial"
    ensures EncodeKey(Alerted(42, Id(1001))) == "alerted_42_1001"
    ensures EncodeKey(MsgId(-7)) == "-7"
  {
    assert NatToDecimal(4) == "4";
    assert NatToDecimal(42) == "42";
    assert NatToDecimal(10) == "10";
    assert NatToDecimal(100) == "100";
    assert NatToDecimal(1001) == "1001";
    assert NatToDecimal(7) == "7";
  }
}
