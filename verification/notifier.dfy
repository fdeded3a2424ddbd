/**
 * Cron mode: one pass over the rows of the scan query. Each row gets a dedup
 * key from its ticket id and latest customer message id; rows whose key is
 * marked in the map loaded at start-up are skipped, the others are sent to
 * the admin, and a successful send records the Telegram message id and the
 * marker in a fresh map. That fresh map is what the script saves.
 *
 * The Telegram API is an oracle: `outcomes[i]` is what the send for row `i`
 * answers, `Some(message_id)` when the response has `ok` set and `None`
 * otherwise; a missing entry is a failed send.
 */
module Notifier {

  import opened Wrappers
  import opened Text
  import opened CorrelationMap
  import opened TicketStore

  /** `$row['latest_msg_id'] ?: 'initial'`: a missing or zero id is `initial`. */
  function RefOf(latestMsgId: Option<int>): MsgRef {
    if latestMsgId.None? || latestMsgId.value == 0 then Initial else Id(latestMsgId.value)
  }

  /** The reference follows PHP's `?:` on the column's decimal spelling: the
      spelling itself, or `initial` when the id is missing or its spelling
      is falsy. */
  lemma RefOfSpelling(latestMsgId: Option<int>)
    ensures RefText(RefOf(latestMsgId)) ==
      if latestMsgId.None? || IsFalsy(Some(IntToDecimal(latestMsgId.value))) then InitialTag
      else IntToDecimal(latestMsgId.value)
  {
    if latestMsgId.Some? {
      IntToDecimalFalsy(latestMsgId.value);
    }
  }

  /** `'alerted_' . $ticketId . '_' . $latestMsgId` */
  function DedupKey(row: Row): Key {
    Alerted(row.ticketId, RefOf(row.latestMsgId))
  }

  /** `trim($row['latest_message'] ?: $row['description'])`: the latest
      customer message, or the ticket description when that message is
      missing, empty or "0". */
  function AlertBody(row: Row): string {
    Trim(if IsFalsy(row.latestMessage) then row.description else row.latestMessage.value)
  }

  /** The content of one alert; its Markdown layout is not modelled. */
  datatype Alert = Alert(ticketId: int, fullname: string, email: string, subject: string, body: string)

  function AlertOf(row: Row): Alert {
    Alert(row.ticketId, row.fullname, row.email, row.subject, AlertBody(row))
  }

  /** `isset($map['alerted_' . $uniqueKey])` on the map loaded at start-up. */
  predicate Skipped(loaded: CorrMap, row: Row) {
    Isset(loaded, DedupKey(row))
  }

  /** The rows whose marker is not set in the loaded map, in order: the rows
      the loop sends an alert for, each as often as it occurs in `rows`. */
  function NonSkipped(loaded: CorrMap, rows: seq<Row>): (r: seq<Row>)
    ensures |r| <= |rows|
    ensures forall row | row in r :: row in rows && !Skipped(loaded, row)
    decreases |rows|
  {
    if rows == [] then []
    else
      var n := |rows| - 1;
      assert forall row | row in rows[..n] :: row in rows;
      NonSkipped(loaded, rows[..n]) + if Skipped(loaded, rows[n]) then [] else [rows[n]]
  }

  /** The state of the loop: the map being built, the `$sent` counter, and
      the rows an alert was sent for so far, in order, whether or not the
      send succeeded. */
  datatype Pass = Pass(saved: CorrMap, sent: nat, attempts: seq<Row>)

  /** The alerts a pass sent to the admin, in order. */
  function Alerts(p: Pass): (alerts: seq<Alert>)
    ensures |alerts| == |p.attempts|
  {
    MapSeq(AlertOf, p.attempts)
  }

  function OutcomeAt(outcomes: seq<Option<int>>, i: int): Option<int> {
    if 0 <= i < |outcomes| then outcomes[i] else None
  }

  /** Row `i` was sent and the send succeeded. */
  predicate Delivered(loaded: CorrMap, rows: seq<Row>, outcomes: seq<Option<int>>, i: int) {
    0 <= i < |rows| && !Skipped(loaded, rows[i]) && OutcomeAt(outcomes, i).Some?
  }

  /** Row `i` was sent and Telegram answered with message id `g`. */
  predicate DeliveredAs(loaded: CorrMap, rows: seq<Row>, outcomes: seq<Option<int>>, i: int, g: int) {
    Delivered(loaded, rows, outcomes, i) && OutcomeAt(outcomes, i) == Some(g)
  }

  /** One iteration of the `while` loop. */
  function Step(loaded: CorrMap, acc: Pass, row: Row, outcome: Option<int>): Pass {
    if Skipped(loaded, row) then acc
    else
      var attempts := acc.attempts + [row];
      match outcome
      case None => acc.(attempts := attempts)
      case Some(tgMsgId) =>
        Pass(acc.saved[MsgId(tgMsgId) := TicketRef(row.ticketId)][DedupKey(row) := Flag(true)], acc.sent + 1, attempts)
  }

  /** The loop over all rows, starting from the map `start`. Every entry it
      adds maps a message id to a ticket, or a marker that was not set in
      the loaded map to `true`. */
  function NotifyFrom(loaded: CorrMap, start: CorrMap, rows: seq<Row>, outcomes: seq<Option<int>>): (r: Pass)
    ensures r.sent <= |r.attempts| <= |rows|
    ensures forall k | k in r.saved && k !in start ::
              || (k.MsgId? && r.saved[k].TicketRef?)
              || (k.Alerted? && r.saved[k] == Flag(true) && !Isset(loaded, k))
    decreases |rows|
  {
    if rows == [] then Pass(start, 0, [])
    else
      var n := |rows| - 1;
      Step(loaded, NotifyFrom(loaded, start, rows[..n], outcomes), rows[n], OutcomeAt(outcomes, n))
  }

  /** The script's pass (lines 162-216): the map it saves starts empty, so
      no marker of the loaded map survives into it (see `SavedFromThisPass`
      for what it does hold, and `AttemptsInOrder` for the alerts sent). */
  function Notify(loaded: CorrMap, rows: seq<Row>, outcomes: seq<Option<int>>): (r: Pass)
    ensures r.sent <= |r.attempts| <= |rows|
    ensures forall k | k in r.saved :: (k.MsgId? && r.saved[k].TicketRef?) || (k.Alerted? && r.saved[k] == Flag(true))
    ensures forall k | k in r.saved && k.Alerted? :: !Isset(loaded, k)
  {
    NotifyFrom(loaded, map[], rows, outcomes)
  }

  /** The loop sends an alert for exactly the rows whose marker is not set
      in the loaded map, in order, once per row. */
  lemma {:induction false} AttemptsInOrder(loaded: CorrMap, start: CorrMap, rows: seq<Row>, outcomes: seq<Option<int>>)
    ensures NotifyFrom(loaded, start, rows, outcomes).attempts == NonSkipped(loaded, rows)
    decreases |rows|
  {
    if rows != [] {
      var n := |rows| - 1;
      AttemptsInOrder(loaded, start, rows[..n], outcomes);
    }
  }

  /** The saved map holds only what this pass recorded: every entry was
      written by a delivered row, so nothing of the loaded map is carried
      over. */
  lemma SavedFromThisPass(loaded: CorrMap, rows: seq<Row>, outcomes: seq<Option<int>>)
    ensures var saved := Notify(loaded, rows, outcomes).saved;
      && (forall g | MsgId(g) in saved :: exists i :: DeliveredAs(loaded, rows, outcomes, i, g))
      && (forall k | k in saved && k.Alerted? :: exists i :: Delivered(loaded, rows, outcomes, i) && DedupKey(rows[i]) == k)
  {
    forall g | MsgId(g) in NotifyFrom(loaded, map[], rows, outcomes).saved
      ensures exists i :: DeliveredAs(loaded, rows, outcomes, i, g)
    {
      MsgIdIff(loaded, map[], rows, outcomes, g);
    }
    forall k | k in NotifyFrom(loaded, map[], rows, outcomes).saved && k.Alerted?
      ensures exists i :: Delivered(loaded, rows, outcomes, i) && DedupKey(rows[i]) == k
    {
      MarkerIff(loaded, map[], rows, outcomes, k);
    }
  }

  lemma DeliveredPrefix(loaded: CorrMap, rows: seq<Row>, outcomes: seq<Option<int>>, n: nat)
    requires n <= |rows|
    ensures forall i :: Delivered(loaded, rows[..n], outcomes, i) <==> 0 <= i < n && Delivered(loaded, rows, outcomes, i)
  {
  }

  /** What one iteration does to a marker. */
  lemma StepMarker(loaded: CorrMap, acc: Pass, row: Row, outcome: Option<int>, k: Key)
    requires k.Alerted?
    ensures var written := !Skipped(loaded, row) && outcome.Some? && DedupKey(row) == k;
      var saved := Step(loaded, acc, row, outcome).saved;
      && (k in saved <==> k in acc.saved || written)
      && (written ==> saved[k] == Flag(true))
      && (!written && k in acc.saved ==> saved[k] == acc.saved[k])
  {
  }

  /** A marker is in the built map exactly when it was in the start map or
      some row with that key was delivered; a delivered marker is `true`,
      and a marker no row delivered keeps its start value. */
  lemma {:induction false} MarkerIff(loaded: CorrMap, start: CorrMap, rows: seq<Row>, outcomes: seq<Option<int>>, k: Key)
    requires k.Alerted?
    ensures var saved := NotifyFrom(loaded, start, rows, outcomes).saved;
      && (k in saved <==> k in start || exists i :: Delivered(loaded, rows, outcomes, i) && DedupKey(rows[i]) == k)
      && ((exists i :: Delivered(loaded, rows, outcomes, i) && DedupKey(rows[i]) == k) ==> saved[k] == Flag(true))
      && ((forall i :: Delivered(loaded, rows, outcomes, i) ==> DedupKey(rows[i]) != k) ==> k in start ==> saved[k] == start[k])
    decreases |rows|
  {
    if rows != [] {
      var n := |rows| - 1;
      var pre := NotifyFrom(loaded, start, rows[..n], outcomes);
      assert NotifyFrom(loaded, start, rows, outcomes) == Step(loaded, pre, rows[n], OutcomeAt(outcomes, n));
      MarkerIff(loaded, start, rows[..n], outcomes, k);
      DeliveredPrefix(loaded, rows, outcomes, n);
      StepMarker(loaded, pre, rows[n], OutcomeAt(outcomes, n), k);
    }
  }

  /** What one iteration does to a message id entry. */
  lemma StepMsgId(loaded: CorrMap, acc: Pass, row: Row, outcome: Option<int>, g: int)
    ensures var written := !Skipped(loaded, row) && outcome == Some(g);
      var saved := Step(loaded, acc, row, outcome).saved;
      && (MsgId(g) in saved <==> MsgId(g) in acc.saved || written)
      && (written ==> saved[MsgId(g)] == TicketRef(row.ticketId))
      && (!written && MsgId(g) in acc.saved ==> saved[MsgId(g)] == acc.saved[MsgId(g)])
  {
  }

  /** A Telegram message id is in the built map exactly when it was in the
      start map or some delivered row's send returned it. */
  lemma {:induction false} MsgIdIff(loaded: CorrMap, start: CorrMap, rows: seq<Row>, outcomes: seq<Option<int>>, g: int)
    ensures MsgId(g) in NotifyFrom(loaded, start, rows, outcomes).saved <==>
              MsgId(g) in start || exists i :: DeliveredAs(loaded, rows, outcomes, i, g)
    decreases |rows|
  {
    if rows != [] {
      var n := |rows| - 1;
      var pre := NotifyFrom(loaded, start, rows[..n], outcomes);
      assert NotifyFrom(loaded, start, rows, outcomes) == Step(loaded, pre, rows[n], OutcomeAt(outcomes, n));
      MsgIdIff(loaded, start, rows[..n], outcomes, g);
      DeliveredPrefix(loaded, rows, outcomes, n);
      StepMsgId(loaded, pre, rows[n], OutcomeAt(outcomes, n), g);
      if exists i :: DeliveredAs(loaded, rows, outcomes, i, g) {
        var i :| DeliveredAs(loaded, rows, outcomes, i, g);
        if i < n {
          assert DeliveredAs(loaded, rows[..n], outcomes, i, g);
        }
      }
      if MsgId(g) in pre.saved && MsgId(g) !in start {
        var i :| DeliveredAs(loaded, rows[..n], outcomes, i, g);
        assert DeliveredAs(loaded, rows, outcomes, i, g);
      }
      if DeliveredAs(loaded, rows, outcomes, n, g) {
        assert exists i :: DeliveredAs(loaded, rows, outcomes, i, g);
      }
    }
  }

  /** The message id returned for a delivered row resolves to that row's
      ticket, unless a later delivered row got the same message id back. */
  lemma {:induction false} MsgIdResolves(loaded: CorrMap, start: CorrMap, rows: seq<Row>, outcomes: seq<Option<int>>, i: int, g: int)
    requires Delivered(loaded, rows, outcomes, i) && OutcomeAt(outcomes, i) == Some(g)
    requires forall j | i < j < |rows| && Delivered(loaded, rows, outcomes, j) :: OutcomeAt(outcomes, j) != Some(g)
    ensures var saved := NotifyFrom(loaded, start, rows, outcomes).saved;
      MsgId(g) in saved && saved[MsgId(g)] == TicketRef(rows[i].ticketId)
    decreases |rows|
  {
    var n := |rows| - 1;
    var pre := NotifyFrom(loaded, start, rows[..n], outcomes);
    assert NotifyFrom(loaded, start, rows, outcomes) == Step(loaded, pre, rows[n], OutcomeAt(outcomes, n));
    StepMsgId(loaded, pre, rows[n], OutcomeAt(outcomes, n), g);
    if i < n {
      DeliveredPrefix(loaded, rows, outcomes, n);
      MsgIdResolves(loaded, start, rows[..n], outcomes, i, g);
      assert !Delivered(loaded, rows, outcomes, n) || OutcomeAt(outcomes, n) != Some(g);
    }
  }

  /** No delivered row's send returned message id `g`. */
  predicate NotReturned(loaded: CorrMap, rows: seq<Row>, outcomes: seq<Option<int>>, g: int) {
    forall i | 0 <= i < |rows| && Delivered(loaded, rows, outcomes, i) :: OutcomeAt(outcomes, i) != Some(g)
  }

  /** A message id of the start map keeps its entry unless a delivered
      send returned the same id. */
  lemma {:induction false} MsgIdKeeps(loaded: CorrMap, start: CorrMap, rows: seq<Row>, outcomes: seq<Option<int>>, g: int)
    requires MsgId(g) in start
    requires NotReturned(loaded, rows, outcomes, g)
    ensures var saved := NotifyFrom(loaded, start, rows, outcomes).saved;
      MsgId(g) in saved && saved[MsgId(g)] == start[MsgId(g)]
    decreases |rows|
  {
    if rows != [] {
      var n := |rows| - 1;
      var pre := NotifyFrom(loaded, start, rows[..n], outcomes);
      assert NotifyFrom(loaded, start, rows, outcomes) == Step(loaded, pre, rows[n], OutcomeAt(outcomes, n));
      DeliveredPrefix(loaded, rows, outcomes, n);
      MsgIdKeeps(loaded, start, rows[..n], outcomes, g);
      StepMsgId(loaded, pre, rows[n], OutcomeAt(outcomes, n), g);
      assert !Delivered(loaded, rows, outcomes, n) || OutcomeAt(outcomes, n) != Some(g);
    }
  }

  ghost function DeliveredSet(loaded: CorrMap, rows: seq<Row>, outcomes: seq<Option<int>>): set<int> {
    set i | 0 <= i < |rows| && Delivered(loaded, rows, outcomes, i)
  }

  lemma DeliveredSetStep(loaded: CorrMap, rows: seq<Row>, outcomes: seq<Option<int>>)
    requires rows != []
    ensures |DeliveredSet(loaded, rows, outcomes)| ==
              |DeliveredSet(loaded, rows[..|rows| - 1], outcomes)| + if Delivered(loaded, rows, outcomes, |rows| - 1) then 1 else 0
  {
    var n := |rows| - 1;
    DeliveredPrefix(loaded, rows, outcomes, n);
    var before := DeliveredSet(loaded, rows[..n], outcomes);
    var after := DeliveredSet(loaded, rows, outcomes);
    assert forall i :: i in after <==> i in before || (i == n && Delivered(loaded, rows, outcomes, n));
    assert n !in before;
    if Delivered(loaded, rows, outcomes, n) {
      assert after == before + {n};
    } else {
      assert after == before;
    }
  }

  /** `$sent` counts exactly the delivered rows. */
  lemma {:induction false} SentCount(loaded: CorrMap, start: CorrMap, rows: seq<Row>, outcomes: seq<Option<int>>)
    ensures NotifyFrom(loaded, start, rows, outcomes).sent == |DeliveredSet(loaded, rows, outcomes)|
    decreases |rows|
  {
    if rows != [] {
      var n := |rows| - 1;
      var pre := NotifyFrom(loaded, start, rows[..n], outcomes);
      var o := OutcomeAt(outcomes, n);
      assert NotifyFrom(loaded, start, rows, outcomes) == Step(loaded, pre, rows[n], o);
      assert Step(loaded, pre, rows[n], o).sent == pre.sent + (if Delivered(loaded, rows, outcomes, n) then 1 else 0);
      SentCount(loaded, start, rows[..n], outcomes);
      DeliveredSetStep(loaded, rows, outcomes);
    }
  }

  /** An alert is sent for a row exactly when its marker is not set in the
      loaded map. */
  lemma {:induction false} AttemptIff(loaded: CorrMap, start: CorrMap, rows: seq<Row>, outcomes: seq<Option<int>>, row: Row)
    ensures row in NotifyFrom(loaded, start, rows, outcomes).attempts <==> row in rows && !Skipped(loaded, row)
    decreases |rows|
  {
    if rows != [] {
      var n := |rows| - 1;
      var pre := NotifyFrom(loaded, start, rows[..n], outcomes);
      var o := OutcomeAt(outcomes, n);
      assert NotifyFrom(loaded, start, rows, outcomes) == Step(loaded, pre, rows[n], o);
      assert Step(loaded, pre, rows[n], o).attempts ==
               if Skipped(loaded, rows[n]) then pre.attempts else pre.attempts + [rows[n]];
      AttemptIff(loaded, start, rows[..n], outcomes, row);
      assert rows == rows[..n] + [rows[n]];
    }
  }

  /** The alerts of a pass are exactly those of the rows whose marker is not
      set in the loaded map. */
  lemma AlertIff(loaded: CorrMap, start: CorrMap, rows: seq<Row>, outcomes: seq<Option<int>>, a: Alert)
    ensures a in Alerts(NotifyFrom(loaded, start, rows, outcomes)) <==>
              exists row | row in rows :: !Skipped(loaded, row) && AlertOf(row) == a
  {
    var p := NotifyFrom(loaded, start, rows, outcomes);
    InMapSeq(AlertOf, p.attempts, a);
    if exists row | row in p.attempts :: AlertOf(row) == a {
      var row :| row in p.attempts && AlertOf(row) == a;
      AttemptIff(loaded, start, rows, outcomes, row);
    }
    if exists row | row in rows :: !Skipped(loaded, row) && AlertOf(row) == a {
      var row :| row in rows && !Skipped(loaded, row) && AlertOf(row) == a;
      AttemptIff(loaded, start, rows, outcomes, row);
    }
  }

  /** `f` applied to each element of `xs`, in order. */
  function MapSeq<A, B>(f: A -> B, xs: seq<A>): (ys: seq<B>)
    ensures |ys| == |xs|
    ensures forall k | 0 <= k < |xs| :: ys[k] == f(xs[k])
  {
    seq(|xs|, k requires 0 <= k < |xs| => f(xs[k]))
  }

  lemma InMapSeq<A, B>(f: A -> B, xs: seq<A>, b: B)
    ensures b in MapSeq(f, xs) <==> exists x | x in xs :: f(x) == b
  {
    var ys := MapSeq(f, xs);
    if b in ys {
      var k :| 0 <= k < |ys| && ys[k] == b;
      assert xs[k] in xs;
    }
    if exists x | x in xs :: f(x) == b {
      var x :| x in xs && f(x) == b;
      var k :| 0 <= k < |xs| && xs[k] == x;
      assert ys[k] == b;
    }
  }

  /** The alert for a ticket the scan selects carries the ticket's latest
      customer message, trimmed; when the ticket has none, or that message
      is empty or "0", it carries the trimmed description instead, while the
      dedup key still names the latest message. */
  lemma AlertBodyFromDb(db: Db, t: Ticket)
    requires t in db.tickets && Selected(t, db.users)
    ensures var row := RowOf(t, db.users[t.uid], db.messages);
      var l := LatestCustomerMessage(db.messages, t.id);
      && row in SelectRows(db)
      && AlertOf(row).ticketId == t.id
      && (l.None? ==> AlertOf(row).body == Trim(t.description) && DedupKey(row) == Alerted(t.id, Initial))
      && (l.Some? && l.value.message != "" && l.value.message != "0" ==> AlertOf(row).body == Trim(l.value.message))
      && (l.Some? && (l.value.message == "" || l.value.message == "0") ==> AlertOf(row).body == Trim(t.description))
      && (l.Some? ==> DedupKey(row) == Alerted(t.id, RefOf(Some(l.value.id))))
  {
  }

  /** A pass in which every row is skipped sends nothing and saves an empty
      map. */
  lemma {:induction false} AllSkippedSavesEmpty(loaded: CorrMap, rows: seq<Row>, outcomes: seq<Option<int>>)
    requires forall i | 0 <= i < |rows| :: Skipped(loaded, rows[i])
    ensures Notify(loaded, rows, outcomes) == Pass(map[], 0, [])
    decreases |rows|
  {
    if rows != [] {
      var n := |rows| - 1;
      AllSkippedSavesEmpty(loaded, rows[..n], outcomes);
    }
  }

  /** The saved map marks exactly the keys of the rows this pass delivered. */
  lemma SavedMarksDelivered(loaded: CorrMap, rows: seq<Row>, outcomes: seq<Option<int>>, row: Row)
    ensures Skipped(Notify(loaded, rows, outcomes).saved, row) <==>
              exists i :: Delivered(loaded, rows, outcomes, i) && DedupKey(rows[i]) == DedupKey(row)
  {
    MarkerIff(loaded, map[], rows, outcomes, DedupKey(row));
  }

  /** The pass with the map fixed as evidently intended: it starts from the
      loaded map, so earlier entries are kept: every marker that was set,
      and every earlier message id, with its ticket unless this pass got
      the same id back. */
  function NotifyAccumulating(loaded: CorrMap, rows: seq<Row>, outcomes: seq<Option<int>>): (r: Pass)
    ensures r.sent <= |r.attempts| <= |rows|
    ensures forall k | k in loaded && k.Alerted? && Isset(loaded, k) :: k in r.saved && r.saved[k] == loaded[k]
    ensures forall i | Delivered(loaded, rows, outcomes, i) :: Isset(r.saved, DedupKey(rows[i]))
    ensures forall g | MsgId(g) in loaded :: MsgId(g) in r.saved
    ensures forall g | MsgId(g) in loaded && NotReturned(loaded, rows, outcomes, g) :: r.saved[MsgId(g)] == loaded[MsgId(g)]
  {
    var r := NotifyFrom(loaded, loaded, rows, outcomes);
    AccumulatingKeeps(loaded, rows, outcomes);
    r
  }

  lemma {:induction false} AccumulatingKeeps(loaded: CorrMap, rows: seq<Row>, outcomes: seq<Option<int>>)
    ensures var saved := NotifyFrom(loaded, loaded, rows, outcomes).saved;
      && (forall k | k in loaded && k.Alerted? && Isset(loaded, k) :: k in saved && saved[k] == loaded[k])
      && (forall i | Delivered(loaded, rows, outcomes, i) :: Isset(saved, DedupKey(rows[i])))
      && (forall g | MsgId(g) in loaded :: MsgId(g) in saved)
      && (forall g | MsgId(g) in loaded && NotReturned(loaded, rows, outcomes, g) :: saved[MsgId(g)] == loaded[MsgId(g)])
  {
    var saved := NotifyFrom(loaded, loaded, rows, outcomes).saved;
    forall k | k in loaded && k.Alerted? && Isset(loaded, k) ensures k in saved && saved[k] == loaded[k] {
      MarkerIff(loaded, loaded, rows, outcomes, k);
    }
    forall i | Delivered(loaded, rows, outcomes, i) ensures Isset(saved, DedupKey(rows[i])) {
      MarkerIff(loaded, loaded, rows, outcomes, DedupKey(rows[i]));
    }
    forall g | MsgId(g) in loaded ensures MsgId(g) in saved {
      MsgIdIff(loaded, loaded, rows, outcomes, g);
    }
    forall g | MsgId(g) in loaded && NotReturned(loaded, rows, outcomes, g) ensures saved[MsgId(g)] == loaded[MsgId(g)] {
      MsgIdKeeps(loaded, loaded, rows, outcomes, g);
    }
  }

  /** The input of one cron run: the rows of its scan and its send outcomes. */
  datatype Batch = Batch(rows: seq<Row>, outcomes: seq<Option<int>>)

  /** The map loaded by run `j` when the corrected pass runs over `batches`
      in turn, each saving its map for the next (`LoadSave`: what a run
      saves is what the next one loads). */
  function MapBeforeAccumulating(loaded: CorrMap, batches: seq<Batch>, j: nat): CorrMap
    requires j <= |batches|
    decreases j
  {
    if j == 0 then loaded
    else
      var m := MapBeforeAccumulating(loaded, batches, j - 1);
      NotifyAccumulating(m, batches[j - 1].rows, batches[j - 1].outcomes).saved
  }

  /** With the corrected pass, a ticket state delivered in run `j` is skipped
      in every later run, however many runs follow. */
  lemma {:induction false} AccumulatingNeverRealerts(loaded: CorrMap, batches: seq<Batch>, j: nat, i: int, j2: nat, row: Row)
    requires j < j2 <= |batches|
    requires Delivered(MapBeforeAccumulating(loaded, batches, j), batches[j].rows, batches[j].outcomes, i)
    requires DedupKey(row) == DedupKey(batches[j].rows[i])
    ensures Skipped(MapBeforeAccumulating(loaded, batches, j2), row)
    decreases j2
  {
    if j2 - 1 > j {
      AccumulatingNeverRealerts(loaded, batches, j, i, j2 - 1, row);
    }
  }

  /** The map loaded by run `j` as the script runs over `batches` in turn. */
  function MapBefore(loaded: CorrMap, batches: seq<Batch>, j: nat): CorrMap
    requires j <= |batches|
    decreases j
  {
    if j == 0 then loaded
    else
      var m := MapBefore(loaded, batches, j - 1);
      Notify(m, batches[j - 1].rows, batches[j - 1].outcomes).saved
  }

  /** A pending ticket without customer messages, as an example row. */
  const LoginRow: Row := Row(42, "Login", "Cannot log in", Pending, "user@example.com", "Jane Doe", None, None)

  /** The alert for `LoginRow`: the description stands in for the missing
      customer message. */
  const LoginAlert: Alert := Alert(42, "Jane Doe", "user@example.com", "Login", "Cannot log in")

  /** As written, the same unchanged ticket is alerted on the first run,
      skipped on the second, and alerted again on the third, with every send
      succeeding: the second run saved an empty map. */
  lemma ThirdRunRealerts()
    ensures var batches := [Batch([LoginRow], [Some(7)]), Batch([LoginRow], [Some(8)]), Batch([LoginRow], [Some(9)])];
      && Notify(MapBefore(map[], batches, 0), [LoginRow], [Some(7)]).sent == 1
      && Notify(MapBefore(map[], batches, 1), [LoginRow], [Some(8)]).sent == 0
      && MapBefore(map[], batches, 2) == map[]
      && Notify(MapBefore(map[], batches, 2), [LoginRow], [Some(9)]).sent == 1
  {
    var batches := [Batch([LoginRow], [Some(7)]), Batch([LoginRow], [Some(8)]), Batch([LoginRow], [Some(9)])];
    var m1 := map[MsgId(7) := TicketRef(42), DedupKey(LoginRow) := Flag(true)];
    OneRowDelivered(map[], LoginRow, 7);
    OneRowDelivered(map[], LoginRow, 9);
    assert MapBefore(map[], batches, 0) == map[];
    assert MapBefore(map[], batches, 1) == m1;
    AllSkippedSavesEmpty(m1, [LoginRow], [Some(8)]);
    assert MapBefore(map[], batches, 2) == Notify(m1, [LoginRow], [Some(8)]).saved;
  }

  /** A pass over one unmarked row whose send succeeds records the returned
      message id and the row's marker, and counts one send. */
  lemma OneRowDelivered(loaded: CorrMap, row: Row, g: int)
    requires !Skipped(loaded, row)
    ensures NotifyFrom(loaded, map[], [row], [Some(g)]) ==
              Pass(map[MsgId(g) := TicketRef(row.ticketId), DedupKey(row) := Flag(true)], 1, [row])
  {
    assert [row][..0] == [];
  }

  /** A first run over `LoginRow` sends one alert, for ticket 42, whose text
      is the description "Cannot log in". */
  lemma LoginRowAlert()
    ensures Alerts(Notify(map[], [LoginRow], [Some(7)])) == [LoginAlert]
  {
    LoginAlertText();
    assert [LoginRow][..0] == [];
    assert NotifyFrom(map[], map[], [], [Some(7)]).attempts == [];
    assert Notify(map[], [LoginRow], [Some(7)]).attempts == [LoginRow];
  }

  /** The missing customer message makes the description the alert text. */
  lemma LoginAlertText()
    ensures AlertOf(LoginRow) == LoginAlert
  {
    TrimUntrimmed(LoginRow.description);
  }
}
