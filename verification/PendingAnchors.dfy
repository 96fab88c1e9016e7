/** Anchors in flight: rows followed by any number of reconcilers against a node, as a
    state machine whose steps are what the database makes visible, and the store's own
    methods proved to take those steps. */
module PendingAnchors {
  import opened Options

  // ----- the check against the chain -----

  const DROPPED_AFTER: int := 15 * 60
  const NO_HASH_AFTER: int := 30 * 60
  const MAX_AGE: int := 2 * 3600

  datatype RegistryRead = ReadFailed | NoRecord | Recorded
  datatype TxState = Mined | Reverted | InMempool | Unknown | TxReadFailed
  datatype Answers = Answers(registry: RegistryRead, tx: TxState)

  datatype Verdict = Anchored | Waiting | Failed

  datatype Status = Open | WasAnchored | WasFailed

  /** A row of the table. Times are in seconds. */
  datatype Row = Row(trade: nat, hash: nat, tx: Option<nat>, submitted: int, status: Status, attempts: nat)

  function Check(row: Row, now: int, answers: Answers): Verdict {
    var age := now - row.submitted;
    var state := if row.tx.Some? then answers.tx else Unknown;
    if answers.registry == Recorded then Anchored
    else if state == Mined then Anchored
    else if state == Reverted then Failed
    else if age > MAX_AGE then Failed
    else if state == InMempool then Waiting
    else if row.tx.Some? && state == Unknown && age > DROPPED_AFTER then Failed
    else if row.tx.None? && age > NO_HASH_AFTER then Failed
    else Waiting
  }

  /** The hashes the registry holds and the transactions mined successfully. Both only grow. */
  datatype Chain = Chain(records: set<nat>, mined: set<nat>)

  ghost predicate Grows(c: Chain, d: Chain) {
    c.records <= d.records && c.mined <= d.mined
  }

  /** The node answers truthfully or not at all: the registry as of `seen`, the
      transaction as of `now`. */
  ghost predicate Truthful(row: Row, answers: Answers, seen: Chain, now: Chain) {
    && (answers.registry == Recorded ==> row.hash in seen.records)
    && (answers.registry == NoRecord ==> row.hash !in seen.records)
    && (row.tx.Some? && answers.tx == Mined ==> row.tx.value in now.mined)
    && (row.tx.Some? && answers.tx in {Reverted, InMempool, Unknown} ==> row.tx.value !in now.mined)
  }

  /** The registry holds the row's record, or its transaction was mined. */
  ghost predicate Settled(row: Row, chain: Chain) {
    row.hash in chain.records || (row.tx.Some? && row.tx.value in chain.mined)
  }

  lemma AnchoredIsSound(row: Row, now: int, answers: Answers, seen: Chain, chain: Chain)
    requires Truthful(row, answers, seen, chain) && Grows(seen, chain) && Check(row, now, answers) == Anchored
    ensures Settled(row, chain)
  {
  }

  /** A check answers anchored exactly when it read the record or a mined transaction, at any
      age. */
  lemma AnchoredIff(row: Row, now: int, answers: Answers)
    ensures Check(row, now, answers) == Anchored
      <==> answers.registry == Recorded || (row.tx.Some? && answers.tx == Mined)
  {
  }

  /** Both reads the check relies on succeeded. */
  predicate ReadsSucceed(row: Row, answers: Answers) {
    answers.registry != ReadFailed && (row.tx.Some? ==> answers.tx != TxReadFailed)
  }

  /** When the reads succeed a row is given up only if neither the registry, as it was read,
      nor the mined transactions settle it. */
  lemma FailedIsSound(row: Row, now: int, answers: Answers, seen: Chain, chain: Chain)
    requires Truthful(row, answers, seen, chain) && ReadsSucceed(row, answers) && Check(row, now, answers) == Failed
    ensures !Settled(row, Chain(seen.records, chain.mined))
  {
  }

  /** A row whose transaction was mined is given up exactly when no record was read, the
      transaction's state could not be read, and the row is past its greatest age. */
  lemma FailedThoughMinedIff(row: Row, now: int, answers: Answers, seen: Chain, chain: Chain)
    requires Truthful(row, answers, seen, chain) && row.tx.Some? && row.tx.value in chain.mined
    ensures Check(row, now, answers) == Failed
      <==> answers.registry != Recorded && answers.tx == TxReadFailed && now - row.submitted > 7200
  {
  }

  /** A transaction that was sent and is not known to have been mined is given up on: it
      reverted, or the row is too old for what the node says of it. */
  predicate GivenUpOn(row: Row, now: int, tx: TxState) {
    var age := now - row.submitted;
    if row.tx.None? then age > 1800
    else tx == Reverted || age > 7200 || (tx == Unknown && age > 900)
  }

  /** A settled row is given up exactly when some read hid it: no record was read, though
      it may be there by now, no mined transaction was read, and the row is given up on. */
  lemma FailedThoughSettledIff(row: Row, now: int, answers: Answers, seen: Chain, chain: Chain)
    requires Truthful(row, answers, seen, chain) && Grows(seen, chain) && Settled(row, chain)
    ensures Check(row, now, answers) == Failed <==>
      && (answers.registry == ReadFailed || (answers.registry == NoRecord && row.hash !in seen.records))
      && (row.tx.Some? ==> (answers.tx == TxReadFailed || row.tx.value !in chain.mined))
      && GivenUpOn(row, now, answers.tx)
  {
  }

  /** Whether a row may be given up although the registry holds its record: exactly when
      the registry could not be read and the transaction gives no sign of it either. */
  lemma FailedDespiteRecordIff(row: Row, now: int, answers: Answers, seen: Chain, chain: Chain)
    requires Truthful(row, answers, seen, chain) && row.hash in seen.records
    ensures Check(row, now, answers) == Failed <==>
      answers.registry == ReadFailed && !(row.tx.Some? && answers.tx == Mined) && GivenUpOn(row, now, answers.tx)
  {
  }

  /** Such a check exists: half an hour after a send that returned no hash. */
  lemma FailedDespiteRecord(row: Row, seen: Chain)
    requires row.tx.None? && row.hash in seen.records
    ensures exists now, answers :: Truthful(row, answers, seen, seen) && Check(row, now, answers) == Failed
  {
    var now, answers := row.submitted + NO_HASH_AFTER + 1, Answers(ReadFailed, Unknown);
    assert Truthful(row, answers, seen, seen) && Check(row, now, answers) == Failed;
  }

  /** No completed check leaves a row waiting beyond its greatest age, two hours. */
  lemma WaitingIsBounded(row: Row, now: int, answers: Answers)
    requires now > row.submitted + 7200
    ensures Check(row, now, answers) != Waiting
  {
  }

  // ----- the database -----

  datatype TradeStatus = Pending | Confirmed | Other

  /** A trade and the rows that wrote a CONFIRMED event for it. */
  datatype Trade = Trade(status: TradeStatus, events: seq<nat>)

  /** How far a reconciler holding a row's lock has come: it has the lock, or it has loaded
      the trade as pending and its flip and event are not yet committed. */
  datatype Phase = Locked | Applying

  datatype Db = Db(rows: seq<Row>, trades: map<nat, Trade>, held: map<nat, Phase>)

  datatype World = World(db: Db, chain: Chain)

  predicate IsOpen(db: Db, r: int) {
    0 <= r < |db.rows| && db.rows[r].status == Open
  }

  ghost predicate OpenFor(db: Db, r: int, trade: nat) {
    IsOpen(db, r) && db.rows[r].trade == trade
  }

  function Closed(row: Row, status: Status): Row {
    row.(status := status, attempts := row.attempts + 1)
  }

  function SetRow(db: Db, r: nat, row: Row): Db
    requires r < |db.rows|
  {
    db.(rows := db.rows[r := row])
  }

  function Release(db: Db, r: nat): Db {
    db.(held := db.held - {r})
  }

  function Coalesce(a: Option<nat>, b: Option<nat>): Option<nat> {
    if a.Some? then a else b
  }

  /** Insert a row, or refresh the open one for the trade. */
  ghost predicate Recording(db: Db, db': Db, trade: nat, hash: nat, tx: Option<nat>, now: int) {
    if r :| OpenFor(db, r, trade) then
      r !in db.held && db' == SetRow(db, r, db.rows[r].(tx := Coalesce(tx, db.rows[r].tx)))
    else
      db' == db.(rows := db.rows + [Row(trade, hash, tx, now, Open, 0)])
  }

  datatype Step =
    | Record(trade: nat, hash: nat, tx: Option<nat>, now: int)
    | Lock(row: nat)
    | Conclude(row: nat, now: int, answers: Answers, seen: Chain)
    | Commit(row: nat)
    | RollBack(row: nat)
    | CountAttempt(row: nat)
    | Leave(trade: nat)
    | Book(trade: nat)
    | Mine(chain: Chain)

  /** What a finished check does to a locked row. */
  function Concluded(db: Db, r: nat, verdict: Verdict): Db
    requires r < |db.rows|
  {
    var row := db.rows[r];
    match verdict
    case Waiting => Release(SetRow(db, r, Closed(row, Open)), r)
    case Failed => Release(SetRow(db, r, Closed(row, WasFailed)), r)
    case Anchored =>
      if row.trade in db.trades && db.trades[row.trade].status == Pending then db.(held := db.held[r := Applying])
      else Release(SetRow(db, r, Closed(row, WasAnchored)), r)
  }

  /** The flip and the event, in one transaction. */
  function Committed(db: Db, r: nat): Db
    requires r < |db.rows| && db.rows[r].trade in db.trades
  {
    var t := db.rows[r].trade;
    var flipped := Release(SetRow(db, r, Closed(db.rows[r], WasAnchored)), r);
    flipped.(trades := flipped.trades[t := Trade(Confirmed, db.trades[t].events + [r])])
  }

  ghost predicate NextBy(w: World, w': World, s: Step) {
    var db, db' := w.db, w'.db;
    match s
    case Record(trade, hash, tx, now) => w'.chain == w.chain && Recording(db, db', trade, hash, tx, now)
    case Lock(r) => w'.chain == w.chain && IsOpen(db, r) && r !in db.held && db' == db.(held := db.held[r := Locked])
    case Conclude(r, now, answers, seen) =>
      && w'.chain == w.chain && IsOpen(db, r) && r in db.held && db.held[r] == Locked
      && Grows(seen, w.chain) && Truthful(db.rows[r], answers, seen, w.chain)
      && db' == Concluded(db, r, Check(db.rows[r], now, answers))
    case Commit(r) =>
      && w'.chain == w.chain && IsOpen(db, r) && r in db.held && db.held[r] == Applying
      && db.rows[r].trade in db.trades && db' == Committed(db, r)
    case RollBack(r) => w'.chain == w.chain && r in db.held && db' == Release(db, r)
    case CountAttempt(r) =>
      w'.chain == w.chain && r < |db.rows| && db' == SetRow(db, r, db.rows[r].(attempts := db.rows[r].attempts + 1))
    case Leave(t) =>
      && w'.chain == w.chain && t in db.trades && db.trades[t].status == Pending
      && db' == db.(trades := db.trades[t := db.trades[t].(status := Other)])
    case Book(t) => w'.chain == w.chain && t !in db.trades && db' == db.(trades := db.trades[t := Trade(Pending, [])])
    case Mine(chain) => db' == db && w'.chain == chain && Grows(w.chain, chain)
  }

  ghost predicate Next(w: World, w': World) {
    exists s :: NextBy(w, w', s)
  }

  /** Recording again never adds a second open row for a trade: it takes the newer hash when
      there is one and leaves the rest of the row alone. */
  lemma RecordingRefreshes(db: Db, db': Db, r: nat, hash: nat, tx: Option<nat>, now: int)
    requires OneOpenRow(db) && IsOpen(db, r) && Recording(db, db', db.rows[r].trade, hash, tx, now)
    ensures |db'.rows| == |db.rows| && db'.trades == db.trades
    ensures db'.rows[r] == db.rows[r].(tx := if tx == None then db.rows[r].tx else tx)
    ensures forall q :: 0 <= q < |db.rows| && q != r ==> db'.rows[q] == db.rows[q]
  {
    assert OpenFor(db, r, db.rows[r].trade);
    var q :| OpenFor(db, q, db.rows[r].trade) && q !in db.held && db' == SetRow(db, q, db.rows[q].(tx := Coalesce(tx, db.rows[q].tx)));
    assert IsOpen(db, q) && IsOpen(db, r);
  }

  // ----- what every step keeps -----

  ghost predicate OneOpenRow(db: Db) {
    forall r: int, q: int :: IsOpen(db, r) && IsOpen(db, q) && db.rows[r].trade == db.rows[q].trade ==> r == q
  }

  ghost predicate HeldAreOpen(db: Db) {
    forall r :: r in db.held ==> IsOpen(db, r)
  }

  /** At most one event, written by an anchored row of the trade, exactly when confirmed. */
  ghost predicate EventSound(db: Db, t: nat) {
    t in db.trades ==>
      && (db.trades[t].status == Confirmed <==> db.trades[t].events != [])
      && |db.trades[t].events| <= 1
      && forall r :: r in db.trades[t].events ==> r < |db.rows| && db.rows[r].trade == t && db.rows[r].status == WasAnchored
  }

  /** A row about to commit belongs to a trade with no event, and the chain bears it out. */
  ghost predicate ApplyingSound(w: World, r: nat) {
    r in w.db.held && w.db.held[r] == Applying ==>
      && r < |w.db.rows| && w.db.rows[r].trade in w.db.trades && w.db.trades[w.db.rows[r].trade].events == []
      && Settled(w.db.rows[r], w.chain)
  }

  /** What wrote an event is borne out by the chain. */
  ghost predicate EventsSettled(w: World, t: nat) {
    t in w.db.trades ==> forall r :: r in w.db.trades[t].events && r < |w.db.rows| ==> Settled(w.db.rows[r], w.chain)
  }

  ghost predicate Inv(w: World) {
    && OneOpenRow(w.db) && HeldAreOpen(w.db)
    && (forall t :: EventSound(w.db, t)) && (forall r :: ApplyingSound(w, r)) && (forall t :: EventsSettled(w, t))
  }

  ghost predicate Init(w: World) {
    w.db == Db([], map[], map[])
  }

  lemma ConcludeKeepsInv(w: World, w': World, r: nat, now: int, answers: Answers, seen: Chain)
    requires Inv(w) && NextBy(w, w', Conclude(r, now, answers, seen))
    ensures Inv(w')
  {
    var row := w.db.rows[r];
    var verdict := Check(row, now, answers);
    if verdict == Anchored { AnchoredIsSound(row, now, answers, seen, w.chain); }
    hide Check, Truthful;
    forall t ensures EventSound(w'.db, t) && EventsSettled(w', t) {
      assert EventSound(w.db, t) && EventsSettled(w, t);
    }
    forall q: nat ensures ApplyingSound(w', q) {
      assert ApplyingSound(w, q);
      if row.trade in w.db.trades { assert EventSound(w.db, row.trade); }
    }
  }

  lemma CommitKeepsInv(w: World, w': World, r: nat)
    requires Inv(w) && NextBy(w, w', Commit(r))
    ensures Inv(w')
  {
    assert ApplyingSound(w, r);
    forall t ensures EventSound(w'.db, t) && EventsSettled(w', t) {
      assert EventSound(w.db, t) && EventsSettled(w, t);
    }
    forall q: nat ensures ApplyingSound(w', q) {
      assert ApplyingSound(w, q);
      if q != r && q in w.db.held { assert IsOpen(w.db, q) && IsOpen(w.db, r); }
    }
  }

  lemma RecordKeepsInv(w: World, w': World, trade: nat, hash: nat, tx: Option<nat>, now: int)
    requires Inv(w) && NextBy(w, w', Record(trade, hash, tx, now))
    ensures Inv(w')
  {
    forall t ensures EventSound(w'.db, t) && EventsSettled(w', t) {
      assert EventSound(w.db, t) && EventsSettled(w, t);
    }
    forall q: nat ensures ApplyingSound(w', q) {
      assert ApplyingSound(w, q);
      if q in w.db.held { assert IsOpen(w.db, q); }
    }
    assert OneOpenRow(w'.db) by {
      forall r: int, q: int | IsOpen(w'.db, r) && IsOpen(w'.db, q) && w'.db.rows[r].trade == w'.db.rows[q].trade ensures r == q {
        assert 0 <= r < |w.db.rows| ==> IsOpen(w.db, r) && (w.db.rows[r].trade == trade ==> OpenFor(w.db, r, trade));
        assert 0 <= q < |w.db.rows| ==> IsOpen(w.db, q) && (w.db.rows[q].trade == trade ==> OpenFor(w.db, q, trade));
      }
    }
  }

  lemma OtherStepsKeepInv(w: World, w': World, s: Step)
    requires Inv(w) && NextBy(w, w', s) && !s.Record? && !s.Conclude? && !s.Commit?
    ensures Inv(w')
  {
    forall t ensures EventSound(w'.db, t) && EventsSettled(w', t) {
      assert EventSound(w.db, t) && EventsSettled(w, t);
    }
    forall q: nat ensures ApplyingSound(w', q) {
      assert ApplyingSound(w, q);
      if q in w.db.held { assert IsOpen(w.db, q); }
    }
  }

  lemma StepKeepsInv(w: World, w': World)
    requires Inv(w) && Next(w, w')
    ensures Inv(w')
  {
    hide Inv;
    var s :| NextBy(w, w', s);
    match s
    case Record(trade, hash, tx, now) => RecordKeepsInv(w, w', trade, hash, tx, now);
    case Conclude(r, now, answers, seen) => ConcludeKeepsInv(w, w', r, now, answers, seen);
    case Commit(r) => CommitKeepsInv(w, w', r);
    case _ => OtherStepsKeepInv(w, w', s);
  }

  // ----- runs -----

  ghost predicate Run(ws: seq<World>) {
    && ws != [] && Init(ws[0])
    && forall i :: 0 <= i < |ws| - 1 ==> Next(ws[i], ws[i + 1])
  }

  lemma {:induction false} RunKeepsInv(ws: seq<World>, i: nat)
    requires Run(ws) && i < |ws|
    ensures Inv(ws[i])
  {
    hide Next, Inv;
    if i == 0 {
      InitInv(ws[0]);
    } else {
      RunKeepsInv(ws, i - 1);
      assert Next(ws[i - 1], ws[i - 1 + 1]);
      StepKeepsInv(ws[i - 1], ws[i]);
    }
  }

  lemma InitInv(w: World)
    requires Init(w)
    ensures Inv(w)
  {
  }

  /** Over any interleaving: one open row a trade, at most one CONFIRMED event a trade, and
      an event only where the registry holds the record or the transaction was mined. */
  lemma ConfirmedAtMostOnce(ws: seq<World>, i: nat, t: nat)
    requires Run(ws) && i < |ws| && t in ws[i].db.trades
    ensures |ws[i].db.trades[t].events| <= 1
    ensures ws[i].db.trades[t].status == Confirmed <==> |ws[i].db.trades[t].events| == 1
    ensures forall r :: r in ws[i].db.trades[t].events ==>
      r < |ws[i].db.rows| && ws[i].db.rows[r].status == WasAnchored && Settled(ws[i].db.rows[r], ws[i].chain)
    ensures forall r, q :: OpenFor(ws[i].db, r, t) && OpenFor(ws[i].db, q, t) ==> r == q
  {
    RunKeepsInv(ws, i);
    assert EventSound(ws[i].db, t) && EventsSettled(ws[i], t);
  }

  /** A closed row stays as it was closed, and no row changes its trade, hash or time. */
  ghost predicate RowsStand(db: Db, db': Db) {
    && |db.rows| <= |db'.rows|
    && forall r :: 0 <= r < |db.rows| ==>
      && db'.rows[r].trade == db.rows[r].trade && db'.rows[r].hash == db.rows[r].hash && db'.rows[r].submitted == db.rows[r].submitted
      && db.rows[r].attempts <= db'.rows[r].attempts
      && (db.rows[r].status != Open ==> db'.rows[r].status == db.rows[r].status)
  }

  lemma StepKeepsRows(w: World, w': World)
    requires Next(w, w')
    ensures RowsStand(w.db, w'.db)
  {
  }

  lemma {:induction false} ClosedRowsStayClosed(ws: seq<World>, i: nat, j: nat)
    requires Run(ws) && i <= j < |ws|
    ensures RowsStand(ws[i].db, ws[j].db)
    decreases j - i
  {
    hide Next;
    if i < j {
      ClosedRowsStayClosed(ws, i, j - 1);
      assert Next(ws[j - 1], ws[j - 1 + 1]);
      StepKeepsRows(ws[j - 1], ws[j]);
    }
  }

  /** The step of a run in which a row was given up, and what the node had answered. */
  ghost predicate GaveUpAt(w: World, w': World, r: nat, now: int, answers: Answers, seen: Chain) {
    && NextBy(w, w', Conclude(r, now, answers, seen))
    && Check(w.db.rows[r], now, answers) == Failed && w'.db.trades == w.db.trades
  }

  /** Over any interleaving a failed row was given up in one step, which touched no trade,
      and then, if the reads succeeded, the chain did not settle it. */
  lemma {:induction false} FailedRowsWereUnsettled(ws: seq<World>, i: nat, r: nat) returns (j: nat, now: int, answers: Answers, seen: Chain)
    requires Run(ws) && i < |ws| && r < |ws[i].db.rows| && ws[i].db.rows[r].status == WasFailed
    ensures j < i && GaveUpAt(ws[j], ws[j + 1], r, now, answers, seen)
    ensures ReadsSucceed(ws[j].db.rows[r], answers) ==> !Settled(ws[j].db.rows[r], Chain(seen.records, ws[j].chain.mined))
  {
    hide Check, Truthful, Settled;
    assert i > 0;
    assert Next(ws[i - 1], ws[i - 1 + 1]);
    if r < |ws[i - 1].db.rows| && ws[i - 1].db.rows[r].status == WasFailed {
      j, now, answers, seen := FailedRowsWereUnsettled(ws, i - 1, r);
    } else {
      j := i - 1;
      now, answers, seen := FailingStep(ws[i - 1], ws[i], r);
      if ReadsSucceed(ws[j].db.rows[r], answers) { FailedIsSound(ws[j].db.rows[r], now, answers, seen, ws[j].chain); }
    }
  }

  lemma FailingStep(w: World, w': World, r: nat) returns (now: int, answers: Answers, seen: Chain)
    requires Next(w, w') && r < |w'.db.rows| && w'.db.rows[r].status == WasFailed
    requires r < |w.db.rows| ==> w.db.rows[r].status != WasFailed
    ensures GaveUpAt(w, w', r, now, answers, seen)
  {
    hide Check, Truthful;
    var s :| NextBy(w, w', s);
    assert s.Conclude? && s.row == r;
    now, answers, seen := s.now, s.answers, s.seen;
  }

  /** An event is written in the very step that flips its row, and a row is flipped without
      one only when its trade was no longer pending in that step. */
  lemma FlipAndEventTogether(w: World, w': World, r: nat)
    requires Inv(w) && Next(w, w') && r < |w.db.rows| && w.db.rows[r].trade in w.db.trades
    ensures w.db.rows[r].trade in w'.db.trades && |w'.db.rows| > r
    ensures r in w'.db.trades[w.db.rows[r].trade].events && r !in w.db.trades[w.db.rows[r].trade].events
      ==> w.db.rows[r].status == Open && w'.db.rows[r].status == WasAnchored
    ensures w.db.rows[r].status == Open && w'.db.rows[r].status == WasAnchored
      ==> r in w'.db.trades[w.db.rows[r].trade].events || w.db.trades[w.db.rows[r].trade].status != Pending
    ensures w'.db.rows[r].status == WasFailed && w.db.rows[r].status == Open ==> w'.db.trades == w.db.trades
  {
  }

  /** A check that read the record or the mined transaction closes its row as anchored or has
      its commit under way, whatever the row's age. */
  lemma AnchorIsTakenAtOnce(w: World, w': World, r: nat, now: int, answers: Answers, seen: Chain)
    requires NextBy(w, w', Conclude(r, now, answers, seen))
    requires answers.registry == Recorded || (w.db.rows[r].tx.Some? && answers.tx == Mined)
    ensures w'.db.rows[r].status == WasAnchored || (r in w'.db.held && w'.db.held[r] == Applying)
    ensures w.db.rows[r].trade in w.db.trades && w.db.trades[w.db.rows[r].trade].status == Pending
      ==> r in w'.db.held && w'.db.held[r] == Applying
  {
  }

  /** A completed check of a row past its greatest age closes it or is about to commit it. */
  lemma OldRowsAreDecided(w: World, w': World, r: nat, now: int, answers: Answers, seen: Chain)
    requires NextBy(w, w', Conclude(r, now, answers, seen)) && now > w.db.rows[r].submitted + 7200
    ensures w'.db.rows[r].status != Open || (r in w'.db.held && w'.db.held[r] == Applying)
  {
  }

  /** The commit does not look at the trade again: whatever it became since it was loaded,
      it is confirmed. */
  lemma CommitConfirmsRegardless(w: World, w': World, r: nat)
    requires Inv(w) && NextBy(w, w', Commit(r))
    ensures w.db.trades[w.db.rows[r].trade].status != Confirmed
    ensures w'.db.trades == w.db.trades[w.db.rows[r].trade := Trade(Confirmed, [r])]
  {
    assert ApplyingSound(w, r);
    assert EventSound(w.db, w.db.rows[r].trade);
    assert w.db.trades[w.db.rows[r].trade].events + [r] == [r];
  }

  /** A run that leaves a reconciler about to confirm trade 0. */
  ghost predicate AboutToConfirm(ws: seq<World>) {
    && Run(ws)
    && ws[|ws| - 1] == World(Db([Row(0, 0, None, 0, Open, 0)], map[0 := Trade(Pending, [])], map[0 := Applying]), Chain({0}, {}))
  }

  lemma ATradeIsLoaded() returns (ws: seq<World>)
    ensures AboutToConfirm(ws)
  {
    var chain, row, t := Chain({0}, {}), Row(0, 0, None, 0, Open, 0), map[0 := Trade(Pending, [])];
    var w0, w1, w2 := World(Db([], map[], map[]), chain), World(Db([], t, map[]), chain), World(Db([row], t, map[]), chain);
    var w3, w4 := World(Db([row], t, map[0 := Locked]), chain), World(Db([row], t, map[0 := Applying]), chain);
    assert NextBy(w0, w1, Book(0));
    assert NextBy(w1, w2, Record(0, 0, None, 0)) by { assert forall r :: !OpenFor(w1.db, r, 0); }
    assert NextBy(w2, w3, Lock(0));
    assert NextBy(w3, w4, Conclude(0, 0, Answers(Recorded, Unknown), chain));
    hide NextBy;
    ws := [w0, w1, w2, w3, w4];
  }

  /** A trade that leaves PENDING between the load and the commit ends confirmed. */
  lemma ATradeThatLeftIsConfirmed()
    ensures exists ws, left, done ::
      && AboutToConfirm(ws) && Next(ws[|ws| - 1], left) && left.db.trades[0].status == Other
      && Next(left, done) && done.db.trades[0] == Trade(Confirmed, [0])
  {
    var ws := ATradeIsLoaded();
    assert ws != [];
    hide Run;
    var w := ws[|ws| - 1];
    var left := w.(db := w.db.(trades := map[0 := Trade(Other, [])]));
    assert NextBy(w, left, Leave(0));
    var done := w.(db := Committed(left.db, 0));
    assert NextBy(left, done, Commit(0));
    assert [] + [0] == [0];
  }

  // ----- the store's own methods -----

  datatype Outcome = Applied | StillPending | GaveUp | Gone | Raised

  /** How the transition ends: committed, or rolled back with an error. */
  datatype Apply = Succeeds | Raises

  /** What one uninterrupted call makes of an open row. */
  function Resolved(db: Db, r: nat, now: int, answers: Option<Answers>, apply: Apply): (Db, Outcome)
    requires r < |db.rows|
  {
    var row := db.rows[r];
    if row.status != Open then (db, Gone)
    else if answers.None? then (SetRow(db, r, Closed(row, Open)), StillPending)
    else
      match Check(row, now, answers.value)
      case Waiting => (SetRow(db, r, Closed(row, Open)), StillPending)
      case Failed => (SetRow(db, r, Closed(row, WasFailed)), GaveUp)
      case Anchored =>
        if row.trade !in db.trades || db.trades[row.trade].status != Pending then (SetRow(db, r, Closed(row, WasAnchored)), Gone)
        else if apply == Raises then (SetRow(db, r, Closed(row, Open)), Raised)
        else (Committed(db, r), Applied)
  }

  /** A call that read the record or the mined transaction of a pending trade confirms it
      there and then, when the transition succeeds. */
  lemma AnchorConfirmsTheTrade(db: Db, r: nat, now: int, answers: Answers)
    requires IsOpen(db, r) && db.rows[r].trade in db.trades && db.trades[db.rows[r].trade].status == Pending
    requires answers.registry == Recorded || (db.rows[r].tx.Some? && answers.tx == Mined)
    ensures var t, after := db.rows[r].trade, Resolved(db, r, now, Some(answers), Succeeds);
            && after.1 == Applied && after.0.rows[r] == db.rows[r].(status := WasAnchored, attempts := db.rows[r].attempts + 1)
            && after.0.trades == db.trades[t := Trade(Confirmed, db.trades[t].events + [r])]
  {
  }

  predicate Known(db: Db, ids: seq<nat>) {
    forall i :: 0 <= i < |ids| ==> ids[i] < |db.rows|
  }

  /** The rows of a pass, one after the other, and what became of each. */
  function ResolvedAll(db: Db, ids: seq<nat>, now: int, answers: nat -> Option<Answers>, apply: nat -> Apply): (r: (Db, seq<Outcome>))
    requires Known(db, ids)
    ensures |r.0.rows| == |db.rows| && |r.1| == |ids|
  {
    if ids == [] then (db, [])
    else
      var before := ResolvedAll(db, ids[..|ids| - 1], now, answers, apply);
      var id := ids[|ids| - 1];
      var last := Resolved(before.0, id, now, answers(id), apply(id));
      (last.0, before.1 + [last.1])
  }

  lemma NothingResolved(db: Db, ids: seq<nat>, now: int, answers: nat -> Option<Answers>, apply: nat -> Apply)
    ensures ResolvedAll(db, ids[..0], now, answers, apply) == (db, [])
  {
  }

  lemma OneMoreResolved(db: Db, ids: seq<nat>, n: nat, now: int, answers: nat -> Option<Answers>, apply: nat -> Apply)
    requires Known(db, ids) && n < |ids|
    ensures Known(db, ids[..n + 1]) && Known(db, ids[..n])
    ensures var before := ResolvedAll(db, ids[..n], now, answers, apply);
      |before.0.rows| == |db.rows| &&
      var last := Resolved(before.0, ids[n], now, answers(ids[n]), apply(ids[n]));
      |last.0.rows| == |db.rows| && ResolvedAll(db, ids[..n + 1], now, answers, apply) == (last.0, before.1 + [last.1])
  {
    hide Check;
    assert ids[..n + 1][..n] == ids[..n];
  }

  ghost predicate Reaches(w: World, w': World) {
    exists ws: seq<World> :: Path(ws, w, w')
  }

  ghost predicate Path(ws: seq<World>, w: World, w': World) {
    ws != [] && ws[0] == w && ws[|ws| - 1] == w' && forall i :: 0 <= i < |ws| - 1 ==> Next(ws[i], ws[i + 1])
  }

  /** A call is a path of steps: lock, check, then commit or roll back and count. */
  lemma CallTakesSteps(w: World, r: nat, now: int, answers: Option<Answers>, seen: Chain, apply: Apply)
    requires HeldAreOpen(w.db) && w.db.held == map[] && IsOpen(w.db, r)
    requires answers.Some? ==> Grows(seen, w.chain) && Truthful(w.db.rows[r], answers.value, seen, w.chain)
    ensures Reaches(w, w.(db := Resolved(w.db, r, now, answers, apply).0))
  {
    hide Check, Truthful;
    var end := w.(db := Resolved(w.db, r, now, answers, apply).0);
    var locked := w.(db := w.db.(held := map[r := Locked]));
    assert NextBy(w, locked, Lock(r));
    if answers.None? {
      assert NextBy(locked, w, RollBack(r)) by { assert locked.db.held - {r} == map[]; }
      assert NextBy(w, end, CountAttempt(r));
      assert Path([w, locked, w, end], w, end);
    } else {
      var checked := w.(db := Concluded(locked.db, r, Check(w.db.rows[r], now, answers.value)));
      assert NextBy(locked, checked, Conclude(r, now, answers.value, seen));
      if r !in checked.db.held {
        assert checked.db.held == map[];
        assert Path([w, locked, checked], w, end);
      } else if apply == Succeeds {
        assert checked.db.held - {r} == map[];
        assert NextBy(checked, end, Commit(r));
        assert Path([w, locked, checked, end], w, end);
      } else {
        assert checked.db.held - {r} == map[];
        assert NextBy(checked, w, RollBack(r));
        assert NextBy(w, end, CountAttempt(r));
        assert Path([w, locked, checked, w, end], w, end);
      }
    }
  }

  class Store {
    var rows: seq<Row>
    var trades: map<nat, Trade>

    function Now(): Db
      reads this
    {
      Db(rows, trades, map[])
    }

    method Record(trade: nat, hash: nat, tx: Option<nat>, now: int) returns (r: nat)
      requires OneOpenRow(Now())
      modifies this`rows
      ensures Recording(old(Now()), Now(), trade, hash, tx, now) && OneOpenRow(Now())
      ensures OpenFor(Now(), r, trade)
    {
      r := 0;
      while r < |rows| && !(rows[r].status == Open && rows[r].trade == trade)
        invariant r <= |rows|
        invariant forall q: int :: q < r ==> !OpenFor(Now(), q, trade)
      {
        r := r + 1;
      }
      ghost var before := Now();
      if r < |rows| {
        assert OpenFor(before, r, trade);
        rows := rows[r := rows[r].(tx := Coalesce(tx, rows[r].tx))];
        forall q | OpenFor(before, q, trade) ensures q == r {
          assert IsOpen(before, q) && IsOpen(before, r);
        }
      } else {
        rows := rows + [Row(trade, hash, tx, now, Open, 0)];
      }
      forall p: int, q: int | IsOpen(Now(), p) && IsOpen(Now(), q) && Now().rows[p].trade == Now().rows[q].trade ensures p == q {
        assert 0 <= p < |before.rows| ==> IsOpen(before, p) && (before.rows[p].trade == trade ==> OpenFor(before, p, trade));
        assert 0 <= q < |before.rows| ==> IsOpen(before, q) && (before.rows[q].trade == trade ==> OpenFor(before, q, trade));
      }
    }

    /** One call with no other transaction in between; `answers` is absent when the check raised. */
    method Resolve(r: nat, now: int, answers: Option<Answers>, apply: Apply) returns (outcome: Outcome)
      requires r < |rows|
      modifies this
      ensures (Now(), outcome) == old(Resolved(Now(), r, now, answers, apply))
    {
      if rows[r].status != Open { return Gone; }
      if answers.None? {
        rows := rows[r := Closed(rows[r], Open)];
        return StillPending;
      }
      var verdict := Check(rows[r], now, answers.value);
      if verdict == Waiting {
        rows := rows[r := Closed(rows[r], Open)];
        return StillPending;
      }
      if verdict == Failed {
        rows := rows[r := Closed(rows[r], WasFailed)];
        return GaveUp;
      }
      var t := rows[r].trade;
      if t !in trades || trades[t].status != Pending {
        rows := rows[r := Closed(rows[r], WasAnchored)];
        return Gone;
      }
      if apply == Raises {
        rows := rows[r := Closed(rows[r], Open)];
        return Raised;
      }
      rows := rows[r := Closed(rows[r], WasAnchored)];
      trades := trades[t := Trade(Confirmed, trades[t].events + [r])];
      outcome := Applied;
    }

    /** The open rows, oldest first, at most `limit` of them. */
    method OpenRows(limit: nat) returns (ids: seq<nat>)
      ensures OldestOpen(Now(), ids, limit)
    {
      ids := [];
      var picked: set<nat> := {};
      while |ids| < limit
        invariant |ids| <= limit && OldestFirst(Now(), ids)
        invariant forall r: nat :: r in picked <==> r in ids
        decreases limit - |ids|
      {
        var next: Option<nat> := None;
        var r: nat := 0;
        while r < |rows|
          invariant r <= |rows|
          invariant next.Some? ==> IsOpen(Now(), next.value) && next.value !in ids
          invariant forall q: nat :: q < r && IsOpen(Now(), q) && q !in ids ==> next.Some? && rows[next.value].submitted <= rows[q].submitted
        {
          if rows[r].status == Open && r !in picked && (next.None? || rows[r].submitted < rows[next.value].submitted) {
            next := Some(r);
          }
          r := r + 1;
        }
        if next.None? { return; }
        PickOldest(Now(), ids, next.value);
        ids := ids + [next.value];
        picked := picked + {next.value};
      }
    }

    /** One pass: every open row, up to the limit, is resolved once, oldest first; the
        summary counts the outcomes. */
    method ReconcilePending(limit: nat, now: int, answers: nat -> Option<Answers>, apply: nat -> Apply)
      returns (ids: seq<nat>, counts: multiset<Outcome>)
      modifies this
      ensures OldestOpen(old(Now()), ids, limit)
      ensures Now() == ResolvedAll(old(Now()), ids, now, answers, apply).0
      ensures counts == multiset(ResolvedAll(old(Now()), ids, now, answers, apply).1) && |counts| == |ids|
    {
      hide Resolved, ResolvedAll, OldestOpen;
      ids := OpenRows(limit);
      counts := multiset{};
      ghost var start := Now();
      NothingResolved(start, ids, now, answers, apply);
      OldestAreKnown(start, ids, limit);
      var n := 0;
      while n < |ids|
        invariant 0 <= n <= |ids| && |rows| == |start.rows|
        invariant Now() == ResolvedAll(start, ids[..n], now, answers, apply).0
        invariant counts == multiset(ResolvedAll(start, ids[..n], now, answers, apply).1) && |counts| == n
      {
        OneMoreResolved(start, ids, n, now, answers, apply);
        var outcome := Resolve(ids[n], now, answers(ids[n]), apply(ids[n]));
        counts := counts + multiset{outcome};
        n := n + 1;
      }
      assert ids[..n] == ids;
    }
  }

  /** Distinct open rows, each no younger than the next and than any open row left out. */
  ghost predicate OldestFirst(db: Db, ids: seq<nat>) {
    && (forall i :: 0 <= i < |ids| ==> IsOpen(db, ids[i]))
    && (forall i, j :: 0 <= i < j < |ids| ==> ids[i] != ids[j] && db.rows[ids[i]].submitted <= db.rows[ids[j]].submitted)
    && (forall i, r: nat :: 0 <= i < |ids| && IsOpen(db, r) && r !in ids ==> db.rows[ids[i]].submitted <= db.rows[r].submitted)
  }

  /** The `limit` oldest open rows, or all of them when there are fewer. */
  ghost predicate OldestOpen(db: Db, ids: seq<nat>, limit: nat) {
    OldestFirst(db, ids) && |ids| <= limit && (|ids| < limit ==> forall r: nat :: IsOpen(db, r) ==> r in ids)
  }

  lemma OldestAreKnown(db: Db, ids: seq<nat>, limit: nat)
    requires OldestOpen(db, ids, limit)
    ensures Known(db, ids)
  {
  }

  lemma PickOldest(db: Db, ids: seq<nat>, r: nat)
    requires OldestFirst(db, ids) && IsOpen(db, r) && r !in ids
    requires forall q: nat :: IsOpen(db, q) && q !in ids ==> db.rows[r].submitted <= db.rows[q].submitted
    ensures OldestFirst(db, ids + [r])
  {
  }

  /** A pass over distinct rows finds each as the pass found it: what one resolution does
      leaves the other rows alone. */
  lemma {:induction false} PassLeavesOtherRows(db: Db, ids: seq<nat>, now: int, answers: nat -> Option<Answers>, apply: nat -> Apply, r: nat)
    requires Known(db, ids) && r < |db.rows| && r !in ids
    ensures ResolvedAll(db, ids, now, answers, apply).0.rows[r] == db.rows[r]
  {
    if ids != [] { PassLeavesOtherRows(db, ids[..|ids| - 1], now, answers, apply, r); }
  }
}
