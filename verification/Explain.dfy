/** Day-on-day P&L of one trade by sequential full revaluation, and what its rows add up to
    over a day and over the trade's life. */
module Explain {
  import opened Market
  import opened Options

  type Day = int

  /** The curves a trade is valued on. */
  datatype Trade = Trade(id: string, ccy: string, rateCurves: seq<string>, volCurves: seq<string>,
      spot: Option<string>, points: Option<string>)
  {
    function Curves(): seq<string> {
      rateCurves + volCurves
    }

    /** Spot and forward points are curves of their own. */
    predicate Distinct() {
      && (spot.Some? ==> spot.value !in Curves())
      && (points.Some? ==> points.value !in Curves() && points != spot)
    }
  }

  type Pricer = (Trade, Day, Snapshot) -> real

  datatype Bucket = Carry | Cash | RateMove | Fx | Vol | Residual | Amend | New | Unwind

  datatype Row = Row(bucket: Bucket, ccy: string, pnl: real)

  function SumIn(rows: seq<Row>, ccy: string): real {
    if rows == [] then 0.0
    else
      var last := rows[|rows| - 1];
      SumIn(rows[..|rows| - 1], ccy) + (if last.ccy == ccy then last.pnl else 0.0)
  }

  lemma SumAppend(rows: seq<Row>, r: Row, ccy: string)
    ensures SumIn(rows + [r], ccy) == SumIn(rows, ccy) + (if r.ccy == ccy then r.pnl else 0.0)
  {
  }

  // ----- settled cash -----

  /** A scheduled payment of a leg; `pays` when the leg's direction is ours to pay. */
  datatype Payment = Payment(date: Day, ccy: string, amount: Option<real>, pays: bool)

  /** A signed amount is taken as it is, an unsigned one gets the leg's sign. */
  function Flow(p: Payment): real {
    if p.amount.None? then 0.0
    else if p.amount.value < 0.0 || !p.pays then p.amount.value
    else -p.amount.value
  }

  predicate Settles(p: Payment, d0: Day, d1: Day) {
    d0 <= p.date < d1 && p.amount.Some?
  }

  /** What settles in `ccy` in `[d0, d1)`. */
  function CashIn(ps: seq<Payment>, ccy: string, d0: Day, d1: Day): real {
    if ps == [] then 0.0
    else
      var last := ps[|ps| - 1];
      CashIn(ps[..|ps| - 1], ccy, d0, d1) + (if Settles(last, d0, d1) && last.ccy == ccy then Flow(last) else 0.0)
  }

  /** Windows that meet count each payment once. */
  lemma {:induction false} WindowsJoin(ps: seq<Payment>, ccy: string, d0: Day, d1: Day, d2: Day)
    requires d0 <= d1 <= d2
    ensures CashIn(ps, ccy, d0, d2) == CashIn(ps, ccy, d0, d1) + CashIn(ps, ccy, d1, d2)
  {
    if ps != [] { WindowsJoin(ps[..|ps| - 1], ccy, d0, d1, d2); }
  }

  /** An unsigned payment of a leg we pay goes out; of a leg we receive, or already signed, it
      is what it says. */
  lemma OnePaymentSettles(p: Payment, d0: Day, d1: Day, amount: real)
    requires d0 <= p.date < d1 && p.amount == Some(amount)
    ensures p.pays && amount >= 0.0 ==> CashIn([p], p.ccy, d0, d1) == 0.0 - amount
    ensures !p.pays || amount < 0.0 ==> CashIn([p], p.ccy, d0, d1) == amount
    ensures forall c :: c != p.ccy ==> CashIn([p], c, d0, d1) == 0.0
  {
    assert [p][..0] == [];
  }

  /** A payment without an amount, or outside the window, settles nothing. */
  lemma NothingToSettle(p: Payment, c: string, d0: Day, d1: Day)
    requires p.date < d0 || d1 <= p.date || p.amount.None?
    ensures CashIn([p], c, d0, d1) == 0.0
  {
    assert [p][..0] == [];
  }

  /** The settled cash of two schedules together. */
  lemma {:induction false} CashAddsUp(ps: seq<Payment>, qs: seq<Payment>, c: string, d0: Day, d1: Day)
    ensures CashIn(ps + qs, c, d0, d1) == CashIn(ps, c, d0, d1) + CashIn(qs, c, d0, d1)
  {
    if qs == [] {
      assert ps + qs == ps;
    } else {
      assert (ps + qs)[..|ps + qs| - 1] == ps + qs[..|qs| - 1];
      CashAddsUp(ps, qs[..|qs| - 1], c, d0, d1);
    }
  }

  /** The schedule of the same trade booked from the other side, its amounts unsigned. */
  ghost predicate OtherSide(ps: seq<Payment>, qs: seq<Payment>) {
    |ps| == |qs| && forall i :: 0 <= i < |ps| ==>
      (ps[i].amount.Some? ==> ps[i].amount.value >= 0.0) && qs[i] == ps[i].(pays := !ps[i].pays)
  }

  /** What one side receives the other pays. */
  lemma {:induction false} OtherSidePays(ps: seq<Payment>, qs: seq<Payment>, c: string, d0: Day, d1: Day)
    requires OtherSide(ps, qs)
    ensures CashIn(qs, c, d0, d1) == 0.0 - CashIn(ps, c, d0, d1)
  {
    if ps != [] { OtherSidePays(ps[..|ps| - 1], qs[..|qs| - 1], c, d0, d1); }
  }

  function InMap(m: map<string, real>, c: string): real {
    if c in m then m[c] else 0.0
  }

  method CashSettled(ps: seq<Payment>, d0: Day, d1: Day) returns (out: map<string, real>)
    ensures forall c :: InMap(out, c) == CashIn(ps, c, d0, d1)
    ensures forall c :: c in out <==> exists p :: p in ps && Settles(p, d0, d1) && p.ccy == c
  {
    out := map[];
    var n := 0;
    while n < |ps|
      invariant 0 <= n <= |ps|
      invariant forall c :: InMap(out, c) == CashIn(ps[..n], c, d0, d1)
      invariant forall c :: c in out <==> exists i :: 0 <= i < n && Settles(ps[i], d0, d1) && ps[i].ccy == c
    {
      assert ps[..n + 1][..n] == ps[..n];
      if Settles(ps[n], d0, d1) {
        out := out[ps[n].ccy := InMap(out, ps[n].ccy) + Flow(ps[n])];
      }
      n := n + 1;
    }
    assert ps[..n] == ps;
  }

  // ----- valuations -----

  /** Each trade, date and market is priced once. */
  class Valuer {
    const price: Pricer
    var memo: map<(Trade, Day, Snapshot), real>
    var calls: nat

    ghost predicate Valid()
      reads this
    {
      |memo| == calls && forall k :: k in memo ==> memo[k] == price(k.0, k.1, k.2)
    }

    constructor (p: Pricer)
      ensures Valid() && price == p && calls == 0
    {
      price, memo, calls := p, map[], 0;
    }

    method Value(trade: Trade, d: Day, m: Snapshot) returns (v: real)
      requires Valid()
      modifies this
      ensures Valid() && v == price(trade, d, m)
      ensures calls == old(calls) + if (trade, d, m) in old(memo) then 0 else 1
    {
      var key := (trade, d, m);
      if key !in memo {
        calls := calls + 1;
        memo := memo[key := price(trade, d, m)];
      }
      v := memo[key];
    }
  }

  // ----- where the steps lead -----

  /** The rates of a curve after its moves: whole when either side has at most one quote,
      bucket by bucket otherwise, and untouched when one side is missing. */
  function Final(q0: Option<Quotes>, q1: Option<Quotes>, years: Years): Option<Rates> {
    if q0.None? then None
    else if q1.None? then Some(AsMap(q0.value))
    else if |q0.value| <= 1 || |q1.value| <= 1 then Some(AsMap(q1.value))
    else Some(Blend(AsMap(q0.value), AsMap(q1.value), years, BOUNDS[0], BOUNDS[4]))
  }

  /** What the pricer reads of a market for a trade: rates by key, spot, and points. */
  datatype View = View(curves: map<string, Option<Rates>>, spot: Option<real>, points: Option<Rates>)

  function ViewOf(trade: Trade, m: Snapshot): View {
    View(map c | c in trade.Curves() :: m.Rates(c),
         if trade.spot.Some? then m.Single(trade.spot.value, "SPOT") else None,
         if trade.points.Some? then m.Rates(trade.points.value) else None)
  }

  ghost predicate ReadsOnlyDeclared(price: Pricer, trade: Trade) {
    forall d, m, m' :: ViewOf(trade, m) == ViewOf(trade, m') ==> price(trade, d, m) == price(trade, d, m')
  }

  /** Where the moves of one curve end on today's quotes. */
  ghost predicate Reaches(q0: Option<Quotes>, q1: Option<Quotes>, years: Years) {
    && (q0.Some? <==> q1.Some?)
    && (q0.Some? ==>
      || |q0.value| <= 1 || |q1.value| <= 1
      || (AsMap(q0.value).Keys <= AsMap(q1.value).Keys
          && forall k :: k in AsMap(q1.value) && !Within(years, k, BOUNDS[0], BOUNDS[4]) ==> k in AsMap(q0.value) && AsMap(q0.value)[k] == AsMap(q1.value)[k]))
  }

  lemma FinalReachesIff(q0: Option<Quotes>, q1: Option<Quotes>, years: Years)
    ensures Final(q0, q1, years) == (if q1.Some? then Some(AsMap(q1.value)) else None) <==> Reaches(q0, q1, years)
  {
    if q0.Some? && q1.Some? && |q0.value| > 1 && |q1.value| > 1 {
      var a, b := AsMap(q0.value), AsMap(q1.value);
      hide AsMap, Blend;
      BlendReachesIff(a, b, years, BOUNDS[0], BOUNDS[4]);
    }
  }

  lemma BlendReachesIff(a: Rates, b: Rates, years: Years, lo: real, hi: real)
    ensures Blend(a, b, years, lo, hi) == b <==>
      (a.Keys <= b.Keys && forall k :: k in b && !Within(years, k, lo, hi) ==> k in a && a[k] == b[k])
  {
    var f := Blend(a, b, years, lo, hi);
    assert forall k :: k in f <==> k in a || (k in b && Within(years, k, lo, hi));
    if f == b {
      assert forall k :: k in a ==> k in f;
      assert forall k :: k in b ==> k in f && f[k] == b[k];
    }
  }

  /** The stepped market: every curve at its final rates, spot and points as moved. */
  ghost predicate Stepped(trade: Trade, m0: Snapshot, m1: Snapshot, years: Years, m: Snapshot) {
    && (forall c :: c in trade.Curves() ==> m.Rates(c) == Final(m0.Quotes(c), m1.Quotes(c), years))
    && SpotMoved(trade, m0, m1, m) && PointsMoved(trade, m0, m1, m)
  }

  ghost predicate SpotMoved(trade: Trade, m0: Snapshot, m1: Snapshot, m: Snapshot) {
    trade.spot.Some? ==>
      m.Single(trade.spot.value, "SPOT") == Moved(m0.Single(trade.spot.value, "SPOT"), m1.Single(trade.spot.value, "SPOT"))
  }

  ghost predicate PointsMoved(trade: Trade, m0: Snapshot, m1: Snapshot, m: Snapshot) {
    trade.points.Some? ==> m.Rates(trade.points.value) == Moved(m0.Rates(trade.points.value), m1.Rates(trade.points.value))
  }

  function Moved<T>(x0: Option<T>, x1: Option<T>): Option<T> {
    if x0.Some? && x1.Some? then x1 else x0
  }

  /** Every declared curve is quoted on both dates or neither, and no tenor was dropped. */
  ghost predicate StepsReach(trade: Trade, m0: Snapshot, m1: Snapshot, years: Years) {
    && (forall c :: c in trade.Curves() ==> Reaches(m0.Quotes(c), m1.Quotes(c), years))
    && (trade.spot.Some? ==> (m0.Single(trade.spot.value, "SPOT").Some? <==> m1.Single(trade.spot.value, "SPOT").Some?))
    && (trade.points.Some? ==> (m0.Rates(trade.points.value).Some? <==> m1.Rates(trade.points.value).Some?))
  }

  /** The stepped market reads as today's exactly when the steps reach it. */
  lemma SteppedAgreesIff(trade: Trade, m0: Snapshot, m1: Snapshot, years: Years, m: Snapshot)
    requires Stepped(trade, m0, m1, years, m)
    ensures ViewOf(trade, m) == ViewOf(trade, m1) <==> StepsReach(trade, m0, m1, years)
  {
    hide Final, Reaches, AsMap, First;
    forall c | c in trade.Curves() ensures m.Rates(c) == m1.Rates(c) <==> Reaches(m0.Quotes(c), m1.Quotes(c), years) {
      FinalReachesIff(m0.Quotes(c), m1.Quotes(c), years);
    }
    var a, b := ViewOf(trade, m), ViewOf(trade, m1);
    assert forall c :: c in trade.Curves() ==> a.curves[c] == m.Rates(c) && b.curves[c] == m1.Rates(c);
    if StepsReach(trade, m0, m1, years) { assert a.curves == b.curves; }
  }

  // ----- the moves -----

  /** One move of the market: of a rate curve, of spot, of the points, of a volatility surface
      (stages 0 to 3), by its place among the curves of its stage and its tenor bucket. */
  datatype Move = Move(stage: nat, place: nat, tenors: nat)

  predicate Before(a: Move, b: Move) {
    || a.stage < b.stage
    || (a.stage == b.stage && (a.place < b.place || (a.place == b.place && a.tenors < b.tenors)))
  }

  ghost predicate AllBefore(moves: seq<Move>, b: Move) {
    forall i :: 0 <= i < |moves| ==> Before(moves[i], b)
  }

  /** What is explained: a trade, its pricer, today, and the two markets. */
  datatype Scene = Scene(price: Pricer, trade: Trade, day: Day, m0: Snapshot, m1: Snapshot, years: Years)

  function CurveOf(t: Trade, mv: Move): Option<string> {
    if mv.stage == 0 && mv.place < |t.rateCurves| then Some(t.rateCurves[mv.place])
    else if mv.stage == 1 then t.spot
    else if mv.stage == 2 then t.points
    else if mv.stage == 3 && mv.place < |t.volCurves| then Some(t.volCurves[mv.place])
    else None
  }

  function BucketOf(mv: Move): Bucket {
    if mv.stage == 0 then RateMove else if mv.stage == 3 then Vol else Fx
  }

  /** The market `b` is `a` with one curve moved towards today's: spot and points whole, a
      curve of one quote whole, any other in the tenors of one bucket. */
  ghost predicate Made(s: Scene, a: Snapshot, b: Snapshot, mv: Move) {
    match CurveOf(s.trade, mv)
    case None => false
    case Some(c) =>
      if mv.stage == 1 then
        s.m1.Single(c, "SPOT").Some? && b == a.WithSingle(c, "SPOT", s.m1.Single(c, "SPOT").value)
      else
        && s.m0.Quotes(c).Some? && s.m1.Quotes(c).Some?
        && if mv.stage == 2 then b == a.Override(c, s.m1.Quotes(c).value)
           else CurveMoved(s, a, b, c, s.m0.Quotes(c).value, s.m1.Quotes(c).value, mv.tenors)
  }

  ghost predicate CurveMoved(s: Scene, a: Snapshot, b: Snapshot, c: string, q0: Quotes, q1: Quotes, tenors: nat) {
    if |q0| <= 1 || |q1| <= 1 then tenors == 0 && b == a.Override(c, q1)
    else
      && a.Quotes(c).Some? && b.Quotes(c).Some? && b == a.Override(c, b.Quotes(c).value) && tenors < 4
      && AsMap(b.Quotes(c).value) == Blend(AsMap(a.Quotes(c).value), AsMap(q1), s.years, BOUNDS[tenors], BOUNDS[tenors + 1])
  }

  /** The row of a move: what the trade is worth more on the market after it than before. */
  function RowOf(s: Scene, a: Snapshot, b: Snapshot, mv: Move): Row {
    Row(BucketOf(mv), s.trade.ccy, s.price(s.trade, s.day, b) - s.price(s.trade, s.day, a))
  }

  ghost predicate StepAt(s: Scene, steps: seq<Row>, moves: seq<Move>, path: seq<Snapshot>, i: nat)
    requires i < |steps| && i < |moves| && i + 1 < |path|
  {
    Made(s, path[i], path[i + 1], moves[i]) && steps[i] == RowOf(s, path[i], path[i + 1], moves[i])
  }

  ghost predicate InOrder(moves: seq<Move>) {
    forall i, j :: 0 <= i < j < |moves| ==> Before(moves[i], moves[j])
  }

  /** From yesterday's market to `m` by the moves, in their order, a row for each. */
  ghost predicate Walk(s: Scene, steps: seq<Row>, moves: seq<Move>, path: seq<Snapshot>, m: Snapshot) {
    && |steps| == |moves| && |path| == |moves| + 1 && path[0] == s.m0 && path[|moves|] == m
    && (forall i: nat :: i < |moves| ==> StepAt(s, steps, moves, path, i)) && InOrder(moves)
  }

  lemma WalkOn(s: Scene, steps: seq<Row>, moves: seq<Move>, path: seq<Snapshot>, a: Snapshot, b: Snapshot, mv: Move)
    requires Walk(s, steps, moves, path, a) && Made(s, a, b, mv) && AllBefore(moves, mv)
    ensures Walk(s, steps + [RowOf(s, a, b, mv)], moves + [mv], path + [b], b)
  {
    hide Made, RowOf, Before;
    var steps', moves', path' := steps + [RowOf(s, a, b, mv)], moves + [mv], path + [b];
    forall i: nat | i < |moves'| ensures StepAt(s, steps', moves', path', i) {
      if i < |moves| { assert StepAt(s, steps, moves, path, i); }
    }
  }

  lemma RatesAre(m: Snapshot, c: string)
    ensures m.Rates(c) == if m.Quotes(c).Some? then Some(AsMap(m.Quotes(c).value)) else None
  {
  }

  lemma OverrideReads(m: Snapshot, c: string, qs: Quotes)
    ensures m.Override(c, qs).Rates(c) == Some(AsMap(qs))
    ensures forall d :: d != c ==> m.Override(c, qs).Quotes(d) == m.Quotes(d)
  {
  }

  lemma BucketMade(s: Scene, a: Snapshot, c: string, q0: Quotes, q1: Quotes, out: Quotes, mv: Move)
    requires CurveOf(s.trade, mv) == Some(c) && (mv.stage == 0 || mv.stage == 3) && mv.tenors < 4 && a.Quotes(c).Some?
    requires s.m0.Quotes(c) == Some(q0) && s.m1.Quotes(c) == Some(q1) && |q0| > 1 && |q1| > 1
    requires AsMap(out) == Blend(AsMap(a.Quotes(c).value), AsMap(q1), s.years, BOUNDS[mv.tenors], BOUNDS[mv.tenors + 1])
    ensures Made(s, a, a.Override(c, out), mv)
  {
    hide AsMap, Blend, CurveOf;
  }

  lemma StillBefore(moves: seq<Move>, a: Move, b: Move)
    requires AllBefore(moves, a) && (a == b || Before(a, b))
    ensures AllBefore(moves, b)
  {
  }

  lemma BeforeTheNext(moves: seq<Move>, a: Move, b: Move)
    requires AllBefore(moves, a) && Before(a, b)
    ensures AllBefore(moves + [a], b)
  {
  }

  /** What rows hold in `c` beyond a mark in `ccy`. */
  function Balanced(rows: seq<Row>, ccy: string, mark: real, c: string): real {
    SumIn(rows, c) - if c == ccy then mark else 0.0
  }

  lemma BalanceKept(rows: seq<Row>, r: Row, ccy: string, cur: real, next: real, c: string)
    requires r.ccy == ccy && r.pnl == next - cur
    ensures Balanced(rows + [r], ccy, next, c) == Balanced(rows, ccy, cur, c)
  {
    SumAppend(rows, r, c);
    hide SumIn;
  }

  // ----- the steps -----

  /** The state of one explain run: the market moved so far, its mark and the rows of its moves. */
  class Run {
    const valuer: Valuer
    const trade: Trade
    const day: Day
    const m0: Snapshot
    const m1: Snapshot
    const years: Years
    var mk: Snapshot
    var cur: real
    var rows: seq<Row>
    ghost var moves: seq<Move>
    ghost var path: seq<Snapshot>

    ghost predicate Valid()
      reads this, valuer
    {
      valuer.Valid() && cur == valuer.price(trade, day, mk)
    }

    ghost function Explaining(): Scene {
      Scene(valuer.price, trade, day, m0, m1, years)
    }

    /** The rows are the moves made, in order. */
    ghost predicate Walked()
      reads this
    {
      Walk(Explaining(), rows, moves, path, mk)
    }

    ghost predicate Past(mv: Move)
      reads this
    {
      Walked() && AllBefore(moves, mv)
    }

    /** What the rows hold beyond the mark; no step changes it. */
    function Balance(c: string): real
      reads this
    {
      Balanced(rows, trade.ccy, cur, c)
    }

    ghost predicate Untouched(c: string)
      reads this
    {
      mk.Quotes(c) == m0.Quotes(c)
    }

    constructor (v: Valuer, t: Trade, d: Day, a: Snapshot, b: Snapshot, y: Years, mark: real)
      requires v.Valid() && mark == v.price(t, d, a)
      ensures valuer == v && trade == t && day == d && m0 == a && m1 == b && years == y && mk == a && cur == mark && rows == []
      ensures Valid() && Past(Move(0, 0, 0))
    {
      valuer, trade, day, m0, m1, years, mk, cur, rows := v, t, d, a, b, y, a, mark, [];
      moves, path := [], [a];
    }

    /** Revalues on the market `next`; the change is one row. */
    method Reprice(next: Snapshot, bucket: Bucket, ghost mv: Move)
      requires Valid() && Past(mv) && Made(Explaining(), mk, next, mv) && bucket == BucketOf(mv)
      modifies this, valuer
      ensures Valid() && mk == next
      ensures Walked() && moves == old(moves) + [mv]
      ensures forall c :: Balance(c) == old(Balance(c))
    {
      hide Balanced, Made, Walk, AllBefore, BucketOf, CurveOf;
      ghost var before := mk;
      WalkOn(Explaining(), rows, moves, path, mk, next, mv);
      mk := next;
      var val := valuer.Value(trade, day, mk);
      var r := Row(bucket, trade.ccy, val - cur);
      forall c ensures Balanced(rows + [r], trade.ccy, val, c) == Balance(c) { BalanceKept(rows, r, trade.ccy, cur, val, c); }
      assert r == RowOf(Explaining(), before, next, mv);
      rows, cur := rows + [r], val;
      moves, path := moves + [mv], path + [next];
    }

    ghost predicate AtStartOrEnd(c: string)
      reads this
    {
      StartOrEnd(Explaining(), mk, c)
    }

    /** The curve `c` is the one at `place` among the curves of `stage`. */
    ghost predicate Stands(c: string, bucket: Bucket, stage: nat, place: nat) {
      && (stage == 0 || stage == 3) && CurveOf(trade, Move(stage, place, 0)) == Some(c)
      && bucket == BucketOf(Move(stage, place, 0))
    }

    method MoveCurve(c: string, bucket: Bucket, ghost stage: nat, ghost place: nat)
      requires Valid() && AtStartOrEnd(c) && Stands(c, bucket, stage, place) && Past(Move(stage, place, 0))
      modifies this, valuer
      ensures Valid() && mk.Rates(c) == Final(m0.Quotes(c), m1.Quotes(c), years)
      ensures forall d :: d != c ==> mk.Quotes(d) == old(mk.Quotes(d))
      ensures forall d :: Balance(d) == old(Balance(d))
      ensures Past(Move(stage, place + 1, 0))
    {
      hide AsMap, SumIn, Walk, Balance;
      var q0, q1 := m0.Quotes(c), m1.Quotes(c);
      StillBefore(moves, Move(stage, place, 0), Move(stage, place + 1, 0));
      if !Differs(m0.Rates(c), m1.Rates(c)) {
        BlendSame(q0, q1, years);
        return;
      }
      if |q1.value| <= 1 || |q0.value| <= 1 {
        BeforeTheNext(moves, Move(stage, place, 0), Move(stage, place + 1, 0));
        Reprice(mk.Override(c, q1.value), bucket, Move(stage, place, 0));
      } else {
        MoveBuckets(c, bucket, q0.value, q1.value, stage, place);
      }
    }

    /** One step for the bucket `[lo, hi)`, unless it changes nothing. */
    method MoveBucket(c: string, bucket: Bucket, q0: Quotes, q1: Quotes, lo: real, hi: real, ghost mv: Move)
      requires Valid() && Stands(c, bucket, mv.stage, mv.place) && Past(mv) && mk.Rates(c).Some?
      requires m0.Quotes(c) == Some(q0) && m1.Quotes(c) == Some(q1) && |q0| > 1 && |q1| > 1
      requires mv.tenors < 4 && lo == BOUNDS[mv.tenors] && hi == BOUNDS[mv.tenors + 1]
      requires forall k :: k in AsMap(q0) ==> k in mk.Rates(c).value
      modifies this, valuer
      ensures Valid() && mk.Rates(c) == Some(Blend(old(mk.Rates(c).value), AsMap(q1), years, lo, hi))
      ensures forall d :: d != c ==> mk.Quotes(d) == old(mk.Quotes(d))
      ensures forall d :: Balance(d) == old(Balance(d))
      ensures Past(mv.(tenors := mv.tenors + 1))
    {
      hide AsMap, SumIn, Blend, Balance, Made, AllBefore, Walked, Snapshot.Quotes, Snapshot.Rates, Snapshot.Override;
      RatesAre(mk, c);
      var now := mk.Quotes(c).value;
      NotEmpty(q0);
      StillQuoted(now, AsMap(q0));
      var from := if now != [] then now else q0;
      var blended := BucketQuotes(from, q1, years, lo, hi);
      ghost var next := mv.(tenors := mv.tenors + 1);
      StillBefore(moves, mv, next);
      if AsMap(from) != AsMap(blended) {
        BeforeTheNext(moves, mv, next);
        BucketMade(Explaining(), mk, c, q0, q1, blended, mv);
        OverrideReads(mk, c, blended);
        Reprice(mk.Override(c, blended), bucket, mv);
      }
    }

    /** One step for each tenor bucket that changes anything. */
    method MoveBuckets(c: string, bucket: Bucket, q0: Quotes, q1: Quotes, ghost stage: nat, ghost place: nat)
      requires Valid() && AtStartOrEnd(c) && Stands(c, bucket, stage, place) && Past(Move(stage, place, 0))
      requires m0.Quotes(c) == Some(q0) && m1.Quotes(c) == Some(q1) && |q0| > 1 && |q1| > 1
      modifies this, valuer
      ensures Valid() && mk.Rates(c) == Some(Blend(AsMap(q0), AsMap(q1), years, BOUNDS[0], BOUNDS[4]))
      ensures forall d :: d != c ==> mk.Quotes(d) == old(mk.Quotes(d))
      ensures forall d :: Balance(d) == old(Balance(d))
      ensures Past(Move(stage, place + 1, 0))
    {
      hide AsMap, Blend;
      ghost var start := mk.Rates(c).value;
      StartsTheMove(AsMap(q0), AsMap(q1), years, start);
      hide Run.Valid, Run.Balance, Snapshot.Rates, Snapshot.Quotes, Run.Walked, Run.AtStartOrEnd;
      var b := 0;
      while b < 4
        invariant 0 <= b <= 4 && Valid()
        invariant mk.Rates(c) == Some(Blend(start, AsMap(q1), years, BOUNDS[0], BOUNDS[b]))
        invariant forall d :: d != c ==> mk.Quotes(d) == old(mk.Quotes(d))
        invariant forall d :: Balance(d) == old(Balance(d))
        invariant Past(Move(stage, place, b))
      {
        NextBucket(AsMap(q0), AsMap(q1), years, start, b);
        MoveBucket(c, bucket, q0, q1, BOUNDS[b], BOUNDS[b + 1], Move(stage, place, b));
        b := b + 1;
      }
      StillBefore(moves, Move(stage, place, b), Move(stage, place + 1, 0));
    }

    method MoveAll(curves: seq<string>, bucket: Bucket, ghost stage: nat)
      requires Valid() && forall c :: c in curves ==> AtStartOrEnd(c)
      requires (stage == 0 && curves == trade.rateCurves) || (stage == 3 && curves == trade.volCurves)
      requires bucket == BucketOf(Move(stage, 0, 0)) && Past(Move(stage, 0, 0))
      modifies this, valuer
      ensures Valid() && forall c :: c in curves ==> mk.Rates(c) == Final(m0.Quotes(c), m1.Quotes(c), years)
      ensures forall c :: c !in curves ==> mk.Quotes(c) == old(mk.Quotes(c))
      ensures forall d :: Balance(d) == old(Balance(d))
      ensures Past(Move(stage + 1, 0, 0))
    {
      hide StartOrEnd, Final, Run.Valid, Run.Balance, Run.Walked, AllBefore, Snapshot.Quotes, Snapshot.Rates;
      ghost var s := Explaining();
      var n := 0;
      while n < |curves|
        invariant 0 <= n <= |curves| && Valid()
        invariant SomeMoved(s, curves, n, mk)
        invariant forall c :: c !in curves ==> mk.Quotes(c) == old(mk.Quotes(c))
        invariant forall d :: Balance(d) == old(Balance(d))
        invariant Past(Move(stage, n, 0))
      {
        ghost var before := mk;
        MoveCurve(curves[n], bucket, stage, n);
        OneMoreMoved(s, curves, n, before, mk);
        n := n + 1;
      }
      StillBefore(moves, Move(stage, n, 0), Move(stage + 1, 0, 0));
      AllMoved(s, curves, mk);
    }
  }

  /** Whether a curve of `m` stands at yesterday's rates or already at its final ones. */
  ghost predicate StartOrEnd(s: Scene, m: Snapshot, c: string) {
    m.Rates(c) == s.m0.Rates(c) || m.Rates(c) == Final(s.m0.Quotes(c), s.m1.Quotes(c), s.years)
  }

  /** The first `n` curves are at their final rates, the others not half way there. */
  ghost predicate SomeMoved(s: Scene, curves: seq<string>, n: nat, m: Snapshot)
    requires n <= |curves|
  {
    && (forall c :: c in curves ==> StartOrEnd(s, m, c))
    && forall i :: 0 <= i < n ==> m.Rates(curves[i]) == Final(s.m0.Quotes(curves[i]), s.m1.Quotes(curves[i]), s.years)
  }

  lemma OneMoreMoved(s: Scene, curves: seq<string>, n: nat, a: Snapshot, b: Snapshot)
    requires n < |curves| && SomeMoved(s, curves, n, a)
    requires b.Rates(curves[n]) == Final(s.m0.Quotes(curves[n]), s.m1.Quotes(curves[n]), s.years)
    requires forall d :: d != curves[n] ==> b.Quotes(d) == a.Quotes(d)
    ensures SomeMoved(s, curves, n + 1, b)
  {
    hide AsMap, Final, Snapshot.Quotes;
    forall c | c in curves ensures StartOrEnd(s, b, c) { assert StartOrEnd(s, a, c); }
  }

  lemma AllMoved(s: Scene, curves: seq<string>, m: Snapshot)
    requires SomeMoved(s, curves, |curves|, m)
    ensures forall c :: c in curves ==> m.Rates(c) == Final(s.m0.Quotes(c), s.m1.Quotes(c), s.years)
  {
    hide Final, Snapshot.Quotes, Snapshot.Rates;
  }

  ghost predicate NoResidual(rows: seq<Row>) {
    forall i :: 0 <= i < |rows| ==> rows[i].bucket != Residual
  }

  lemma NotEmpty(q: Quotes)
    requires q != []
    ensures exists k :: k in AsMap(q)
  {
    assert q[0].key in AsMap(q);
  }

  /** A list that still holds a key is not empty. */
  lemma StillQuoted(now: Quotes, a: Rates)
    requires (exists k :: k in a) && forall k :: k in a ==> k in AsMap(now)
    ensures now != []
  {
  }

  lemma BlendNothing(a: Rates, t: Rates, years: Years, lo: real)
    ensures Blend(a, t, years, lo, lo) == a
  {
  }

  lemma BlendAgain(a: Rates, t: Rates, years: Years, lo: real, hi: real)
    ensures Blend(Blend(a, t, years, lo, hi), t, years, lo, hi) == Blend(a, t, years, lo, hi)
    ensures forall k :: k in a ==> k in Blend(a, t, years, lo, hi)
  {
  }

  /** Rates from which the four buckets lead where they lead from `a`, with no key of `a` missing. */
  ghost predicate LeadsOn(a: Rates, t: Rates, years: Years, start: Rates) {
    && Blend(start, t, years, BOUNDS[0], BOUNDS[4]) == Blend(a, t, years, BOUNDS[0], BOUNDS[4])
    && forall k :: k in a ==> k in start
  }

  lemma StartsTheMove(a: Rates, t: Rates, years: Years, start: Rates)
    requires start == a || start == Blend(a, t, years, BOUNDS[0], BOUNDS[4])
    ensures LeadsOn(a, t, years, start)
    ensures Blend(start, t, years, BOUNDS[0], BOUNDS[0]) == start
    ensures Blend(start, t, years, BOUNDS[0], BOUNDS[4]) == Blend(a, t, years, BOUNDS[0], BOUNDS[4])
  {
    hide Blend;
    BlendAgain(a, t, years, BOUNDS[0], BOUNDS[4]);
    BlendNothing(start, t, years, BOUNDS[0]);
  }

  lemma NextBucket(a: Rates, t: Rates, years: Years, start: Rates, b: nat)
    requires LeadsOn(a, t, years, start) && b < 4
    ensures var now := Blend(start, t, years, BOUNDS[0], BOUNDS[b]);
      && (forall k :: k in a ==> k in now)
      && Blend(now, t, years, BOUNDS[b], BOUNDS[b + 1]) == Blend(start, t, years, BOUNDS[0], BOUNDS[b + 1])
  {
    hide Blend;
    BlendAgain(start, t, years, BOUNDS[0], BOUNDS[b]);
    BlendsCompose(start, t, years, BOUNDS[0], BOUNDS[b], BOUNDS[b + 1]);
  }

  lemma BlendSame(q0: Option<Quotes>, q1: Option<Quotes>, years: Years)
    requires q0.None? || q1.None? || AsMap(q0.value) == AsMap(q1.value)
    ensures Final(q0, q1, years) == if q0.None? then None else Some(AsMap(q0.value))
  {
    if q0.Some? && q1.Some? {
      var a := AsMap(q0.value);
      hide AsMap;
      assert Blend(a, a, years, BOUNDS[0], BOUNDS[4]) == a;
    }
  }

  // ----- one day -----

  const DROPPED: real := 0.005

  function Size(x: real): real {
    if x < 0.0 then -x else x
  }

  datatype Report = Report(rows: seq<Row>, markPrev: real, mark: real)

  /** The rows of currency `c` are the change of the mark plus the cash that settled, within
      `slack` in the trade's currency and exactly in any other. */
  ghost predicate Accounts(rows: seq<Row>, c: string, ccy: string, change: real, cash: real, slack: real) {
    Size(SumIn(rows, c) - cash - if c == ccy then change else 0.0) <= if c == ccy then slack else 0.0
  }

  ghost predicate Explained(r: Report, ccy: string, ps: seq<Payment>, d0: Day, d1: Day, slack: real) {
    forall c :: Accounts(r.rows, c, ccy, r.mark - r.markPrev, CashIn(ps, c, d0, d1), slack)
  }

  /** One row for each currency of `cash`. */
  ghost predicate RowsOf(rows: seq<Row>, cash: map<string, real>) {
    && (forall i :: 0 <= i < |rows| ==> rows[i].ccy in cash && rows[i] == Row(Cash, rows[i].ccy, cash[rows[i].ccy]))
    && (forall i, j :: 0 <= i < j < |rows| ==> rows[i].ccy != rows[j].ccy)
    && (forall c :: c in cash ==> HasRow(rows, c))
  }

  ghost predicate HasRow(rows: seq<Row>, c: string) {
    exists i :: 0 <= i < |rows| && rows[i].ccy == c
  }

  lemma HasRowAppend(rows: seq<Row>, r: Row, c: string)
    ensures HasRow(rows + [r], c) <==> HasRow(rows, c) || r.ccy == c
  {
    if r.ccy == c { assert (rows + [r])[|rows|].ccy == c; }
    if HasRow(rows, c) {
      var i :| 0 <= i < |rows| && rows[i].ccy == c;
      assert (rows + [r])[i].ccy == c;
    }
  }

  method CashRows(cash: map<string, real>) returns (out: seq<Row>)
    ensures RowsOf(out, cash) && forall c :: SumIn(out, c) == InMap(cash, c)
  {
    hide SumIn, HasRow;
    out := [];
    forall c ensures SumIn(out, c) == 0.0 { NoRows(c); }
    var left := cash.Keys;
    while left != {}
      invariant left <= cash.Keys
      invariant forall i :: 0 <= i < |out| ==> out[i].ccy in cash && out[i].ccy !in left && out[i] == Row(Cash, out[i].ccy, cash[out[i].ccy])
      invariant forall i, j :: 0 <= i < j < |out| ==> out[i].ccy != out[j].ccy
      invariant forall c :: c in cash && c !in left ==> HasRow(out, c)
      invariant forall c :: SumIn(out, c) == if c in left then 0.0 else InMap(cash, c)
      decreases |left|
    {
      var k :| k in left;
      var r := Row(Cash, k, cash[k]);
      forall c ensures SumIn(out + [r], c) == SumIn(out, c) + (if r.ccy == c then r.pnl else 0.0) { SumAppend(out, r, c); }
      forall c ensures HasRow(out + [r], c) <==> HasRow(out, c) || r.ccy == c { HasRowAppend(out, r, c); }
      out := out + [r];
      left := left - {k};
    }
  }

  /** A row for each currency in which a payment settles, of all that settles in it. */
  ghost predicate CashSettles(rows: seq<Row>, ps: seq<Payment>, d0: Day, d1: Day) {
    && (forall i :: 0 <= i < |rows| ==> rows[i] == Row(Cash, rows[i].ccy, CashIn(ps, rows[i].ccy, d0, d1)))
    && (forall i, j :: 0 <= i < j < |rows| ==> rows[i].ccy != rows[j].ccy)
    && (forall c :: HasRow(rows, c) <==> SettlesIn(ps, c, d0, d1))
  }

  ghost predicate SettlesIn(ps: seq<Payment>, c: string, d0: Day, d1: Day) {
    exists p :: p in ps && Settles(p, d0, d1) && p.ccy == c
  }

  lemma CashRowsSettle(rows: seq<Row>, cash: map<string, real>, ps: seq<Payment>, d0: Day, d1: Day)
    requires RowsOf(rows, cash) && forall c :: InMap(cash, c) == CashIn(ps, c, d0, d1)
    requires forall c :: c in cash <==> SettlesIn(ps, c, d0, d1)
    ensures CashSettles(rows, ps, d0, d1)
  {
    hide CashIn, SettlesIn;
    forall i | 0 <= i < |rows| ensures rows[i] == Row(Cash, rows[i].ccy, CashIn(ps, rows[i].ccy, d0, d1)) {
      assert InMap(cash, rows[i].ccy) == CashIn(ps, rows[i].ccy, d0, d1);
    }
  }

  /** Carry and settled cash: the rows before the market moves. */
  method OpeningRows(v: Valuer, trade: Trade, d0: Day, d1: Day, m0: Snapshot, ps: seq<Payment>)
    returns (prev: real, mark: real, rows: seq<Row>, ghost cash: seq<Row>)
    requires v.Valid()
    modifies v
    ensures v.Valid() && prev == v.price(trade, d0, m0) && mark == v.price(trade, d1, m0)
    ensures rows == [Row(Carry, trade.ccy, mark - prev)] + cash && CashSettles(cash, ps, d0, d1)
    ensures forall c :: SumIn(rows, c) == CashIn(ps, c, d0, d1) + if c == trade.ccy then mark - prev else 0.0
  {
    hide CashIn, SumIn;
    prev := v.Value(trade, d0, m0);
    mark := v.Value(trade, d1, m0);
    var carry := Row(Carry, trade.ccy, mark - prev);
    var settled := CashSettled(ps, d0, d1);
    var out := CashRows(settled);
    cash := out;
    rows := [carry] + out;
    forall c ensures SumIn(rows, c) == InMap(settled, c) + if c == trade.ccy then mark - prev else 0.0 {
      SumConcat([carry], out, c);
      OneRow(carry, c);
    }
    CashRowsSettle(cash, settled, ps, d0, d1);
  }

  /** The residual row, when what is left is worth showing. */
  method ResidualRow(rows: seq<Row>, ccy: string, resid: real) returns (out: seq<Row>)
    ensures out == rows + if Size(resid) > 0.005 then [Row(Residual, ccy, resid)] else []
    ensures forall c :: SumIn(out, c) == SumIn(rows, c) + if c == ccy && Size(resid) > DROPPED then resid else 0.0
  {
    out := rows;
    var last := Row(Residual, ccy, resid);
    if Size(resid) > DROPPED {
      forall c ensures SumIn(rows + [last], c) == SumIn(rows, c) + (if last.ccy == c then last.pnl else 0.0) { SumAppend(rows, last, c); }
      out := rows + [last];
    }
  }

  /** How a day was explained: its cash rows, and the moves with their rows and markets. */
  datatype How = How(cash: seq<Row>, steps: seq<Row>, moves: seq<Move>, path: seq<Snapshot>)

  /** The rows are the change of the mark from yesterday to today on yesterday's market, the
      settled cash, a row for each move from yesterday's market to `stepped`, and what is left
      from there to today's mark when it is worth showing. */
  ghost predicate Attributed(rows: seq<Row>, s: Scene, d0: Day, ps: seq<Payment>, how: How, stepped: Snapshot) {
    var carry := s.price(s.trade, s.day, s.m0) - s.price(s.trade, d0, s.m0);
    var resid := s.price(s.trade, s.day, s.m1) - s.price(s.trade, s.day, stepped);
    && Walk(s, how.steps, how.moves, how.path, stepped) && CashSettles(how.cash, ps, d0, s.day)
    && rows == [Row(Carry, s.trade.ccy, carry)] + how.cash + how.steps
         + if Size(resid) > 0.005 then [Row(Residual, s.trade.ccy, resid)] else []
  }

  /** Carry, cash, the curves, spot, points, the volatility surfaces, and what is left. */
  method ExplainTrade(v: Valuer, trade: Trade, d0: Day, d1: Day, m0: Snapshot, m1: Snapshot, years: Years, ps: seq<Payment>)
    returns (r: Report, ghost stepped: Snapshot, ghost how: How)
    requires v.Valid() && trade.Distinct()
    modifies v
    ensures v.Valid() && r.markPrev == v.price(trade, d0, m0) && r.mark == v.price(trade, d1, m1)
    ensures Attributed(r.rows, Scene(v.price, trade, d1, m0, m1, years), d0, ps, how, stepped)
    ensures Explained(r, trade.ccy, ps, d0, d1, DROPPED)
    ensures Stepped(trade, m0, m1, years, stepped)
    ensures Explained(r, trade.ccy, ps, d0, d1, 0.0)
      <==> (r.mark == v.price(trade, d1, stepped) || Size(r.mark - v.price(trade, d1, stepped)) > DROPPED)
  {
    hide CashIn, SumIn, Stepped, Valuer.Valid, Walk, CashSettles, Explained, Balanced;
    ghost var cash;
    var prev, carried, rows;
    prev, carried, rows, cash := OpeningRows(v, trade, d0, d1, m0, ps);
    var run := OpenRun(v, trade, d1, m0, m1, years, carried);
    Steps(run);
    stepped := run.mk;
    var mark := v.Value(trade, d1, m1);
    var all := rows + run.rows;
    forall c ensures SumIn(all, c) == CashIn(ps, c, d0, d1) + if c == trade.ccy then run.cur - prev else 0.0 {
      assert run.Balance(c) == Balanced([], trade.ccy, carried, c);
      RowsSoFar(rows, run.rows, trade.ccy, carried, run.cur, c);
    }
    var out := ResidualRow(all, trade.ccy, mark - run.cur);
    r := Report(out, prev, mark);
    how := How(cash, run.rows, run.moves, run.path);
    DayExplained(all, out, trade.ccy, ps, d0, d1, prev, run.cur, mark);
  }

  lemma RowsSoFar(opening: seq<Row>, steps: seq<Row>, ccy: string, start: real, cur: real, c: string)
    requires Balanced(steps, ccy, cur, c) == Balanced([], ccy, start, c)
    ensures SumIn(opening + steps, c) == SumIn(opening, c) + if c == ccy then cur - start else 0.0
  {
    SumConcat(opening, steps, c);
    NoRows(c);
    hide SumIn;
  }

  /** The rows of a day account for it up to what is left and not shown. */
  lemma DayExplained(all: seq<Row>, out: seq<Row>, ccy: string, ps: seq<Payment>, d0: Day, d1: Day, prev: real, cur: real, mark: real)
    requires forall c :: SumIn(all, c) == CashIn(ps, c, d0, d1) + if c == ccy then cur - prev else 0.0
    requires forall c :: SumIn(out, c) == SumIn(all, c) + if c == ccy && Size(mark - cur) > DROPPED then mark - cur else 0.0
    ensures Explained(Report(out, prev, mark), ccy, ps, d0, d1, DROPPED)
    ensures Explained(Report(out, prev, mark), ccy, ps, d0, d1, 0.0) <==> mark == cur || Size(mark - cur) > DROPPED
  {
    hide SumIn, CashIn;
    assert Explained(Report(out, prev, mark), ccy, ps, d0, d1, 0.0) ==> Accounts(out, ccy, ccy, mark - prev, CashIn(ps, ccy, d0, d1), 0.0);
  }

  /** Full revaluation at every move: the rows of a walk add up to what the trade is worth
      more at its end than on yesterday's market. */
  lemma {:induction false} WalkAddsUp(s: Scene, steps: seq<Row>, moves: seq<Move>, path: seq<Snapshot>, m: Snapshot, c: string)
    requires Walk(s, steps, moves, path, m)
    ensures SumIn(steps, c) == if c == s.trade.ccy then s.price(s.trade, s.day, m) - s.price(s.trade, s.day, s.m0) else 0.0
    decreases |moves|
  {
    hide Made, Before;
    if moves != [] {
      var n := |moves| - 1;
      assert StepAt(s, steps, moves, path, n);
      var rows, made, markets := steps[..n], moves[..n], path[..n + 1];
      forall i: nat | i < n ensures StepAt(s, rows, made, markets, i) { assert StepAt(s, steps, moves, path, i); }
      WalkAddsUp(s, rows, made, markets, path[n], c);
    }
  }

  /** The rows of rate curves come first, then spot, then the points, then the volatility
      surfaces, each in its bucket. */
  lemma StepsInOrder(s: Scene, steps: seq<Row>, moves: seq<Move>, path: seq<Snapshot>, m: Snapshot, i: nat, j: nat)
    requires Walk(s, steps, moves, path, m) && i < j < |steps|
    ensures steps[i].bucket == Vol ==> steps[j].bucket == Vol
    ensures steps[i].bucket == Fx ==> steps[j].bucket == Fx || steps[j].bucket == Vol
    ensures steps[i].bucket in {RateMove, Fx, Vol} && steps[j].bucket in {RateMove, Fx, Vol}
    ensures moves[i].stage <= moves[j].stage <= 3
  {
    hide CurveMoved;
    assert StepAt(s, steps, moves, path, i) && StepAt(s, steps, moves, path, j);
    assert Before(moves[i], moves[j]);
  }

  /** A row moves a curve of its bucket, and no other. */
  lemma StepMovesItsCurve(s: Scene, steps: seq<Row>, moves: seq<Move>, path: seq<Snapshot>, m: Snapshot, i: nat) returns (c: string)
    requires Walk(s, steps, moves, path, m) && i < |steps|
    ensures steps[i].bucket == RateMove ==> c in s.trade.rateCurves
    ensures steps[i].bucket == Vol ==> c in s.trade.volCurves
    ensures steps[i].bucket == Fx ==> Some(c) == s.trade.spot || Some(c) == s.trade.points
    ensures forall d :: d != c ==> path[i + 1].Quotes(d) == path[i].Quotes(d)
    ensures steps[i].pnl == s.price(s.trade, s.day, path[i + 1]) - s.price(s.trade, s.day, path[i])
  {
    assert StepAt(s, steps, moves, path, i);
    c := CurveOf(s.trade, moves[i]).value;
  }

  /** Only what is left at the end can be a residual row. */
  lemma ResidualShownIff(rows: seq<Row>, s: Scene, d0: Day, ps: seq<Payment>, how: How, stepped: Snapshot)
    requires Attributed(rows, s, d0, ps, how, stepped)
    ensures NoResidual(rows) <==> Size(s.price(s.trade, s.day, s.m1) - s.price(s.trade, s.day, stepped)) <= 0.005
  {
    forall i | 0 <= i < |how.steps| ensures how.steps[i].bucket != Residual { assert StepAt(s, how.steps, how.moves, how.path, i); }
    hide Walk;
    var n := 1 + |how.cash| + |how.steps|;
    assert forall i :: 0 <= i < n ==> rows[i].bucket != Residual;
    if |rows| > n { assert rows[n].bucket == Residual; }
  }

  /** A day whose rows do not add up: a curve quoted only today is not stepped, and the half
      cent it is worth is too small to be shown. */
  method HalfACentIsLost(years: Years) returns (r: Report)
    ensures r.markPrev == 0.0 && r.mark == 0.005 && !Explained(r, "USD", [], 0, 1, 0.0)
  {
    var curve := "EUR_ESTR";
    var trade := Trade("T", "USD", [curve], [], None, None);
    var m0, m1 := Snapshot(map[], map[]), Snapshot(map[curve := [Quote(Key("1Y", ""), 0.04)]], map[]);
    var v := new Valuer((t: Trade, d: Day, m: Snapshot) => WorthHalfACent(m));
    ghost var stepped, how;
    r, stepped, how := ExplainTrade(v, trade, 0, 1, m0, m1, years, []);
    hide Explained, Attributed, AsMap;
    assert v.price(trade, 0, m0) == WorthHalfACent(m0) && v.price(trade, 1, m1) == WorthHalfACent(m1);
    assert v.price(trade, 1, stepped) == WorthHalfACent(stepped);
    assert curve in trade.Curves();
    assert stepped.Rates(curve) == None;
  }

  function WorthHalfACent(m: Snapshot): real {
    if m.Quotes("EUR_ESTR").Some? then 0.005 else 0.0
  }

  lemma OneRow(r: Row, c: string)
    ensures SumIn([r], c) == if r.ccy == c then r.pnl else 0.0
  {
  }

  method OpenRun(v: Valuer, trade: Trade, d1: Day, m0: Snapshot, m1: Snapshot, years: Years, mark: real) returns (run: Run)
    requires v.Valid() && mark == v.price(trade, d1, m0)
    ensures fresh(run) && run.Valid() && run.valuer == v && run.trade == trade && run.day == d1
    ensures run.m0 == m0 && run.m1 == m1 && run.years == years && run.mk == m0 && run.cur == mark && run.rows == []
    ensures run.Past(Move(0, 0, 0))
  {
    run := new Run(v, trade, d1, m0, m1, years, mark);
  }

  /** The market steps, in their order. */
  method Steps(run: Run)
    requires run.Valid() && run.trade.Distinct() && run.mk == run.m0 && run.Past(Move(0, 0, 0))
    modifies run, run.valuer
    ensures run.Valid() && Stepped(run.trade, run.m0, run.m1, run.years, run.mk)
    ensures forall c :: run.Balance(c) == old(run.Balance(c))
    ensures run.Walked()
  {
    hide AsMap, Final, First, SumIn, Run.Valid, Run.Balance, Run.Walked;
    var t, m0, m1 := run.trade, run.m0, run.m1;
    run.MoveAll(t.rateCurves, RateMove, 0);
    label rates:
    SpotStep(run);
    label spot:
    PointsStep(run);
    label points:
    forall c | c in t.volCurves ensures run.AtStartOrEnd(c) {
      assert c in t.Curves();
      if c in t.rateCurves {
        assert old@rates(run.mk.Rates(c)) == Final(m0.Quotes(c), m1.Quotes(c), run.years);
        assert run.mk.Quotes(c) == old@spot(run.mk.Quotes(c)) == old@rates(run.mk.Quotes(c));
      } else {
        assert run.mk.Quotes(c) == old@spot(run.mk.Quotes(c)) == old@rates(run.mk.Quotes(c)) == m0.Quotes(c);
      }
    }
    run.MoveAll(t.volCurves, Vol, 3);
    forall c | c in t.Curves() ensures run.mk.Rates(c) == Final(m0.Quotes(c), m1.Quotes(c), run.years) {
      if c !in t.volCurves {
        assert c in t.rateCurves;
        assert run.mk.Quotes(c) == old@points(run.mk.Quotes(c)) == old@spot(run.mk.Quotes(c)) == old@rates(run.mk.Quotes(c));
      }
    }
  }

  /** The spot step, when both dates have a spot and they differ. */
  method SpotStep(run: Run)
    requires run.Valid() && run.trade.Distinct()
    requires run.trade.spot.Some? ==> run.Untouched(run.trade.spot.value)
    requires run.Past(Move(1, 0, 0))
    modifies run, run.valuer
    ensures run.Valid()
    ensures SpotMoved(run.trade, run.m0, run.m1, run.mk)
    ensures forall c :: Some(c) != run.trade.spot ==> run.mk.Quotes(c) == old(run.mk.Quotes(c))
    ensures forall c :: run.Balance(c) == old(run.Balance(c))
    ensures run.Past(Move(2, 0, 0))
  {
    hide AsMap, SumIn, Run.Valid, Run.Balance, Run.Walked;
    StillBefore(run.moves, Move(1, 0, 0), Move(2, 0, 0));
    if run.trade.spot.None? { return; }
    var sc := run.trade.spot.value;
    var s0, s1 := run.m0.Single(sc, "SPOT"), run.m1.Single(sc, "SPOT");
    if s0.Some? && s1.Some? && s0 != s1 {
      BeforeTheNext(run.moves, Move(1, 0, 0), Move(2, 0, 0));
      run.Reprice(run.mk.WithSingle(sc, "SPOT", s1.value), Fx, Move(1, 0, 0));
    }
  }

  /** The forward points, all at once. */
  method PointsStep(run: Run)
    requires run.Valid() && run.trade.Distinct()
    requires run.trade.points.Some? ==> run.Untouched(run.trade.points.value)
    requires run.Past(Move(2, 0, 0))
    modifies run, run.valuer
    ensures run.Valid()
    ensures PointsMoved(run.trade, run.m0, run.m1, run.mk)
    ensures forall c :: Some(c) != run.trade.points ==> run.mk.Quotes(c) == old(run.mk.Quotes(c))
    ensures forall c :: run.Balance(c) == old(run.Balance(c))
    ensures run.Past(Move(3, 0, 0))
  {
    hide AsMap, SumIn, Run.Valid, Run.Balance, Run.Walked;
    StillBefore(run.moves, Move(2, 0, 0), Move(3, 0, 0));
    if run.trade.points.None? { return; }
    var pc := run.trade.points.value;
    if Differs(run.m0.Rates(pc), run.m1.Rates(pc)) {
      BeforeTheNext(run.moves, Move(2, 0, 0), Move(3, 0, 0));
      run.Reprice(run.mk.Override(pc, run.m1.Quotes(pc).value), Fx, Move(2, 0, 0));
    }
  }

  /** When the steps reach today's market and the pricer reads only the declared curves,
      nothing is left over. */
  lemma ResidualIsZero(price: Pricer, trade: Trade, d1: Day, m0: Snapshot, m1: Snapshot, years: Years, stepped: Snapshot)
    requires ReadsOnlyDeclared(price, trade) && Stepped(trade, m0, m1, years, stepped) && StepsReach(trade, m0, m1, years)
    ensures price(trade, d1, stepped) == price(trade, d1, m1)
  {
    SteppedAgreesIff(trade, m0, m1, years, stepped);
  }

  /** And where they do not reach it, some pricer reading only those curves leaves a residual. */
  lemma ResidualIsPossible(trade: Trade, d1: Day, m0: Snapshot, m1: Snapshot, years: Years, stepped: Snapshot)
    requires Stepped(trade, m0, m1, years, stepped) && !StepsReach(trade, m0, m1, years)
    ensures exists price: Pricer :: ReadsOnlyDeclared(price, trade) && price(trade, d1, stepped) != price(trade, d1, m1)
  {
    SteppedAgreesIff(trade, m0, m1, years, stepped);
    var target := ViewOf(trade, m1);
    var price: Pricer := (t: Trade, d: Day, m: Snapshot) => if ViewOf(trade, m) == target then 1.0 else 0.0;
    assert ReadsOnlyDeclared(price, trade);
    assert price(trade, d1, stepped) != price(trade, d1, m1);
  }

  // ----- trading activity -----

  method NewTrade(v: Valuer, trade: Trade, d1: Day, m1: Snapshot) returns (r: Report)
    requires v.Valid()
    modifies v
    ensures v.Valid() && r.mark == v.price(trade, d1, m1) && r.rows == [Row(New, trade.ccy, r.mark)]
  {
    var mark := v.Value(trade, d1, m1);
    r := Report([Row(New, trade.ccy, mark)], 0.0, mark);
  }

  /** The prior mark removed, and the termination fee when there is one. A trade whose prior
      valuation raises has no mark to remove. */
  method UnwoundTrade(v: Valuer, trade: Trade, d0: Day, m0: Snapshot, fee: real, raises: bool) returns (r: Report)
    requires v.Valid()
    modifies v
    ensures v.Valid() && r.mark == 0.0 && r.markPrev == if raises then 0.0 else v.price(trade, d0, m0)
    ensures forall c :: SumIn(r.rows, c) == if c == trade.ccy then fee - r.markPrev else 0.0
  {
    var prev := 0.0;
    if !raises { prev := v.Value(trade, d0, m0); }
    var rows := [Row(Unwind, trade.ccy, -prev)];
    forall c ensures SumIn(rows, c) == if c == trade.ccy then -prev else 0.0 { OneRow(rows[0], c); }
    if fee != 0.0 {
      var paid := Row(Unwind, trade.ccy, fee);
      forall c ensures SumIn(rows + [paid], c) == SumIn(rows, c) + (if paid.ccy == c then paid.pnl else 0.0) { SumAppend(rows, paid, c); }
      rows := rows + [paid];
    }
    r := Report(rows, prev, 0.0);
  }

  /** Market steps on the old terms, then the amendment as one step at today's close. */
  method AmendedTrade(v: Valuer, before: Trade, trade: Trade, d0: Day, d1: Day, m0: Snapshot, m1: Snapshot, years: Years, ps: seq<Payment>)
    returns (r: Report, ghost rows: seq<Row>, ghost stepped: Snapshot, ghost how: How)
    requires v.Valid() && before.Distinct() && before.ccy == trade.ccy
    modifies v
    ensures v.Valid() && r.markPrev == v.price(before, d0, m0) && r.mark == v.price(trade, d1, m1)
    ensures r.rows == rows + [Row(Amend, trade.ccy, v.price(trade, d1, m1) - v.price(before, d1, m1))]
    ensures Attributed(rows, Scene(v.price, before, d1, m0, m1, years), d0, ps, how, stepped)
    ensures Explained(r, trade.ccy, ps, d0, d1, DROPPED)
  {
    hide SumIn, CashIn, Stepped, Attributed;
    var explained;
    explained, stepped, how := ExplainTrade(v, before, d0, d1, m0, m1, years, ps);
    rows := explained.rows;
    var mark := v.Value(trade, d1, m1);
    var step := Row(Amend, trade.ccy, mark - explained.mark);
    r := Report(explained.rows + [step], explained.markPrev, mark);
    forall c ensures Accounts(r.rows, c, trade.ccy, r.mark - r.markPrev, CashIn(ps, c, d0, d1), DROPPED) {
      SumAppend(explained.rows, step, c);
      assert Accounts(explained.rows, c, trade.ccy, explained.mark - explained.markPrev, CashIn(ps, c, d0, d1), DROPPED);
    }
  }

  // ----- the whole life -----

  /** A day after the other: each report starts from the mark the last one ended on, and
      leaves out at most `slack`. */
  ghost predicate Days(reports: seq<Report>, closes: seq<Day>, ccy: string, ps: seq<Payment>, slack: real) {
    && |closes| == |reports| + 1
    && (forall i :: 0 <= i < |reports| ==> closes[i] <= closes[i + 1] && Explained(reports[i], ccy, ps, closes[i], closes[i + 1], slack))
    && (forall i :: 0 <= i < |reports| - 1 ==> reports[i].mark == reports[i + 1].markPrev)
  }

  function AllRows(reports: seq<Report>): seq<Row> {
    if reports == [] then [] else AllRows(reports[..|reports| - 1]) + reports[|reports| - 1].rows
  }

  lemma {:induction false} SumConcat(a: seq<Row>, b: seq<Row>, c: string)
    ensures SumIn(a + b, c) == SumIn(a, c) + SumIn(b, c)
  {
    if b == [] {
      assert a + b == a;
    } else {
      assert (a + b)[..|a + b| - 1] == a + b[..|b| - 1];
      SumConcat(a, b[..|b| - 1], c);
    }
  }

  lemma {:induction false} NothingSettles(ps: seq<Payment>, c: string, d: Day)
    ensures CashIn(ps, c, d, d) == 0.0
  {
    if ps != [] { NothingSettles(ps[..|ps| - 1], c, d); }
  }

  /** The slack of `n` days. */
  function Slack(n: nat, daily: real): real {
    if n == 0 then 0.0 else Slack(n - 1, daily) + daily
  }

  lemma NoRows(c: string)
    ensures SumIn([], c) == 0.0
  {
  }

  lemma {:induction false} DaysAddUp(reports: seq<Report>, closes: seq<Day>, ccy: string, ps: seq<Payment>, slack: real, c: string)
    requires Days(reports, closes, ccy, ps, slack)
    ensures closes[0] <= closes[|reports|]
    ensures reports == [] ==> SumIn(AllRows(reports), c) == 0.0 && CashIn(ps, c, closes[0], closes[|reports|]) == 0.0
    ensures reports != [] ==> Accounts(AllRows(reports), c, ccy, reports[|reports| - 1].mark - reports[0].markPrev,
      CashIn(ps, c, closes[0], closes[|reports|]), Slack(|reports|, slack))
  {
    hide SumIn, CashIn;
    var n := |reports|;
    if n == 0 {
      NothingSettles(ps, c, closes[0]);
      NoRows(c);
    } else {
      var before, last := reports[..n - 1], reports[n - 1];
      assert forall i :: 0 <= i < n - 1 ==> before[i] == reports[i];
      DaysAddUp(before, closes[..n], ccy, ps, slack, c);
      WindowsJoin(ps, c, closes[0], closes[n - 1], closes[n]);
      SumConcat(AllRows(before), last.rows, c);
      assert Accounts(last.rows, c, ccy, last.mark - last.markPrev, CashIn(ps, c, closes[n - 1], closes[n]), slack);
      assert Slack(n, slack) == Slack(n - 1, slack) + slack;
    }
  }

  /** A trade's reports: booked at the first close, explained from close to close, and
      unwound from the mark of the last one. */
  ghost predicate Life(booked: Report, reports: seq<Report>, unwound: Report, closes: seq<Day>, ccy: string, ps: seq<Payment>, fee: real, slack: real) {
    && Days(reports, closes, ccy, ps, slack)
    && booked.rows == [Row(New, ccy, booked.mark)]
    && (forall x :: SumIn(unwound.rows, x) == if x == ccy then fee - unwound.markPrev else 0.0)
    && (if reports == [] then booked.mark == unwound.markPrev
        else booked.mark == reports[0].markPrev && reports[|reports| - 1].mark == unwound.markPrev)
  }

  function LifeRows(booked: Report, reports: seq<Report>, unwound: Report): seq<Row> {
    booked.rows + AllRows(reports) + unwound.rows
  }

  /** What settles in no report of a trade booked on day `start` and found unwound at the
      close `end`: before the first close, and from the last explained one on. */
  function Missed(ps: seq<Payment>, c: string, start: Day, closes: seq<Day>, end: Day): real
    requires closes != []
  {
    CashIn(ps, c, start, closes[0]) + CashIn(ps, c, closes[|closes| - 1], end)
  }

  /** A life with its booking day and the close at which it is found unwound. */
  ghost predicate Lived(booked: Report, reports: seq<Report>, unwound: Report, closes: seq<Day>, ccy: string, ps: seq<Payment>,
      fee: real, slack: real, start: Day, end: Day) {
    Life(booked, reports, unwound, closes, ccy, ps, fee, slack) && start <= closes[0] && closes[|reports|] <= end
  }

  /** The rows of a trade's life against the cash of its life, from booking through the
      unwind: they miss exactly what settles before the first close and from the last
      explained one on, within the slack of each day in the trade's currency and exactly in
      any other. */
  lemma WholeLife(booked: Report, reports: seq<Report>, unwound: Report, closes: seq<Day>, ccy: string, ps: seq<Payment>,
      fee: real, slack: real, c: string, start: Day, end: Day)
    requires Lived(booked, reports, unwound, closes, ccy, ps, fee, slack, start, end)
    ensures Accounts(LifeRows(booked, reports, unwound), c, ccy, fee,
      CashIn(ps, c, start, end) - Missed(ps, c, start, closes, end), Slack(|reports|, slack))
  {
    var first, last := closes[0], closes[|reports|];
    DaysAddUp(reports, closes, ccy, ps, slack, c);
    WindowsJoin(ps, c, start, first, end);
    WindowsJoin(ps, c, first, last, end);
    SumConcat(booked.rows + AllRows(reports), unwound.rows, c);
    SumConcat(booked.rows, AllRows(reports), c);
    OneRow(booked.rows[0], c);
    hide SumIn, CashIn, AllRows;
  }

  /** What the slack of the whole life may amount to in currency `c`. */
  function LifeSlack(reports: seq<Report>, ccy: string, slack: real, c: string): real {
    if c == ccy then Slack(|reports|, slack) else 0.0
  }

  /** When no day leaves anything out, and always in a currency other than the trade's, the
      rows add up to the fee and all the cash exactly when what settles before the first
      close and from the last explained one on comes to nothing. */
  lemma ConservedIff(booked: Report, reports: seq<Report>, unwound: Report, closes: seq<Day>, ccy: string, ps: seq<Payment>,
      fee: real, slack: real, c: string, start: Day, end: Day)
    requires Lived(booked, reports, unwound, closes, ccy, ps, fee, slack, start, end)
    requires LifeSlack(reports, ccy, slack, c) == 0.0
    ensures Accounts(LifeRows(booked, reports, unwound), c, ccy, fee, CashIn(ps, c, start, end), 0.0)
      <==> Missed(ps, c, start, closes, end) == 0.0
  {
    WholeLife(booked, reports, unwound, closes, ccy, ps, fee, slack, c, start, end);
    hide SumIn, CashIn, Lived, LifeRows, Missed;
  }

  /** With slack: conserved within it when nothing is missed, and not when more than twice
      the slack is. */
  lemma ConservedWithinSlack(booked: Report, reports: seq<Report>, unwound: Report, closes: seq<Day>, ccy: string, ps: seq<Payment>,
      fee: real, slack: real, start: Day, end: Day)
    requires Lived(booked, reports, unwound, closes, ccy, ps, fee, slack, start, end)
    ensures var lost, s := Missed(ps, ccy, start, closes, end), Slack(|reports|, slack);
            var conserved := Accounts(LifeRows(booked, reports, unwound), ccy, ccy, fee, CashIn(ps, ccy, start, end), s);
            (lost == 0.0 ==> conserved) && (Size(lost) > 2.0 * s ==> !conserved)
  {
    WholeLife(booked, reports, unwound, closes, ccy, ps, fee, slack, ccy, start, end);
    hide SumIn, CashIn, Lived, LifeRows, Missed;
  }

  /** One payment of `amount` on day `paid` of a trade booked on day `start`, first seen at
      `close` and unwound at the next report. */
  ghost predicate OnePaymentLife(amount: real, paid: Day, mark: real, booked: Report, unwound: Report, start: Day, close: Day, end: Day) {
    && booked == Report([Row(New, "USD", mark)], 0.0, mark) && unwound == Report([Row(Unwind, "USD", -mark)], mark, 0.0)
    && amount > 0.0 && start <= close <= end && start <= paid < end
  }

  lemma OnePaymentIsLost(amount: real, paid: Day, mark: real, booked: Report, unwound: Report, start: Day, close: Day, end: Day)
    requires OnePaymentLife(amount, paid, mark, booked, unwound, start, close, end)
    ensures var ps := [Payment(paid, "USD", Some(amount), false)];
            && Lived(booked, [], unwound, [close], "USD", ps, 0.0, 0.0, start, end)
            && CashIn(ps, "USD", start, end) == amount == Missed(ps, "USD", start, [close], end)
            && SumIn(LifeRows(booked, [], unwound), "USD") == 0.0
  {
    var ps := [Payment(paid, "USD", Some(amount), false)];
    forall x ensures SumIn(unwound.rows, x) == if x == "USD" then -mark else 0.0 { OneRow(unwound.rows[0], x); }
    OneRow(booked.rows[0], "USD");
    assert LifeRows(booked, [], unwound) == booked.rows + unwound.rows;
    SumConcat(booked.rows, unwound.rows, "USD");
    assert ps[..0] == [];
    assert CashIn(ps, "USD", start, end) == CashIn([], "USD", start, end) + amount;
    WindowsJoin(ps, "USD", start, close, end);
  }

  /** A coupon that pays on the last explained close is in no row: the mark that is removed
      still held it, and the unwind counts no cash. */
  lemma LastCouponIsLost(coupon: real, mark: real, booked: Report, unwound: Report, close: Day)
    requires OnePaymentLife(coupon, close, mark, booked, unwound, close, close, close + 1)
    ensures var ps := [Payment(close, "USD", Some(coupon), false)];
            && Lived(booked, [], unwound, [close], "USD", ps, 0.0, 0.0, close, close + 1)
            && CashIn(ps, "USD", close, close + 1) == coupon && SumIn(LifeRows(booked, [], unwound), "USD") == 0.0
  {
    OnePaymentIsLost(coupon, close, mark, booked, unwound, close, close, close + 1);
  }

  /** A premium that pays between booking and the first close is in no row either: the mark
      of that close no longer holds it. */
  lemma FirstPaymentIsLost(premium: real, mark: real, booked: Report, unwound: Report, start: Day, close: Day, end: Day)
    requires start < close <= end && OnePaymentLife(premium, start, mark, booked, unwound, start, close, end)
    ensures var ps := [Payment(start, "USD", Some(premium), false)];
            && Lived(booked, [], unwound, [close], "USD", ps, 0.0, 0.0, start, end)
            && CashIn(ps, "USD", close, end) == 0.0
            && CashIn(ps, "USD", start, end) == premium && SumIn(LifeRows(booked, [], unwound), "USD") == 0.0
  {
    OnePaymentIsLost(premium, start, mark, booked, unwound, start, close, end);
    var ps := [Payment(start, "USD", Some(premium), false)];
    assert ps[..0] == [];
  }
}
