/** The relayer's budget: anchoring attempts capped per user, per firm and overall in every
    rolling 24 hours, whatever order their timestamps arrive in. */
module ChainBudget {
  import opened Options

  /** Microseconds. */
  type Time = int

  const WINDOW: int := 24 * 3600 * 1000000

  datatype Attempt = Attempt(at: Time, user: string, firm: Option<string>)

  datatype Scope = User(u: string) | Firm(f: string) | Everyone

  predicate Counts(a: Attempt, scope: Scope) {
    match scope
    case User(u) => a.user == u
    case Firm(f) => a.firm == Some(f)
    case Everyone => true
  }

  /** The stored attempts of a scope after `since`; there is no upper bound. */
  function Since(table: seq<Attempt>, scope: Scope, since: Time): nat {
    if table == [] then 0
    else
      var last := table[|table| - 1];
      Since(table[..|table| - 1], scope, since) + (if Counts(last, scope) && last.at > since then 1 else 0)
  }

  /** The stored attempts of a scope in `(s, s + 24h]`. */
  function InWindow(table: seq<Attempt>, scope: Scope, s: Time): nat {
    if table == [] then 0
    else
      var last := table[|table| - 1];
      InWindow(table[..|table| - 1], scope, s) + (if Counts(last, scope) && s < last.at <= s + WINDOW then 1 else 0)
  }

  // ----- the caps -----

  /** An environment variable: absent, not a number, or a number. */
  datatype Setting = Unset | Unreadable | Number(n: int)

  function IntEnv(s: Setting, default: nat): nat {
    match s
    case Number(n) => if n < 0 then 0 else n
    case _ => default
  }

  /** Zero switches a cap off. */
  datatype Limits = Limits(user: nat, firm: nat, everyone: nat)
  {
    predicate Off() {
      user == 0 && firm == 0 && everyone == 0
    }

    function Cap(scope: Scope): nat {
      match scope
      case User(_) => user
      case Firm(_) => firm
      case Everyone => everyone
    }
  }

  function LimitsOf(user: Setting, firm: Setting, everyone: Setting): Limits {
    var u := IntEnv(user, 0);
    Limits(u, IntEnv(firm, 3 * u), IntEnv(everyone, if u > 0 then 200 else 0))
  }

  predicate Positive(s: Setting) {
    s.Number? && s.n > 0
  }

  /** The budget is off altogether exactly when no variable is set to a positive number. */
  lemma BudgetIsOffIff(user: Setting, firm: Setting, everyone: Setting)
    ensures LimitsOf(user, firm, everyone).Off() <==> !Positive(user) && !Positive(firm) && !Positive(everyone)
  {
  }

  // ----- charging -----

  /** The scopes an attempt falls under. */
  predicate Applies(scope: Scope, user: string, firm: Option<string>) {
    match scope
    case User(u) => u == user
    case Firm(f) => firm == Some(f)
    case Everyone => true
  }

  predicate Reached(limits: Limits, table: seq<Attempt>, scope: Scope, now: Time) {
    limits.Cap(scope) > 0 && Since(table, scope, now - WINDOW) >= limits.Cap(scope)
  }

  /** Some cap that applies to the caller is reached. */
  ghost predicate Refused(limits: Limits, table: seq<Attempt>, user: string, firm: Option<string>, now: Time) {
    exists scope :: Applies(scope, user, firm) && Reached(limits, table, scope, now)
  }

  datatype Outcome = NotCounted | Charged(user: nat, firm: nat, everyone: nat) | TooMany(scope: Scope)

  class Budget {
    const limits: Limits
    var table: seq<Attempt>

    constructor (l: Limits)
      ensures limits == l && table == []
    {
      limits, table := l, [];
    }

    /** Under the lock: check the caps that apply, then store the attempt unless storing fails. */
    method Charge(user: string, firm: Option<string>, now: Time, storingFails: bool) returns (r: Outcome)
      modifies this`table
      ensures r.NotCounted? <==> limits.Off()
      ensures r.TooMany? <==> Refused(limits, old(table), user, firm, now)
      ensures r.TooMany? ==> Applies(r.scope, user, firm) && Reached(limits, old(table), r.scope, now)
      ensures table == if r.Charged? && !storingFails then old(table) + [Attempt(now, user, firm)] else old(table)
      ensures r.Charged? ==>
        && r.user == Since(old(table), User(user), now - WINDOW) + 1
        && r.firm == (if firm.Some? then Since(old(table), Firm(firm.value), now - WINDOW) else 0) + 1
        && r.everyone == Since(old(table), Everyone, now - WINDOW) + 1
    {
      if limits.Off() { return NotCounted; }
      var since := now - WINDOW;
      var u, g := Since(table, User(user), since), Since(table, Everyone, since);
      var f := if firm.Some? then Since(table, Firm(firm.value), since) else 0;
      if limits.user > 0 && u >= limits.user {
        assert Applies(User(user), user, firm) && Reached(limits, table, User(user), now);
        return TooMany(User(user));
      }
      if limits.firm > 0 && f >= limits.firm {
        assert Applies(Firm(firm.value), user, firm) && Reached(limits, table, Firm(firm.value), now);
        return TooMany(Firm(firm.value));
      }
      if limits.everyone > 0 && g >= limits.everyone {
        assert Applies(Everyone, user, firm) && Reached(limits, table, Everyone, now);
        return TooMany(Everyone);
      }
      if !storingFails {
        table := table + [Attempt(now, user, firm)];
      }
      r := Charged(u + 1, f + 1, g + 1);
    }
  }

  // ----- every window -----

  /** No window of any scope holds more than its cap. */
  ghost predicate Capped(limits: Limits, table: seq<Attempt>) {
    forall scope, s :: limits.Cap(scope) > 0 ==> InWindow(table, scope, s) <= limits.Cap(scope)
  }

  lemma {:induction false} WindowWithinCount(table: seq<Attempt>, scope: Scope, s: Time, since: Time)
    requires since <= s
    ensures InWindow(table, scope, s) <= Since(table, scope, since)
  {
    if table != [] { WindowWithinCount(table[..|table| - 1], scope, s, since); }
  }

  /** An attempt stored after its caps were checked keeps every window within its cap,
      wherever its timestamp falls among those already stored. */
  lemma ChargeKeepsCapped(limits: Limits, table: seq<Attempt>, user: string, firm: Option<string>, now: Time)
    requires Capped(limits, table) && !Refused(limits, table, user, firm, now)
    ensures Capped(limits, table + [Attempt(now, user, firm)])
  {
    var a := Attempt(now, user, firm);
    var table' := table + [a];
    assert table'[..|table|] == table;
    forall scope, s | limits.Cap(scope) > 0 ensures InWindow(table', scope, s) <= limits.Cap(scope) {
      assert InWindow(table, scope, s) <= limits.Cap(scope);
      if Counts(a, scope) && s < now <= s + WINDOW {
        assert Applies(scope, user, firm);
        WindowWithinCount(table, scope, s, now - WINDOW);
      }
    }
  }

  /** One charge, and what it leaves stored. */
  datatype Call = Call(user: string, firm: Option<string>, now: Time, storingFails: bool)

  ghost function Stored(limits: Limits, table: seq<Attempt>, c: Call): seq<Attempt> {
    if limits.Off() || Refused(limits, table, c.user, c.firm, c.now) || c.storingFails then table
    else table + [Attempt(c.now, c.user, c.firm)]
  }

  ghost function AllStored(limits: Limits, calls: seq<Call>): seq<Attempt> {
    if calls == [] then [] else Stored(limits, AllStored(limits, calls[..|calls| - 1]), calls[|calls| - 1])
  }

  /** Over any sequence of serialised charges, with timestamps in any order. */
  lemma {:induction false} EveryWindowIsCapped(limits: Limits, calls: seq<Call>)
    ensures Capped(limits, AllStored(limits, calls))
  {
    if calls != [] {
      var before, c := AllStored(limits, calls[..|calls| - 1]), calls[|calls| - 1];
      EveryWindowIsCapped(limits, calls[..|calls| - 1]);
      if Stored(limits, before, c) != before { ChargeKeepsCapped(limits, before, c.user, c.firm, c.now); }
    }
  }

  // ----- who counts, and for how long -----

  /** With only the user's cap set, the firm's is three times it and everyone's two
      hundred; what cannot be read counts as not set, and a negative number sets no cap. */
  lemma DefaultsFollowTheUser(u: nat)
    requires u > 0
    ensures LimitsOf(Number(u), Unset, Unset) == Limits(u, 3 * u, 200)
    ensures LimitsOf(Unset, Unset, Unset) == Limits(0, 0, 0) && LimitsOf(Number(-1), Unset, Unset) == Limits(0, 0, 0)
    ensures forall n, m :: n < 0 && m < 0 ==> LimitsOf(Number(u), Number(n), Number(m)) == Limits(u, 0, 0)
    ensures LimitsOf(Number(u), Unreadable, Unreadable) == LimitsOf(Number(u), Unset, Unset)
  {
  }

  /** Attempts of the users `names` of a firm, one each, all at `at`. */
  function FirmAttempts(names: seq<string>, firm: string, at: Time): seq<Attempt> {
    seq(|names|, i requires 0 <= i < |names| => Attempt(at, names[i], Some(firm)))
  }

  lemma {:induction false} FirmCount(names: seq<string>, firm: string, at: Time, since: Time)
    ensures Since(FirmAttempts(names, firm, at), Firm(firm), since) == if at > since then |names| else 0
    ensures forall u :: u !in names ==> Since(FirmAttempts(names, firm, at), User(u), since) == 0
  {
    if names != [] {
      var init := names[..|names| - 1];
      assert FirmAttempts(names, firm, at)[..|names| - 1] == FirmAttempts(init, firm, at);
      assert names == init + [names[|names| - 1]];
      FirmCount(init, firm, at, since);
    }
  }

  const HOUR: int := 3600 * 1000000

  /** A firm's cap is reached by attempts of its other users, twenty-three hours old; a day
      after them it is not, nor is it for a caller without a firm. */
  lemma ColleaguesUseUpTheFirm(names: seq<string>, firm: string, user: string, at: Time)
    requires names != [] && user !in names
    ensures var limits, table := Limits(1, |names|, 0), FirmAttempts(names, firm, at);
            && Refused(limits, table, user, Some(firm), at + 23 * HOUR)
            && !Refused(limits, table, user, Some(firm), at + 24 * HOUR)
            && !Refused(limits, table, user, None, at + 23 * HOUR)
  {
    var limits, table := Limits(1, |names|, 0), FirmAttempts(names, firm, at);
    FirmCount(names, firm, at, at + 23 * HOUR - WINDOW);
    FirmCount(names, firm, at, at + 24 * HOUR - WINDOW);
    assert Applies(Firm(firm), user, Some(firm)) && Reached(limits, table, Firm(firm), at + 23 * HOUR);
  }

  // ----- without the lock -----

  predicate Within(a: Attempt, scope: Scope, s: Time) {
    Counts(a, scope) && s < a.at <= s + WINDOW
  }

  lemma WindowAppend(table: seq<Attempt>, a: Attempt, scope: Scope, s: Time)
    ensures InWindow(table + [a], scope, s) == InWindow(table, scope, s) + (if Within(a, scope, s) then 1 else 0)
  {
    assert (table + [a])[..|table|] == table;
  }

  /** Every capped window that holds both attempts has room for two. */
  ghost predicate RoomForBoth(limits: Limits, table: seq<Attempt>, a: Attempt, b: Attempt) {
    forall scope, s :: limits.Cap(scope) > 0 && Within(a, scope, s) && Within(b, scope, s)
      ==> InWindow(table, scope, s) + 2 <= limits.Cap(scope)
  }

  /** Without the lock two callers may both read the counts before either stores. Both
      admitted on the same table, they keep every cap exactly when each capped window that
      holds both still had room for two. */
  lemma UnserialisedCappedIff(limits: Limits, table: seq<Attempt>, a: Attempt, b: Attempt)
    requires Capped(limits, table)
    requires !Refused(limits, table, a.user, a.firm, a.at) && !Refused(limits, table, b.user, b.firm, b.at)
    ensures Capped(limits, table + [a] + [b]) <==> RoomForBoth(limits, table, a, b)
  {
    ChargeKeepsCapped(limits, table, a.user, a.firm, a.at);
    ChargeKeepsCapped(limits, table, b.user, b.firm, b.at);
    var one, both := table + [a], table + [a] + [b];
    forall scope, s ensures InWindow(both, scope, s) == InWindow(table, scope, s)
      + (if Within(a, scope, s) then 1 else 0) + (if Within(b, scope, s) then 1 else 0)
    {
      WindowAppend(one, b, scope, s);
      WindowAppend(table, a, scope, s);
      WindowAppend(table, b, scope, s);
    }
    hide InWindow, Within;
    if RoomForBoth(limits, table, a, b) {
      forall scope, s | limits.Cap(scope) > 0 ensures InWindow(both, scope, s) <= limits.Cap(scope) {
        WindowAppend(table, a, scope, s);
        WindowAppend(table, b, scope, s);
        assert InWindow(table, scope, s) <= limits.Cap(scope);
        assert InWindow(table + [a], scope, s) <= limits.Cap(scope) && InWindow(table + [b], scope, s) <= limits.Cap(scope);
      }
    }
    if Capped(limits, both) {
      forall scope, s | limits.Cap(scope) > 0 && Within(a, scope, s) && Within(b, scope, s)
        ensures InWindow(table, scope, s) + 2 <= limits.Cap(scope)
      {
        assert InWindow(both, scope, s) <= limits.Cap(scope);
      }
    }
  }

  /** Two callers of one user with one attempt left: each is admitted, together they exceed. */
  lemma LastAttemptTakenTwice(limits: Limits, table: seq<Attempt>, a: Attempt)
    requires Capped(limits, table) && !Refused(limits, table, a.user, a.firm, a.at)
    requires limits.user > 0 && InWindow(table, User(a.user), a.at - 1) + 1 == limits.user
    ensures !Capped(limits, table + [a] + [a])
  {
    UnserialisedCappedIff(limits, table, a, a);
    var scope, s := User(a.user), a.at - 1;
    assert limits.Cap(scope) > 0 && Within(a, scope, s);
  }
}
