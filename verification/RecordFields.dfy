/** Fields as booked, fields as recorded, and who comes first for a stated direction. */
module RecordFields {
  import opened Decimals
  import opened Json
  import opened Strings

  /** A field as booked. Dates are carried as their ISO text. */
  datatype Raw = RNull | RBool(b: bool) | RNumber(d: Decimal) | RText(s: string)
    | RList(items: seq<Raw>) | RDict(entries: map<string, Raw>)

  type Fields = map<string, Raw>

  /** Why a record is refused. */
  datatype Error = MissingLei | SameLei | BadDirection | NotStated(names: seq<string>) | NotANumber(name: string)
    | NotPositive | BadSettlementType | NdfMustNotDeliver | BadPair | BadOptionType | BadStyle | BadExerciseStyle
    | BadBarrierType | BadBarriers | BadTouchType | BadDates

  datatype Result<T> = Ok(value: T) | Err(error: Error) {
    predicate IsFailure() {
      Err?
    }

    function PropagateFailure<U>(): Result<U>
      requires Err?
    {
      Err(error)
    }

    function Extract(): T
      requires Ok?
    {
      value
    }
  }

  datatype Check = Pass | Fail(error: Error) {
    predicate IsFailure() {
      Fail?
    }

    function PropagateFailure<U>(): Result<U>
      requires Fail?
    {
      Err(error)
    }
  }

  function Need(condition: bool, error: Error): Check {
    if condition then Pass else Fail(error)
  }

  function Get(f: Fields, name: string): Raw {
    if name in f then f[name] else RNull
  }

  function Normalise(v: Raw): Value {
    match v
    case RNull => Null
    case RBool(b) => Bool(b)
    case RNumber(d) => Str(NumStr(d))
    case RText(s) => Str(s)
    case RList(items) => List(seq(|items|, i requires 0 <= i < |items| => Normalise(items[i])))
    case RDict(m) => Obj(map k | k in m :: Normalise(m[k]))
  }

  function NormaliseAll(f: Fields): map<string, Value> {
    map k | k in f :: Normalise(f[k])
  }

  function Pick(f: Fields, names: set<string>): map<string, Value> {
    map n | n in names :: Normalise(Get(f, n))
  }

  // ----- sides -----

  /** Who comes first and second for a direction stated by the booker. */
  datatype Sides = Sides(first: string, second: string)

  const PAYS: set<string> := {"PAY"}
  const GETS: set<string> := {"RECEIVE"}
  const BUYS: set<string> := {"BUY", "LONG"}
  const SELLS: set<string> := {"SELL", "SHORT"}

  predicate Says(direction: Raw, words: set<string>) {
    direction.RText? && Upper(direction.s) in words
  }

  function SidesOf(direction: Raw, own: string, cp: string, pays: set<string>, gets: set<string>): Result<Sides> {
    if Says(direction, pays) then Ok(Sides(own, cp))
    else if Says(direction, gets) then Ok(Sides(cp, own))
    else Err(BadDirection)
  }

  /** One booker's direction seen by the other. */
  ghost predicate Opposite(d: Raw, e: Raw, pays: set<string>, gets: set<string>) {
    (Says(d, pays) && Says(e, gets)) || (Says(d, gets) && Says(e, pays))
  }

  lemma OppositeSides(d: Raw, e: Raw, own: string, cp: string, pays: set<string>, gets: set<string>)
    requires Opposite(d, e, pays, gets) && pays !! gets
    ensures SidesOf(d, own, cp, pays, gets) == SidesOf(e, cp, own, pays, gets) && SidesOf(d, own, cp, pays, gets).Ok?
  {
  }
}
