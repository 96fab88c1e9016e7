/** The market as of a date and its overrides, one curve at a time, and the blending of one
    tenor bucket of a curve. */
module Market {
  import opened Options

  /** A quote's identity within a curve: its tenor, and its type where a tenor has several. */
  datatype Key = Key(tenor: string, kind: string)

  datatype Quote = Quote(key: Key, rate: real)

  type Quotes = seq<Quote>
  type Rates = map<Key, real>

  /** The rates by key; a later quote of a key replaces an earlier one. */
  function AsMap(qs: Quotes): (m: Rates)
    ensures forall k :: k in m <==> exists i :: 0 <= i < |qs| && qs[i].key == k
  {
    if qs == [] then map[]
    else
      var n := |qs| - 1;
      assert forall i :: 0 <= i < |qs| ==> if i < n then qs[..n][i] == qs[i] else i == n;
      AsMap(qs[..n])[qs[n].key := qs[n].rate]
  }

  datatype Snapshot = Snapshot(stored: map<string, Quotes>, overrides: map<string, Quotes>)
  {
    function Quotes(curve: string): Option<Quotes> {
      if curve in overrides then Some(overrides[curve])
      else if curve in stored then Some(stored[curve]) else None
    }

    function Override(curve: string, qs: Quotes): Snapshot {
      this.(overrides := overrides[curve := qs])
    }

    function WithSingle(curve: string, tenor: string, rate: real): Snapshot {
      Override(curve, [Quote(Key(tenor, if tenor == "SPOT" then "SPOT" else "FLAT"), rate)])
    }

    function Rates(curve: string): Option<Rates> {
      if Quotes(curve).Some? then Some(AsMap(Quotes(curve).value)) else None
    }

    function Single(curve: string, tenor: string): Option<real> {
      if Quotes(curve).Some? then First(Quotes(curve).value, tenor) else None
    }
  }

  /** A curve set to one rate reads as that rate, under the kind of its tenor. */
  lemma SingleReads(m: Snapshot, curve: string, tenor: string, rate: real)
    ensures m.WithSingle(curve, tenor, rate).Single(curve, tenor) == Some(rate)
    ensures m.WithSingle(curve, "SPOT", rate).Rates(curve) == Some(map[Key("SPOT", "SPOT") := rate])
    ensures tenor != "SPOT" ==> m.WithSingle(curve, tenor, rate).Rates(curve) == Some(map[Key(tenor, "FLAT") := rate])
  {
    AsMapOfOne(Quote(Key(tenor, if tenor == "SPOT" then "SPOT" else "FLAT"), rate));
    AsMapOfOne(Quote(Key("SPOT", "SPOT"), rate));
  }

  lemma AsMapOfOne(q: Quote)
    ensures AsMap([q]) == map[q.key := q.rate]
  {
    assert [q][..0] == [];
  }

  /** The first rate quoted for a tenor. */
  function First(qs: Quotes, tenor: string): Option<real> {
    if qs == [] then None else if qs[0].key.tenor == tenor then Some(qs[0].rate) else First(qs[1..], tenor)
  }

  lemma {:induction false} FirstIsFirst(qs: Quotes, tenor: string, i: nat)
    requires i < |qs| && qs[i].key.tenor == tenor && forall j :: 0 <= j < i ==> qs[j].key.tenor != tenor
    ensures First(qs, tenor) == Some(qs[i].rate)
  {
    if i > 0 { FirstIsFirst(qs[1..], tenor, i - 1); }
  }

  function Differs(a: Option<Rates>, b: Option<Rates>): bool {
    a.Some? && b.Some? && a != b
  }

  // ----- blending a bucket -----

  /** Years of a tenor. */
  type Years = string -> real

  predicate Within(years: Years, k: Key, lo: real, hi: real) {
    lo <= years(k.tenor) < hi
  }

  /** `current` with the keys of `[lo, hi)` that `target` quotes taken from it. */
  function Blend(current: Rates, target: Rates, years: Years, lo: real, hi: real): Rates {
    current + map k | k in target && Within(years, k, lo, hi) :: target[k]
  }

  lemma AsMapAppend(qs: Quotes, q: Quote)
    ensures AsMap(qs + [q]) == AsMap(qs)[q.key := q.rate]
  {
  }

  lemma AsMapTake(qs: Quotes, n: nat)
    requires n < |qs|
    ensures AsMap(qs[..n + 1]) == AsMap(qs[..n])[qs[n].key := qs[n].rate]
  {
    assert qs[..n + 1] == qs[..n] + [qs[n]];
    AsMapAppend(qs[..n], qs[n]);
  }

  function Overlay(current: Rates, target: Rates, years: Years, lo: real, hi: real): Rates {
    map k | k in current :: if Within(years, k, lo, hi) && k in target then target[k] else current[k]
  }

  /** The rate a row of key `k` takes. */
  function RowRate(k: Key, rate: real, target: Rates, years: Years, lo: real, hi: real): real {
    if Within(years, k, lo, hi) && k in target then target[k] else rate
  }

  lemma OverlayRow(current: Rates, q: Quote, target: Rates, years: Years, lo: real, hi: real)
    ensures Overlay(current[q.key := q.rate], target, years, lo, hi)
         == Overlay(current, target, years, lo, hi)[q.key := RowRate(q.key, q.rate, target, years, lo, hi)]
  {
  }

  function Only(m: Rates, keys: set<Key>): Rates {
    map k | k in keys && k in m :: m[k]
  }

  lemma OnlyOneMore(m: Rates, keys: set<Key>, k: Key, base: Rates)
    requires k in m
    ensures base + Only(m, keys + {k}) == (base + Only(m, keys))[k := m[k]]
  {
  }

  /** The keys in range that the target has and the current curve has not. */
  function Added(target: Rates, current: Rates, years: Years, lo: real, hi: real): set<Key> {
    set k | k in target.Keys && k !in current && Within(years, k, lo, hi)
  }

  lemma IsAdded(target: Rates, current: Rates, years: Years, lo: real, hi: real, k: Key)
    ensures k in Added(target, current, years, lo, hi) <==> k in target && k !in current && Within(years, k, lo, hi)
  {
  }

  lemma OverlayAndAdded(current: Rates, target: Rates, years: Years, lo: real, hi: real)
    ensures Overlay(current, target, years, lo, hi) + Only(target, Added(target, current, years, lo, hi))
         == Blend(current, target, years, lo, hi)
  {
  }

  method ReplaceRows(current: Quotes, tgt: Rates, years: Years, lo: real, hi: real) returns (out: Quotes, seen: set<Key>)
    ensures AsMap(out) == Overlay(AsMap(current), tgt, years, lo, hi) && seen == AsMap(current).Keys
  {
    out, seen := [], {};
    var n := 0;
    while n < |current|
      invariant 0 <= n <= |current|
      invariant seen == AsMap(current[..n]).Keys
      invariant AsMap(out) == Overlay(AsMap(current[..n]), tgt, years, lo, hi)
    {
      hide AsMap, Overlay, RowRate;
      var q := current[n];
      var rate := RowRate(q.key, q.rate, tgt, years, lo, hi);
      AsMapTake(current, n);
      OverlayRow(AsMap(current[..n]), q, tgt, years, lo, hi);
      AsMapAppend(out, Quote(q.key, rate));
      out := out + [Quote(q.key, rate)];
      seen := seen + {q.key};
      n := n + 1;
    }
    assert current[..n] == current;
  }

  /** Every row of a tenor is replaced, rows the target does not quote are kept, and rows it
      has anew are added at the end. */
  method BucketQuotes(current: Quotes, target: Quotes, years: Years, lo: real, hi: real) returns (out: Quotes)
    ensures AsMap(out) == Blend(AsMap(current), AsMap(target), years, lo, hi)
  {
    hide AsMap, Overlay, Only, Blend, Added, Within;
    var tgt := AsMap(target);
    ghost var cur := AsMap(current);
    var seen;
    out, seen := ReplaceRows(current, tgt, years, lo, hi);
    ghost var overlay := AsMap(out);
    ghost var added: set<Key> := {};
    assert overlay == overlay + Only(tgt, {}) by { OnlyNone(tgt, overlay); }
    var n := 0;
    while n < |target|
      invariant 0 <= n <= |target| && seen == cur.Keys + added
      invariant AsMap(out) == overlay + Only(tgt, added)
      invariant added <= Added(tgt, cur, years, lo, hi)
      invariant forall i :: 0 <= i < n && target[i].key in Added(tgt, cur, years, lo, hi) ==> target[i].key in added
    {
      var k := target[n].key;
      KeyIsQuoted(target, n);
      IsAdded(tgt, cur, years, lo, hi, k);
      if k !in seen && Within(years, k, lo, hi) {
        AsMapAppend(out, Quote(k, tgt[k]));
        OnlyOneMore(tgt, added, k, overlay);
        out := out + [Quote(k, tgt[k])];
        seen := seen + {k};
        added := added + {k};
      }
      n := n + 1;
    }
    assert added == Added(tgt, cur, years, lo, hi) by {
      forall k | k in Added(tgt, cur, years, lo, hi) ensures k in added {
        IsAdded(tgt, cur, years, lo, hi, k);
        var i := QuotedSomewhere(target, k);
      }
    }
    OverlayAndAdded(cur, tgt, years, lo, hi);
  }

  lemma OnlyNone(m: Rates, base: Rates)
    ensures base + Only(m, {}) == base
  {
  }

  lemma KeyIsQuoted(qs: Quotes, n: nat)
    requires n < |qs|
    ensures qs[n].key in AsMap(qs)
  {
  }

  lemma QuotedSomewhere(qs: Quotes, k: Key) returns (i: nat)
    requires k in AsMap(qs)
    ensures i < |qs| && qs[i].key == k
  {
    i :| 0 <= i < |qs| && qs[i].key == k;
  }

  // ----- buckets -----

  const BOUNDS: seq<real> := [0.0, 1.0001, 5.0001, 10.0001, 1000000000.0]

  /** Tenors of up to one year, five years and ten years are in the first three buckets, and
      longer ones in the last. */
  lemma BucketsOfTenors(years: Years, k: Key)
    ensures 0.0 <= years(k.tenor) <= 1.0 ==> Within(years, k, BOUNDS[0], BOUNDS[1])
    ensures 1.01 <= years(k.tenor) <= 5.0 ==> Within(years, k, BOUNDS[1], BOUNDS[2])
    ensures 5.01 <= years(k.tenor) <= 10.0 ==> Within(years, k, BOUNDS[2], BOUNDS[3])
    ensures 10.01 <= years(k.tenor) <= 999999999.0 ==> Within(years, k, BOUNDS[3], BOUNDS[4])
  {
  }

  /** Every tenor falls in a bucket. */
  ghost predicate InBuckets(years: Years, target: Rates) {
    forall k :: k in target ==> Within(years, k, BOUNDS[0], BOUNDS[4])
  }

  /** Buckets that meet blend into one. */
  lemma BlendsCompose(current: Rates, target: Rates, years: Years, lo: real, mid: real, hi: real)
    requires lo <= mid <= hi
    ensures Blend(Blend(current, target, years, lo, mid), target, years, mid, hi) == Blend(current, target, years, lo, hi)
  {
  }

  /** The four buckets together are the whole target over the current curve. */
  lemma AllBuckets(current: Rates, target: Rates, years: Years)
    requires InBuckets(years, target)
    ensures Blend(current, target, years, BOUNDS[0], BOUNDS[4]) == current + target
  {
  }
}
