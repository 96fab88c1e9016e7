/** Sorting by a key of strings, compared code point by code point and then component by
    component, keeping the order of rows whose keys are equal. */
module StableSort {
  import opened Json

  type Key = seq<string>

  predicate KeyLeq(a: Key, b: Key) {
    a == [] || (b != [] && (if a[0] == b[0] then KeyLeq(a[1..], b[1..]) else Leq(a[0], b[0])))
  }

  lemma {:induction false} KeyLeqTotal(a: Key, b: Key)
    ensures KeyLeq(a, b) || KeyLeq(b, a)
    ensures KeyLeq(a, b) && KeyLeq(b, a) ==> a == b
  {
    if a != [] && b != [] {
      LeqTotal(a[0], b[0]);
      if a[0] == b[0] {
        KeyLeqTotal(a[1..], b[1..]);
        assert a == [a[0]] + a[1..] && b == [b[0]] + b[1..];
      }
    }
  }

  lemma {:induction false} KeyLeqTransitive(a: Key, b: Key, c: Key)
    requires KeyLeq(a, b) && KeyLeq(b, c)
    ensures KeyLeq(a, c)
  {
    if a != [] {
      if a[0] == b[0] == c[0] {
        KeyLeqTransitive(a[1..], b[1..], c[1..]);
      } else if a[0] != b[0] && b[0] != c[0] {
        LeqTransitive(a[0], b[0], c[0]);
        LeqTotal(a[0], b[0]);
      }
    }
  }

  function Insert<T>(key: T -> Key, x: T, s: seq<T>): (r: seq<T>)
    ensures multiset(r) == multiset(s) + multiset{x}
  {
    if s == [] || KeyLeq(key(x), key(s[0])) then [x] + s
    else
      assert s == [s[0]] + s[1..];
      [s[0]] + Insert(key, x, s[1..])
  }

  function Sorted<T>(key: T -> Key, s: seq<T>): (r: seq<T>)
    ensures multiset(r) == multiset(s)
  {
    if s == [] then []
    else
      assert s == [s[0]] + s[1..];
      Insert(key, s[0], Sorted(key, s[1..]))
  }

  function Own<T>(key: T -> Key, x: T, k: Key): seq<T> {
    if key(x) == k then [x] else []
  }

  /** The rows with key `k`, in order. */
  function With<T>(key: T -> Key, s: seq<T>, k: Key): seq<T> {
    if s == [] then [] else Own(key, s[0], k) + With(key, s[1..], k)
  }

  /** The rows of each key are the same and stand in the same order. */
  ghost predicate SameOrder<T>(key: T -> Key, s: seq<T>, t: seq<T>) {
    forall k :: With(key, s, k) == With(key, t, k)
  }

  ghost predicate Ascending<T>(key: T -> Key, s: seq<T>) {
    forall i, j :: 0 <= i < j < |s| ==> KeyLeq(key(s[i]), key(s[j]))
  }

  lemma {:induction false} InsertAscends<T>(key: T -> Key, x: T, s: seq<T>)
    requires Ascending(key, s)
    ensures Ascending(key, Insert(key, x, s))
  {
    if s == [] || KeyLeq(key(x), key(s[0])) {
      forall j | 0 <= j < |s| ensures KeyLeq(key(x), key(s[j])) {
        if j > 0 { KeyLeqTransitive(key(x), key(s[0]), key(s[j])); }
      }
    } else {
      InsertAscends(key, x, s[1..]);
      KeyLeqTotal(key(x), key(s[0]));
      var r := Insert(key, x, s[1..]);
      forall j | 0 <= j < |r| ensures KeyLeq(key(s[0]), key(r[j])) {
        assert r[j] in multiset(r);
        if r[j] in s[1..] {
          var i :| 0 <= i < |s[1..]| && s[1..][i] == r[j];
          assert s[i + 1] == r[j];
        }
      }
    }
  }

  lemma {:induction false} SortedAscends<T>(key: T -> Key, s: seq<T>)
    ensures Ascending(key, Sorted(key, s))
  {
    if s != [] {
      SortedAscends(key, s[1..]);
      InsertAscends(key, s[0], Sorted(key, s[1..]));
    }
  }

  lemma WithCons<T>(key: T -> Key, x: T, s: seq<T>, k: Key)
    ensures With(key, [x] + s, k) == Own(key, x, k) + With(key, s, k)
  {
  }

  lemma {:induction false} InsertWith<T>(key: T -> Key, x: T, s: seq<T>, k: Key)
    requires Ascending(key, s)
    ensures With(key, Insert(key, x, s), k) == Own(key, x, k) + With(key, s, k)
  {
    if s == [] || KeyLeq(key(x), key(s[0])) {
      WithCons(key, x, s, k);
    } else {
      InsertWith(key, x, s[1..], k);
      var y, r := s[0], Insert(key, x, s[1..]);
      WithCons(key, y, r, k);
      WithCons(key, y, s[1..], k);
      assert s == [y] + s[1..];
      KeyLeqTotal(k, k);
      hide Insert, Ascending, With;
      assert Own(key, x, k) == [] || Own(key, y, k) == [];
    }
  }

  /** Sorting keeps the order of the rows of each key. */
  lemma {:induction false} SortIsStable<T>(key: T -> Key, s: seq<T>, k: Key)
    ensures With(key, Sorted(key, s), k) == With(key, s, k)
  {
    if s != [] {
      SortedAscends(key, s[1..]);
      SortIsStable(key, s[1..], k);
      InsertWith(key, s[0], Sorted(key, s[1..]), k);
    }
  }

  lemma {:induction false} WithHolds<T>(key: T -> Key, s: seq<T>, k: Key)
    ensures forall x :: x in With(key, s, k) ==> x in s && key(x) == k
    ensures (exists x :: x in s && key(x) == k) <==> With(key, s, k) != []
  {
    if s != [] {
      WithHolds(key, s[1..], k);
      assert s == [s[0]] + s[1..];
    }
  }

  lemma HeadIsLeast<T>(key: T -> Key, s: seq<T>, t: seq<T>)
    requires Ascending(key, s) && Ascending(key, t) && s != []
    requires SameOrder(key, s, t)
    ensures t != [] && s[0] == t[0]
  {
    var k := key(s[0]);
    assert s[0] in s;
    WithHolds(key, s, k);
    WithHolds(key, t, k);
    var x := With(key, t, k)[0];
    assert x in t;
    var l := key(t[0]);
    assert t[0] in t;
    WithHolds(key, t, l);
    WithHolds(key, s, l);
    var y := With(key, s, l)[0];
    assert y in s && key(y) == l && key(x) == k;
    var i :| 0 <= i < |s| && s[i] == y;
    var j :| 0 <= j < |t| && t[j] == x;
    KeyLeqTotal(k, l);
  }

  lemma {:induction false} AscendingUnique<T>(key: T -> Key, s: seq<T>, t: seq<T>)
    requires Ascending(key, s) && Ascending(key, t)
    requires SameOrder(key, s, t)
    ensures s == t
  {
    if s != [] {
      HeadIsLeast(key, s, t);
      forall k ensures With(key, s[1..], k) == With(key, t[1..], k) {
        assert With(key, s, k) == With(key, t, k);
        var head := Own(key, s[0], k);
        assert With(key, s, k)[|head|..] == With(key, s[1..], k);
        assert With(key, t, k)[|head|..] == With(key, t[1..], k);
      }
      AscendingUnique(key, s[1..], t[1..]);
      assert s == [s[0]] + s[1..] && t == [t[0]] + t[1..];
    } else if t != [] {
      HeadIsLeast(key, t, s);
    }
  }

  /** Two lists sort alike exactly when each key's rows stand in the same order in both. */
  lemma SortAlikeIff<T>(key: T -> Key, s: seq<T>, t: seq<T>)
    ensures Sorted(key, s) == Sorted(key, t) <==> SameOrder(key, s, t)
  {
    hide With, Sorted, Ascending;
    if Sorted(key, s) == Sorted(key, t) {
      forall k ensures With(key, s, k) == With(key, t, k) {
        SortIsStable(key, s, k);
        SortIsStable(key, t, k);
      }
    }
    if SameOrder(key, s, t) {
      forall k ensures With(key, Sorted(key, s), k) == With(key, Sorted(key, t), k) {
        SortIsStable(key, s, k);
        SortIsStable(key, t, k);
      }
      SortedAscends(key, s);
      SortedAscends(key, t);
      AscendingUnique(key, Sorted(key, s), Sorted(key, t));
    }
  }

  lemma PairInFront<T>(a: seq<T>, x: T, b: seq<T>, y: T, c: seq<T>)
    ensures multiset([x, y] + (a + b + c)) == multiset(a + [x] + b + [y] + c) == multiset([y, x] + (a + b + c))
  {
  }

  /** Any two rows of a list can be brought to the front. */
  lemma PairFirst<T>(s: seq<T>, i: nat, j: nat) returns (rest: seq<T>)
    requires i < |s| && j < |s| && i != j
    ensures multiset([s[i], s[j]] + rest) == multiset(s) == multiset([s[j], s[i]] + rest)
  {
    var l, h := if i < j then i else j, if i < j then j else i;
    var a, b, c := s[..l], s[l + 1..h], s[h + 1..];
    rest := a + b + c;
    assert s == a + [s[l]] + b + [s[h]] + c;
    PairInFront(a, s[l], b, s[h], c);
  }

  /** Two different rows with the same key sort in the order they came. */
  lemma TiesKeepTheirOrder<T>(key: T -> Key, x: T, y: T, rest: seq<T>)
    requires x != y && key(x) == key(y)
    ensures Sorted(key, [x, y] + rest) != Sorted(key, [y, x] + rest)
  {
    hide Sorted;
    var s, t, k := [x, y] + rest, [y, x] + rest, key(x);
    assert s == [x] + ([y] + rest) && t == [y] + ([x] + rest);
    WithCons(key, x, [y] + rest, k);
    WithCons(key, y, [x] + rest, k);
    assert With(key, s, k)[0] == x && With(key, t, k)[0] == y;
    SortAlikeIff(key, s, t);
  }

  /** Rows with equal keys are equal. */
  ghost predicate KeyIdentifies<T>(key: T -> Key, s: seq<T>) {
    forall x, y :: x in s && y in s && key(x) == key(y) ==> x == y
  }

  lemma {:induction false} WithIsRepeated<T>(key: T -> Key, s: seq<T>, x: T)
    requires KeyIdentifies(key, s) && x in s
    ensures With(key, s, key(x)) == seq(multiset(s)[x], _ => x)
  {
    assert s == [s[0]] + s[1..];
    assert key(s[0]) == key(x) ==> s[0] == x;
    if x in s[1..] {
      WithIsRepeated(key, s[1..], x);
    } else {
      WithHolds(key, s[1..], key(x));
      assert forall y :: y in s[1..] ==> y in s;
      assert multiset(s[1..])[x] == 0;
    }
  }

  /** When the key is the whole content, only which rows there are matters. */
  lemma SortByContent<T>(key: T -> Key, s: seq<T>, t: seq<T>)
    requires KeyIdentifies(key, s)
    ensures Sorted(key, s) == Sorted(key, t) <==> multiset(s) == multiset(t)
  {
    SortAlikeIff(key, s, t);
    assert multiset(Sorted(key, s)) == multiset(s) && multiset(Sorted(key, t)) == multiset(t);
    if multiset(s) == multiset(t) {
      forall x ensures x in s <==> x in t { assert x in s <==> x in multiset(s); assert x in t <==> x in multiset(t); }
      forall k ensures With(key, s, k) == With(key, t, k) {
        WithHolds(key, s, k);
        WithHolds(key, t, k);
        if With(key, s, k) != [] || With(key, t, k) != [] {
          var x :| x in s && key(x) == k;
          WithIsRepeated(key, s, x);
          WithIsRepeated(key, t, x);
        }
      }
    }
  }
}
