/** The `orderBy` filter: decorate, sort by a multi-key comparator, undecorate (src/filters/order-by.ts). */
module OrderBy {

  /** A string as its UTF-16 code units, the way JavaScript compares strings. */
  type Text = seq<int>

  /** Values a predicate may produce; numbers are free of NaN. */
  datatype Value = Undefined | Null | Boolean(b: bool) | Number(r: real) | Str(s: Text) | Object(id: int)

  datatype Type = TUndefined | TNull | TBoolean | TNumber | TString | TObject

  /** `PredicateValue` */
  datatype Key = Key(value: Value, index: nat)

  /** A sort predicate after `processPredicates`. */
  datatype Predicate = Predicate(get: Value -> Value, descending: bool)

  /** `ComparisonObject`; `index` is the tie breaker. */
  datatype Item = Item(value: Value, index: nat, keys: seq<Key>)

  /** What the browser supplies: `toLowerCase`, and the conversion of objects by `valueOf` and `toString`. */
  datatype Host = Host(lower: Text -> Text, objectValue: Value -> Value)

  function TypeOf(v: Value): Type {
    match v
    case Undefined => TUndefined
    case Null => TNull
    case Boolean(_) => TBoolean
    case Number(_) => TNumber
    case Str(_) => TString
    case Object(_) => TObject
  }

  function Codes(s: string): Text { seq(|s|, i requires 0 <= i < |s| => s[i] as int) }

  /** The name `typeof` gives, which decides the order between types. */
  function TypeName(t: Type): Text {
    match t
    case TUndefined => Codes("undefined")
    case TNull => Codes("null")
    case TBoolean => Codes("boolean")
    case TNumber => Codes("number")
    case TString => Codes("string")
    case TObject => Codes("object")
  }

  /** `<` on strings */
  predicate Less(a: Text, b: Text)
    decreases |a|
  {
    if |b| == 0 then false
    else if |a| == 0 then true
    else if a[0] != b[0] then a[0] < b[0]
    else Less(a[1..], b[1..])
  }

  /** `getPredicateValue` */
  function PredicateValue(host: Host, v: Value, index: nat): Key {
    Key(if v.Object? then host.objectValue(v) else v, index)
  }

  /** `defaultCompare` */
  function Compare(host: Host, k1: Key, k2: Key): (r: int)
    ensures -1 <= r <= 1
  {
    var t1 := TypeOf(k1.value);
    var t2 := TypeOf(k2.value);
    if t1 == t2 then
      match t1
      case TString => CompareText(host.lower(k1.value.s), host.lower(k2.value.s))
      case TObject => if k1.index == k2.index then 0 else if k1.index < k2.index then -1 else 1
      case TNumber => if k1.value.r == k2.value.r then 0 else if k1.value.r < k2.value.r then -1 else 1
      case TBoolean => if k1.value.b == k2.value.b then 0 else if !k1.value.b then -1 else 1
      case _ => 0
    else if t1 == TUndefined then 1
    else if t2 == TUndefined then -1
    else if t1 == TNull then 1
    else if t2 == TNull then -1
    else if Less(TypeName(t1), TypeName(t2)) then -1 else 1
  }

  function CompareText(a: Text, b: Text): (r: int)
    ensures -1 <= r <= 1
  {
    if a == b then 0 else if Less(a, b) then -1 else 1
  }

  function Sign(descending: bool): int { if descending then -1 else 1 }

  /** `doComparison` from predicate i on. */
  function CompareFrom(host: Host, directions: seq<bool>, reverse: bool, a: Item, b: Item, i: nat): int
    requires |a.keys| == |b.keys| == |directions| && i <= |directions|
    decreases |directions| - i
  {
    if i == |directions| then CompareIndex(a, b) * Sign(reverse)
    else
      var r := Compare(host, a.keys[i], b.keys[i]);
      if r != 0 then r * Sign(directions[i]) * Sign(reverse)
      else CompareFrom(host, directions, reverse, a, b, i + 1)
  }

  function CompareIndex(a: Item, b: Item): int {
    if a.index == b.index then 0 else if a.index < b.index then -1 else 1
  }

  /** `doComparison` as the loop it is. */
  method DoComparison(host: Host, directions: seq<bool>, reverse: bool, v1: Item, v2: Item) returns (r: int)
    requires |v1.keys| == |v2.keys| == |directions|
    ensures r == CompareFrom(host, directions, reverse, v1, v2, 0)
  {
    var i := 0;
    while i < |directions|
      invariant 0 <= i <= |directions|
      invariant CompareFrom(host, directions, reverse, v1, v2, 0) == CompareFrom(host, directions, reverse, v1, v2, i)
    {
      var result := Compare(host, v1.keys[i], v2.keys[i]);
      if result != 0 { return result * Sign(directions[i]) * Sign(reverse); }
      i := i + 1;
    }
    return CompareIndex(v1, v2) * Sign(reverse);
  }

  // ---- the order of keys

  lemma {:induction false} LessTotal(a: Text, b: Text)
    ensures Less(a, b) || Less(b, a) || a == b
    ensures !(Less(a, b) && Less(b, a)) && !Less(a, a)
    decreases |a|
  {
    if |a| > 0 {
      LessIrreflexive(a);
      if |b| > 0 && a[0] == b[0] {
        LessTotal(a[1..], b[1..]);
        assert a == [a[0]] + a[1..] && b == [b[0]] + b[1..];
      }
    }
  }

  lemma {:induction false} LessIrreflexive(a: Text)
    ensures !Less(a, a)
    decreases |a|
  {
    if |a| > 0 { LessIrreflexive(a[1..]); }
  }

  lemma {:induction false} LessTransitive(a: Text, b: Text, c: Text)
    requires Less(a, b) && Less(b, c)
    ensures Less(a, c)
    decreases |a|
  {
    if |a| > 0 && a[0] == b[0] && b[0] == c[0] { LessTransitive(a[1..], b[1..], c[1..]); }
  }

  /** Types order as boolean, number, object, string, null, undefined. */
  function Rank(t: Type): nat {
    match t
    case TBoolean => 0
    case TNumber => 1
    case TObject => 2
    case TString => 3
    case TNull => 4
    case TUndefined => 5
  }

  lemma TypesByRank(host: Host, k1: Key, k2: Key)
    requires TypeOf(k1.value) != TypeOf(k2.value)
    ensures Compare(host, k1, k2) == if Rank(TypeOf(k1.value)) < Rank(TypeOf(k2.value)) then -1 else 1
  {
    var names := [TypeName(TBoolean), TypeName(TNumber), TypeName(TObject), TypeName(TString)];
    assert names[0][0] == 'b' as int && names[1][0] == 'n' as int && names[2][0] == 'o' as int
        && names[3][0] == 's' as int;
    assert 'b' as int < 'n' as int < 'o' as int < 's' as int;
  }

  lemma CompareAntisymmetric(host: Host, k1: Key, k2: Key)
    ensures Compare(host, k1, k2) == -Compare(host, k2, k1)
  {
    if TypeOf(k1.value) != TypeOf(k2.value) {
      TypesByRank(host, k1, k2);
      TypesByRank(host, k2, k1);
    } else if k1.value.Str? {
      LessTotal(host.lower(k1.value.s), host.lower(k2.value.s));
    }
  }

  /** Not greater is transitive, and equal only when both steps are. */
  lemma CompareTransitive(host: Host, a: Key, b: Key, c: Key)
    requires Compare(host, a, b) <= 0 && Compare(host, b, c) <= 0
    ensures Compare(host, a, c) <= 0
    ensures Compare(host, a, c) == 0 <==> Compare(host, a, b) == 0 && Compare(host, b, c) == 0
  {
    if TypeOf(a.value) != TypeOf(b.value) { TypesByRank(host, a, b); }
    if TypeOf(b.value) != TypeOf(c.value) { TypesByRank(host, b, c); }
    if TypeOf(a.value) != TypeOf(c.value) { TypesByRank(host, a, c); }
    if a.value.Str? && b.value.Str? && c.value.Str? {
      var x, y, z := host.lower(a.value.s), host.lower(b.value.s), host.lower(c.value.s);
      LessTotal(x, y);
      LessTotal(y, z);
      LessTotal(x, z);
      if x != y && y != z { LessTransitive(x, y, z); }
    }
  }

  /** `Compare` in the direction of one predicate, under the overall one. */
  function Directed(host: Host, d: int, a: Key, b: Key): int { Compare(host, a, b) * d }

  lemma DirectedTransitive(host: Host, d: int, a: Key, b: Key, c: Key)
    requires d == 1 || d == -1
    requires Directed(host, d, a, b) <= 0 && Directed(host, d, b, c) <= 0
    ensures Directed(host, d, a, c) <= 0
    ensures Directed(host, d, a, c) == 0 <==> Directed(host, d, a, b) == 0 && Directed(host, d, b, c) == 0
  {
    CompareAntisymmetric(host, a, b);
    CompareAntisymmetric(host, b, c);
    CompareAntisymmetric(host, a, c);
    if d == 1 { CompareTransitive(host, a, b, c); } else { CompareTransitive(host, c, b, a); }
  }

  // ---- the order of items

  lemma {:induction false} ItemsAntisymmetric(host: Host, directions: seq<bool>, reverse: bool, a: Item, b: Item,
      i: nat)
    requires |a.keys| == |b.keys| == |directions| && i <= |directions|
    ensures CompareFrom(host, directions, reverse, a, b, i) == -CompareFrom(host, directions, reverse, b, a, i)
    ensures CompareFrom(host, directions, reverse, a, b, i) == 0 ==> a.index == b.index
    decreases |directions| - i
  {
    if i < |directions| {
      CompareAntisymmetric(host, a.keys[i], b.keys[i]);
      ItemsAntisymmetric(host, directions, reverse, a, b, i + 1);
    }
  }

  lemma {:induction false} ItemsTransitive(host: Host, directions: seq<bool>, reverse: bool, a: Item, b: Item,
      c: Item, i: nat)
    requires |a.keys| == |b.keys| == |c.keys| == |directions| && i <= |directions|
    requires CompareFrom(host, directions, reverse, a, b, i) < 0 && CompareFrom(host, directions, reverse, b, c, i) < 0
    ensures CompareFrom(host, directions, reverse, a, c, i) < 0
    decreases |directions| - i
  {
    if i < |directions| {
      var d := Sign(directions[i]) * Sign(reverse);
      var r1, r2, r3 := Compare(host, a.keys[i], b.keys[i]), Compare(host, b.keys[i], c.keys[i]),
          Compare(host, a.keys[i], c.keys[i]);
      assert r1 * Sign(directions[i]) * Sign(reverse) == r1 * d;
      assert r2 * Sign(directions[i]) * Sign(reverse) == r2 * d;
      assert r3 * Sign(directions[i]) * Sign(reverse) == r3 * d;
      DirectedTransitive(host, d, a.keys[i], b.keys[i], c.keys[i]);
      if r1 == 0 && r2 == 0 { ItemsTransitive(host, directions, reverse, a, b, c, i + 1); }
    }
  }

  /** Reversing the whole order negates every comparison. */
  lemma {:induction false} ReverseNegates(host: Host, directions: seq<bool>, a: Item, b: Item, i: nat)
    requires |a.keys| == |b.keys| == |directions| && i <= |directions|
    ensures CompareFrom(host, directions, true, a, b, i) == -CompareFrom(host, directions, false, a, b, i)
    decreases |directions| - i
  {
    if i < |directions| { ReverseNegates(host, directions, a, b, i + 1); }
  }

  // ---- sorting

  predicate KeysFit(directions: seq<bool>, items: seq<Item>) {
    forall a | a in items :: |a.keys| == |directions|
  }

  ghost predicate DistinctIndices(items: seq<Item>) {
    forall i, j | 0 <= i < j < |items| :: items[i].index != items[j].index
  }

  ghost predicate Ordered(host: Host, directions: seq<bool>, reverse: bool, items: seq<Item>)
    requires KeysFit(directions, items)
  {
    forall i, j | 0 <= i < j < |items| :: CompareFrom(host, directions, reverse, items[i], items[j], 0) < 0
  }

  lemma SameHead(host: Host, directions: seq<bool>, reverse: bool, s: seq<Item>, t: seq<Item>)
    requires KeysFit(directions, s) && KeysFit(directions, t) && |s| > 0 && |t| > 0
    requires Ordered(host, directions, reverse, s) && Ordered(host, directions, reverse, t)
    requires s[0] in t && t[0] in s
    ensures s[0] == t[0]
  {
    if s[0] != t[0] {
      var i :| 0 <= i < |t| && t[i] == s[0];
      var j :| 0 <= j < |s| && s[j] == t[0];
      assert CompareFrom(host, directions, reverse, s[0], s[j], 0) < 0;
      assert CompareFrom(host, directions, reverse, t[0], t[i], 0) < 0;
      ItemsAntisymmetric(host, directions, reverse, s[0], t[0], 0);
    }
  }

  lemma SameItems(s: seq<Item>, t: seq<Item>)
    requires multiset(s) == multiset(t)
    ensures |s| == |t|
    ensures forall a :: a in s <==> a in t
  {
    assert |multiset(s)| == |s| && |multiset(t)| == |t|;
    forall a ensures a in s <==> a in t { assert a in multiset(s) <==> a in multiset(t); }
  }

  lemma RestOf(s: seq<Item>)
    requires |s| > 0
    ensures multiset(s[1..]) == multiset(s) - multiset{s[0]}
  {
    assert s == [s[0]] + s[1..];
  }

  lemma RestsAgree(s: seq<Item>, t: seq<Item>)
    requires |s| > 0 && |t| > 0 && s[0] == t[0] && multiset(s) == multiset(t)
    ensures multiset(s[1..]) == multiset(t[1..])
  {
    RestOf(s);
    RestOf(t);
  }

  /** Main result: two ordered arrangements of the same items are the same. */
  lemma {:induction false} OrderedUnique(host: Host, directions: seq<bool>, reverse: bool, s: seq<Item>, t: seq<Item>)
    requires KeysFit(directions, s) && KeysFit(directions, t) && multiset(s) == multiset(t)
    requires Ordered(host, directions, reverse, s) && Ordered(host, directions, reverse, t)
    ensures s == t
    decreases |s|
  {
    SameItems(s, t);
    if |s| > 0 {
      SameHead(host, directions, reverse, s, t);
      RestsAgree(s, t);
      OrderedUnique(host, directions, reverse, s[1..], t[1..]);
      assert s == [s[0]] + s[1..] && t == [t[0]] + t[1..];
    }
  }

  function Reversed(s: seq<Item>): (r: seq<Item>)
    ensures |r| == |s|
    ensures forall i | 0 <= i < |s| :: r[i] == s[|s| - 1 - i]
    ensures multiset(r) == multiset(s)
    decreases |s|
  {
    if |s| == 0 then [] else
    assert s == s[..|s| - 1] + [s[|s| - 1]];
    [s[|s| - 1]] + Reversed(s[..|s| - 1])
  }

  /**
   * Main result: whatever sorting algorithm the engine uses, the descending result is the ascending
   * one backwards, ties included.
   */
  lemma ReverseIsBackwards(host: Host, directions: seq<bool>, up: seq<Item>, down: seq<Item>)
    requires KeysFit(directions, up) && Ordered(host, directions, false, up)
    requires KeysFit(directions, down) && Ordered(host, directions, true, down)
    requires multiset(up) == multiset(down)
    ensures down == Reversed(up)
  {
    var back := Reversed(up);
    SameItems(back, up);
    forall i, j | 0 <= i < j < |back| ensures CompareFrom(host, directions, true, back[i], back[j], 0) < 0 {
      var x, y := up[|up| - 1 - i], up[|up| - 1 - j];
      assert CompareFrom(host, directions, false, y, x, 0) < 0;
      ItemsAntisymmetric(host, directions, false, y, x, 0);
      ReverseNegates(host, directions, x, y, 0);
    }
    OrderedUnique(host, directions, true, down, back);
  }

  /** `sort`: any algorithm would do; this one inserts the items one by one. */
  function Insert(host: Host, directions: seq<bool>, reverse: bool, a: Item, s: seq<Item>): (r: seq<Item>)
    requires |a.keys| == |directions| && KeysFit(directions, s)
    ensures multiset(r) == multiset(s) + multiset{a}
    ensures forall b :: b in r <==> b == a || b in s
    decreases |s|
  {
    if |s| == 0 then [a]
    else
      assert s == [s[0]] + s[1..];
      if CompareFrom(host, directions, reverse, a, s[0], 0) < 0 then [a] + s
      else [s[0]] + Insert(host, directions, reverse, a, s[1..])
  }

  function Sort(host: Host, directions: seq<bool>, reverse: bool, items: seq<Item>): (r: seq<Item>)
    requires KeysFit(directions, items)
    ensures multiset(r) == multiset(items)
    ensures forall b :: b in r <==> b in items
    decreases |items|
  {
    if |items| == 0 then []
    else
      assert items == [items[0]] + items[1..];
      Insert(host, directions, reverse, items[0], Sort(host, directions, reverse, items[1..]))
  }

  lemma OrderedCons(host: Host, directions: seq<bool>, reverse: bool, a: Item, s: seq<Item>)
    requires |a.keys| == |directions| && KeysFit(directions, s) && Ordered(host, directions, reverse, s)
    requires forall b | b in s :: CompareFrom(host, directions, reverse, a, b, 0) < 0
    ensures KeysFit(directions, [a] + s) && Ordered(host, directions, reverse, [a] + s)
  {
    var r := [a] + s;
    forall i, j | 0 <= i < j < |r| ensures CompareFrom(host, directions, reverse, r[i], r[j], 0) < 0 {
      if i == 0 { assert r[j] in s; }
    }
  }

  lemma {:induction false} InsertOrdered(host: Host, directions: seq<bool>, reverse: bool, a: Item, s: seq<Item>)
    requires |a.keys| == |directions| && KeysFit(directions, s)
    requires Ordered(host, directions, reverse, s) && forall b | b in s :: b.index != a.index
    ensures KeysFit(directions, Insert(host, directions, reverse, a, s))
    ensures Ordered(host, directions, reverse, Insert(host, directions, reverse, a, s))
    decreases |s|
  {
    if |s| > 0 {
      ItemsAntisymmetric(host, directions, reverse, a, s[0], 0);
      if CompareFrom(host, directions, reverse, a, s[0], 0) < 0 {
        forall b | b in s ensures CompareFrom(host, directions, reverse, a, b, 0) < 0 {
          var j :| 0 <= j < |s| && s[j] == b;
          if j > 0 { ItemsTransitive(host, directions, reverse, a, s[0], b, 0); }
        }
        OrderedCons(host, directions, reverse, a, s);
      } else {
        InsertOrdered(host, directions, reverse, a, s[1..]);
        var rest := Insert(host, directions, reverse, a, s[1..]);
        forall b | b in rest ensures CompareFrom(host, directions, reverse, s[0], b, 0) < 0 {
          if b != a {
            var j :| 0 <= j < |s[1..]| && s[1..][j] == b;
            assert s[j + 1] == b;
          }
        }
        OrderedCons(host, directions, reverse, s[0], rest);
      }
    }
  }

  lemma {:induction false} SortOrders(host: Host, directions: seq<bool>, reverse: bool, items: seq<Item>)
    requires KeysFit(directions, items) && DistinctIndices(items)
    ensures Ordered(host, directions, reverse, Sort(host, directions, reverse, items))
    decreases |items|
  {
    if |items| > 0 {
      var rest := Sort(host, directions, reverse, items[1..]);
      SortOrders(host, directions, reverse, items[1..]);
      forall b | b in rest ensures b.index != items[0].index {
        var j :| 0 <= j < |items[1..]| && items[1..][j] == b;
        assert items[j + 1] == b;
      }
      InsertOrdered(host, directions, reverse, items[0], rest);
    }
  }

  // ---- the filter

  function Decorate(host: Host, ps: seq<Predicate>, xs: seq<Value>): (items: seq<Item>)
    ensures |items| == |xs|
    ensures forall i | 0 <= i < |xs| :: items[i].value == xs[i] && items[i].index == i && |items[i].keys| == |ps|
    ensures forall i, k | 0 <= i < |xs| && 0 <= k < |ps| ::
            items[i].keys[k] == PredicateValue(host, ps[k].get(xs[i]), i)
  {
    seq(|xs|, i requires 0 <= i < |xs| =>
      Item(xs[i], i, seq(|ps|, k requires 0 <= k < |ps| => PredicateValue(host, ps[k].get(xs[i]), i))))
  }

  function Directions(ps: seq<Predicate>): (ds: seq<bool>)
    ensures |ds| == |ps|
  {
    seq(|ps|, k requires 0 <= k < |ps| => ps[k].descending)
  }

  function Undecorate(items: seq<Item>): (xs: seq<Value>)
    ensures |xs| == |items| && forall i | 0 <= i < |items| :: xs[i] == items[i].value
  {
    seq(|items|, i requires 0 <= i < |items| => items[i].value)
  }

  function OrderBy(host: Host, xs: seq<Value>, ps: seq<Predicate>, reverse: bool): seq<Value> {
    var items := Decorate(host, ps, xs);
    Undecorate(Sort(host, Directions(ps), reverse, items))
  }

  function Backwards(xs: seq<Value>): seq<Value> { seq(|xs|, i requires 0 <= i < |xs| => xs[|xs| - 1 - i]) }

  /** Main result about the filter: `reverseOrder` gives exactly the reversed sequence. */
  lemma OrderByReverse(host: Host, xs: seq<Value>, ps: seq<Predicate>)
    ensures OrderBy(host, xs, ps, true) == Backwards(OrderBy(host, xs, ps, false))
  {
    var items := Decorate(host, ps, xs);
    var up, down := Sort(host, Directions(ps), false, items), Sort(host, Directions(ps), true, items);
    SortOrders(host, Directions(ps), false, items);
    SortOrders(host, Directions(ps), true, items);
    ReverseIsBackwards(host, Directions(ps), up, down);
    UndecorateBackwards(up);
  }

  lemma UndecorateBackwards(items: seq<Item>)
    ensures Undecorate(Reversed(items)) == Backwards(Undecorate(items))
  {
  }

  /** All keys of two items compare equal. */
  predicate Tied(host: Host, a: Item, b: Item) {
    |a.keys| == |b.keys| && forall k | 0 <= k < |a.keys| :: Compare(host, a.keys[k], b.keys[k]) == 0
  }

  lemma {:induction false} TiedByIndex(host: Host, directions: seq<bool>, reverse: bool, a: Item, b: Item, i: nat)
    requires |a.keys| == |b.keys| == |directions| && i <= |directions| && Tied(host, a, b)
    ensures CompareFrom(host, directions, reverse, a, b, i) == CompareIndex(a, b) * Sign(reverse)
    decreases |directions| - i
  {
    if i < |directions| { TiedByIndex(host, directions, reverse, a, b, i + 1); }
  }

  /** Items that no predicate tells apart keep their input order. */
  lemma TiesKeepInputOrder(host: Host, xs: seq<Value>, ps: seq<Predicate>, i: nat, j: nat)
    requires var sorted := Sort(host, Directions(ps), false, Decorate(host, ps, xs));
             i < j < |sorted| && Tied(host, sorted[i], sorted[j])
    ensures var sorted := Sort(host, Directions(ps), false, Decorate(host, ps, xs));
            sorted[i].index < sorted[j].index
  {
    var items := Decorate(host, ps, xs);
    var sorted := Sort(host, Directions(ps), false, items);
    SortOrders(host, Directions(ps), false, items);
    assert sorted[i] in items && sorted[j] in items;
    TiedByIndex(host, Directions(ps), false, sorted[i], sorted[j], 0);
  }
}
