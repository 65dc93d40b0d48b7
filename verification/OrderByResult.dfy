/** What the list that `orderBy` returns looks like, said of the values in it and not of the comparison. */
module OrderByResult {
  import opened OrderBy

  /** Where a value stands by its type: booleans, numbers, objects, strings, null, undefined. */
  function Place(v: Value): nat {
    match v
    case Boolean(_) => 0
    case Number(_) => 1
    case Object(_) => 2
    case Str(_) => 3
    case Null => 4
    case Undefined => 5
  }

  /** At the first code unit in which they differ `a` has the smaller one, or `a` ends there. */
  ghost predicate TextBefore(a: Text, b: Text) {
    exists k: nat :: k < |b| && k <= |a| && a[..k] == b[..k] && (k == |a| || a[k] < b[k])
  }

  /** The value of a predicate for an item, objects by what they convert to. */
  function Shown(host: Host, p: Predicate, x: Value): Value {
    var v := p.get(x);
    if v.Object? then host.objectValue(v) else v
  }

  /** The value u of the item that stood at i comes before the value v of the one that stood at j. */
  ghost predicate Before(host: Host, u: Value, i: nat, v: Value, j: nat) {
    || Place(u) < Place(v)
    || (u.Boolean? && v.Boolean? && !u.b && v.b)
    || (u.Number? && v.Number? && u.r < v.r)
    || (u.Str? && v.Str? && TextBefore(host.lower(u.s), host.lower(v.s)))
    || (u.Object? && v.Object? && i < j)
  }

  /** Nothing tells the two values apart: they are equal, strings but for upper and lower case, and no objects. */
  predicate Alike(host: Host, u: Value, v: Value) {
    if u.Str? && v.Str? then host.lower(u.s) == host.lower(v.s) else !u.Object? && u == v
  }

  /** Before it in the direction of the predicate. */
  ghost predicate Precedes(host: Host, p: Predicate, x: Value, i: nat, y: Value, j: nat) {
    if p.descending then Before(host, Shown(host, p, y), j, Shown(host, p, x), i)
    else Before(host, Shown(host, p, x), i, Shown(host, p, y), j)
  }

  /** The first predicate that tells the items apart decides, and where they stood if none does. */
  ghost predicate Lexicographic(host: Host, ps: seq<Predicate>, x: Value, i: nat, y: Value, j: nat, k: nat) {
    && k <= |ps|
    && (forall m | 0 <= m < k :: Alike(host, Shown(host, ps[m], x), Shown(host, ps[m], y)))
    && (if k == |ps| then i < j else Precedes(host, ps[k], x, i, y, j))
  }

  function Indices(items: seq<Item>): (from: seq<nat>)
    ensures |from| == |items| && forall i | 0 <= i < |items| :: from[i] == items[i].index
  {
    seq(|items|, i requires 0 <= i < |items| => items[i].index)
  }

  /** Where each item of the result stood in the input. */
  function Origins(host: Host, xs: seq<Value>, ps: seq<Predicate>): seq<nat> {
    Indices(Sort(host, Directions(ps), false, Decorate(host, ps, xs)))
  }

  lemma {:induction false} LessIsTextBefore(a: Text, b: Text)
    ensures Less(a, b) <==> TextBefore(a, b)
    decreases |a|
  {
    if |a| == 0 {
      if |b| > 0 { assert a[..0] == b[..0]; }
    } else if |b| > 0 {
      if a[0] == b[0] {
        LessIsTextBefore(a[1..], b[1..]);
        if TextBefore(a[1..], b[1..]) {
          var k: nat :| k < |b[1..]| && k <= |a[1..]| && a[1..][..k] == b[1..][..k]
                        && (k == |a[1..]| || a[1..][k] < b[1..][k]);
          assert a[..k + 1] == [a[0]] + a[1..][..k] && b[..k + 1] == [b[0]] + b[1..][..k];
        }
        if TextBefore(a, b) {
          var k: nat :| k < |b| && k <= |a| && a[..k] == b[..k] && (k == |a| || a[k] < b[k]);
          assert a[1..][..k - 1] == a[..k][1..] && b[1..][..k - 1] == b[..k][1..];
        }
      } else {
        DifferentHeads(a, b);
      }
    }
  }

  lemma DifferentHeads(a: Text, b: Text)
    requires |a| > 0 && |b| > 0 && a[0] != b[0]
    ensures TextBefore(a, b) <==> a[0] < b[0]
  {
    if a[0] < b[0] { assert a[..0] == b[..0]; }
    assert forall k | 0 < k <= |a| && k <= |b| :: a[..k][0] == a[0] && b[..k][0] == b[0];
  }

  lemma CompareSays(host: Host, k1: Key, k2: Key)
    ensures Compare(host, k1, k2) < 0 <==> Before(host, k1.value, k1.index, k2.value, k2.index)
    ensures k1.index != k2.index ==> (Compare(host, k1, k2) == 0 <==> Alike(host, k1.value, k2.value))
  {
    var u, v := k1.value, k2.value;
    if TypeOf(u) != TypeOf(v) {
      TypesByRank(host, k1, k2);
      assert Rank(TypeOf(u)) == Place(u) && Rank(TypeOf(v)) == Place(v);
    } else if u.Str? {
      LessIsTextBefore(host.lower(u.s), host.lower(v.s));
      LessTotal(host.lower(u.s), host.lower(v.s));
    }
  }

  lemma {:induction false} FirstDifference(host: Host, ps: seq<Predicate>, a: Item, b: Item, from: nat) returns (k: nat)
    requires from <= |ps| == |a.keys| == |b.keys| && a.index != b.index
    requires CompareFrom(host, Directions(ps), false, a, b, from) < 0
    requires forall m | 0 <= m < |ps| :: a.keys[m] == Key(Shown(host, ps[m], a.value), a.index)
    requires forall m | 0 <= m < |ps| :: b.keys[m] == Key(Shown(host, ps[m], b.value), b.index)
    requires forall m | 0 <= m < from :: Alike(host, Shown(host, ps[m], a.value), Shown(host, ps[m], b.value))
    ensures Lexicographic(host, ps, a.value, a.index, b.value, b.index, k)
    decreases |ps| - from
  {
    k := from;
    if from < |ps| {
      CompareSays(host, a.keys[from], b.keys[from]);
      CompareSays(host, b.keys[from], a.keys[from]);
      CompareAntisymmetric(host, a.keys[from], b.keys[from]);
      if Compare(host, a.keys[from], b.keys[from]) == 0 { k := FirstDifference(host, ps, a, b, from + 1); }
    }
  }

  lemma SortedItem(host: Host, xs: seq<Value>, ps: seq<Predicate>, a: Item)
    requires a in Decorate(host, ps, xs)
    ensures a.index < |xs| && a == Decorate(host, ps, xs)[a.index] && a.value == xs[a.index] && |a.keys| == |ps|
    ensures forall m | 0 <= m < |ps| :: a.keys[m] == Key(Shown(host, ps[m], a.value), a.index)
  {
  }

  lemma SortedPair(host: Host, xs: seq<Value>, ps: seq<Predicate>, a: Item, b: Item) returns (k: nat)
    requires a in Decorate(host, ps, xs) && b in Decorate(host, ps, xs)
    requires |a.keys| == |b.keys| == |ps| && CompareFrom(host, Directions(ps), false, a, b, 0) < 0
    ensures a.index != b.index && Lexicographic(host, ps, a.value, a.index, b.value, b.index, k)
  {
    SortedItem(host, xs, ps, a);
    SortedItem(host, xs, ps, b);
    ItemsAntisymmetric(host, Directions(ps), false, a, b, 0);
    k := FirstDifference(host, ps, a, b, 0);
  }

  ghost predicate Earlier(host: Host, ps: seq<Predicate>, x: Value, i: nat, y: Value, j: nat) {
    exists k :: Lexicographic(host, ps, x, i, y, j, k)
  }

  /** The result is the input rearranged: `from` says how. */
  ghost predicate Rearranges(xs: seq<Value>, r: seq<Value>, from: seq<nat>) {
    && |r| == |from| == |xs|
    && (forall i | 0 <= i < |xs| :: from[i] < |xs| && r[i] == xs[from[i]])
    && (forall i, j | 0 <= i < j < |xs| :: from[i] != from[j])
  }

  ghost predicate PairsLexicographic(host: Host, ps: seq<Predicate>, r: seq<Value>, from: seq<nat>)
    requires |r| == |from|
  {
    forall i, j | 0 <= i < j < |r| :: Earlier(host, ps, r[i], from[i], r[j], from[j])
  }

  lemma SortedRearranges(host: Host, xs: seq<Value>, ps: seq<Predicate>, sorted: seq<Item>)
    requires |sorted| == |xs| && (forall a | a in sorted :: a in Decorate(host, ps, xs))
    requires forall i, j | 0 <= i < j < |sorted| :: sorted[i].index != sorted[j].index
    ensures Rearranges(xs, Undecorate(sorted), Indices(sorted))
  {
    forall i | 0 <= i < |sorted| ensures sorted[i].index < |xs| && sorted[i].value == xs[sorted[i].index] {
      assert sorted[i] in sorted;
      SortedItem(host, xs, ps, sorted[i]);
    }
  }

  lemma SortedPairs(host: Host, xs: seq<Value>, ps: seq<Predicate>, sorted: seq<Item>)
    requires forall a | a in sorted :: a in Decorate(host, ps, xs) && |a.keys| == |ps|
    requires Ordered(host, Directions(ps), false, sorted)
    ensures forall i, j | 0 <= i < j < |sorted| :: sorted[i].index != sorted[j].index
    ensures PairsLexicographic(host, ps, Undecorate(sorted), Indices(sorted))
  {
    forall i, j | 0 <= i < j < |sorted|
      ensures sorted[i].index != sorted[j].index
      ensures Earlier(host, ps, sorted[i].value, sorted[i].index, sorted[j].value, sorted[j].index)
    {
      assert sorted[i] in sorted && sorted[j] in sorted;
      var k := SortedPair(host, xs, ps, sorted[i], sorted[j]);
    }
    var r, from := Undecorate(sorted), Indices(sorted);
    forall i, j | 0 <= i < j < |r| ensures Earlier(host, ps, r[i], from[i], r[j], from[j]) {
      assert r[i] == sorted[i].value && r[j] == sorted[j].value;
    }
  }

  /**
   * Main result: the list holds every item of the input once, and of two items in it the earlier one precedes the later
   * one by the first predicate that tells them apart, or else by where they stood.
   */
  lemma OrderByIsLexicographic(host: Host, xs: seq<Value>, ps: seq<Predicate>)
    ensures Rearranges(xs, OrderBy.OrderBy(host, xs, ps, false), Origins(host, xs, ps))
    ensures PairsLexicographic(host, ps, OrderBy.OrderBy(host, xs, ps, false), Origins(host, xs, ps))
  {
    var items := Decorate(host, ps, xs);
    var sorted := Sort(host, Directions(ps), false, items);
    SortOrders(host, Directions(ps), false, items);
    SameItems(sorted, items);
    SortedPairs(host, xs, ps, sorted);
    SortedRearranges(host, xs, ps, sorted);
  }

  /** Not after it: nothing of the later one's kind has to stand earlier. */
  ghost predicate NotAfter(host: Host, u: Value, v: Value) {
    && Place(u) <= Place(v)
    && (u.Boolean? && v.Boolean? ==> u.b ==> v.b)
    && (u.Number? && v.Number? ==> u.r <= v.r)
    && (u.Str? && v.Str? ==>
          host.lower(u.s) == host.lower(v.s) || TextBefore(host.lower(u.s), host.lower(v.s)))
  }

  /**
   * One ascending predicate: false before true, numbers not decreasing, strings not decreasing by the code units of
   * their lower case, the types in their order. A descending one: the other way round.
   */
  lemma OnePredicateSorts(host: Host, xs: seq<Value>, p: Predicate)
    ensures var r := OrderBy.OrderBy(host, xs, [p], false);
            |r| == |xs| && forall i, j | 0 <= i < j < |r| ::
              if p.descending then NotAfter(host, Shown(host, p, r[j]), Shown(host, p, r[i]))
              else NotAfter(host, Shown(host, p, r[i]), Shown(host, p, r[j]))
  {
    OrderByIsLexicographic(host, xs, [p]);
    var r, from := OrderBy.OrderBy(host, xs, [p], false), Origins(host, xs, [p]);
    forall i, j | 0 <= i < j < |r|
      ensures if p.descending then NotAfter(host, Shown(host, p, r[j]), Shown(host, p, r[i]))
              else NotAfter(host, Shown(host, p, r[i]), Shown(host, p, r[j]))
    {
      assert Earlier(host, [p], r[i], from[i], r[j], from[j]);
      var k :| Lexicographic(host, [p], r[i], from[i], r[j], from[j], k);
      if k == 1 { assert Alike(host, Shown(host, [p][0], r[i]), Shown(host, [p][0], r[j])); }
    }
  }

  /** The smallest list: ordered by the numbers themselves, 2 and 1 change places. */
  lemma TwoAndOne(host: Host)
    ensures OrderBy.OrderBy(host, [Number(2.0), Number(1.0)], [Predicate(x => x, false)], false)
            == [Number(1.0), Number(2.0)]
  {
    var p, xs := Predicate(x => x, false), [Number(2.0), Number(1.0)];
    OrderByIsLexicographic(host, xs, [p]);
    OnePredicateSorts(host, xs, p);
    var r, from := OrderBy.OrderBy(host, xs, [p], false), Origins(host, xs, [p]);
    assert from[0] != from[1] && r[0] == xs[from[0]] && r[1] == xs[from[1]];
    assert NotAfter(host, Shown(host, p, r[0]), Shown(host, p, r[1]));
  }
}
