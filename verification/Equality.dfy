/** `equals` (src/shared/utils.ts): deep equality, and what exactly it decides. */
module Equality {
  import opened Basics
  import JsValues

  type Number = JsValues.Number

  /**
   * Data as `equals` sees it. `Opaque` stands for scopes and windows, which are equal only if identical;
   * `Prototype` for what `o.__proto__` finds when o has no such slot of its own.
   */
  datatype Data =
    | Undefined
    | Null
    | Bool(b: bool)
    | Num(n: Number)
    | Str(s: string)
    | Func(id: nat)
    | Opaque(id: nat)
    | Date(time: Number)
    | RegExp(source: string)
    | Array(items: seq<Data>)
    | Record(slots: map<string, Data>)
    | Prototype

  /** `===` on numbers. */
  predicate Identical(a: Number, b: Number) {
    !a.NaN? && (a == b || (a.Zero? && b.Zero?))
  }

  /** `simpleCompare` on numbers: NaN equals itself. */
  predicate SimpleCompare(a: Number, b: Number) {
    Identical(a, b) || (a.NaN? && b.NaN?)
  }

  /** The functions every object inherits. */
  const INHERITED_FUNCTIONS: set<string> :=
    {"constructor", "hasOwnProperty", "isPrototypeOf", "propertyIsEnumerable", "toLocaleString", "toString", "valueOf",
     "__defineGetter__", "__defineSetter__", "__lookupGetter__", "__lookupSetter__"}

  function Slots(o: Data): map<string, Data> {
    if o.Record? then o.slots else map[]
  }

  /** What reading a slot that the object does not own gives. */
  function Inherited(o: Data, key: string): Data {
    if key in INHERITED_FUNCTIONS then Func(0)
    else if key == "__proto__" then (if o.Prototype? then Null else Prototype)
    else Undefined
  }

  function Lookup(o: Data, key: string): Data {
    if key in Slots(o) then Slots(o)[key] else Inherited(o, key)
  }

  /** `equals`. Identical objects are the same tree here, so Reflexive justifies its first line. */
  predicate Equals(a: Data, b: Data)
    decreases a
  {
    match a
    case Undefined => b.Undefined?
    case Null => b.Null?
    case Bool(x) => b.Bool? && x == b.b
    case Num(x) => b.Num? && SimpleCompare(x, b.n)
    case Str(x) => b.Str? && x == b.s
    case Func(id) => b == a
    case Opaque(id) => b == a
    case Prototype => b == a
    case Date(time) => b.Date? && SimpleCompare(time, b.time)
    case RegExp(source) => b.RegExp? && source == b.source
    case Array(items) =>
      b.Array? && |items| == |b.items| && forall i | 0 <= i < |items| :: Equals(items[i], b.items[i])
    case Record(slots) =>
      && (b.Record? || b.Prototype?)
      && (forall k | k in slots && Compared(slots, k) :: Equals(slots[k], Lookup(b, k)))
      && (forall k | k in Slots(b) :: !Unmatched(slots, Slots(b), k))
  }

  /** The slots of the left object that the first loop looks at, and remembers. */
  predicate Compared(slots: map<string, Data>, k: string)
    requires k in slots
  {
    !Dollar(k) && !slots[k].Func?
  }

  /** What the second loop looks for: a slot of the right object that the first loop has not seen. */
  predicate Unmatched(left: map<string, Data>, right: map<string, Data>, k: string)
    requires k in right
  {
    !(k in left && Compared(left, k)) && !Dollar(k) && !right[k].Undefined? && !right[k].Func?
  }

  // ---- what it decides

  /** Trees without functions. */
  predicate Plain(v: Data) {
    match v
    case Func(_) => false
    case Prototype => false
    case Array(items) => forall i | 0 <= i < |items| :: Plain(items[i])
    case Record(slots) => forall k | k in slots :: Plain(slots[k])
    case Undefined => true
    case Null => true
    case Bool(_) => true
    case Num(_) => true
    case Str(_) => true
    case Opaque(_) => true
    case Date(_) => true
    case RegExp(_) => true
  }

  function OneZero(n: Number): Number {
    if n.Zero? then JsValues.Zero(false) else n
  }

  /** The slots that matter. */
  predicate Kept(slots: map<string, Data>, k: string)
    requires k in slots
  {
    !Dollar(k) && !slots[k].Undefined?
  }

  /** Without `$` slots and undefined slots, at every depth, and with one zero. */
  function Normal(v: Data): Data {
    match v
    case Num(n) => Num(OneZero(n))
    case Date(time) => Date(OneZero(time))
    case Array(items) => Array(seq(|items|, i requires 0 <= i < |items| => Normal(items[i])))
    case Record(slots) => Record(map k | k in slots && Kept(slots, k) :: Normal(slots[k]))
    case Undefined => v
    case Null => v
    case Bool(_) => v
    case Str(_) => v
    case Func(_) => v
    case Opaque(_) => v
    case RegExp(_) => v
    case Prototype => v
  }

  /** What is equal to the object every object inherits from. */
  predicate LikePrototype(v: Data) {
    v.Record? && forall k | k in v.slots && !Dollar(k) ::
      k !in INHERITED_FUNCTIONS && (if k == "__proto__" then v.slots[k].Null? else v.slots[k].Undefined?)
  }

  /** A slot is safe if leaving it out on the other side reads as undefined, or as something else than its value. */
  predicate SafeSlot(k: string, v: Data) {
    && (v.Undefined? ==> k !in INHERITED_FUNCTIONS && k != "__proto__")
    && (k == "__proto__" ==> !LikePrototype(v))
  }

  predicate Safe(v: Data) {
    match v
    case Array(items) => forall i | 0 <= i < |items| :: Safe(items[i])
    case Record(slots) => forall k | k in slots && !Dollar(k) :: SafeSlot(k, slots[k]) && Safe(slots[k])
    case Undefined => true
    case Null => true
    case Bool(_) => true
    case Num(_) => true
    case Str(_) => true
    case Func(_) => true
    case Opaque(_) => true
    case Date(_) => true
    case RegExp(_) => true
    case Prototype => true
  }

  /** What data can be equal to something inherited. */
  lemma EqualsInherited(v: Data, b: Data, k: string)
    requires Plain(v) && b.Record? && k !in b.slots
    ensures Equals(v, Lookup(b, k)) <==>
            (if k in INHERITED_FUNCTIONS then false else if k == "__proto__" then LikePrototype(v) else v.Undefined?)
  {
    if k !in INHERITED_FUNCTIONS && k == "__proto__" && v.Record? {
      assert Slots(Prototype) == map[];
      forall j | j in v.slots && !Dollar(j)
        ensures Equals(v.slots[j], Lookup(Prototype, j)) <==>
                (j !in INHERITED_FUNCTIONS && (if j == "__proto__" then v.slots[j].Null? else v.slots[j].Undefined?))
      {
        assert Plain(v.slots[j]);
      }
    }
  }

  lemma {:induction false} EqualsIffNormal(a: Data, b: Data)
    requires Plain(a) && Plain(b) && Safe(a)
    ensures Equals(a, b) <==> Normal(a) == Normal(b)
    decreases a
  {
    match a
    case Array(items) => if b.Array? { ArraysIff(a, b); }
    case Record(slots) => if b.Record? { RecordsIff(a, b); }
    case _ =>
  }

  lemma {:induction false} ArraysIff(a: Data, b: Data)
    requires a.Array? && b.Array? && Plain(a) && Plain(b) && Safe(a)
    ensures Equals(a, b) <==> Normal(a) == Normal(b)
    decreases a, 0
  {
    if |a.items| == |b.items| {
      forall i | 0 <= i < |a.items| ensures Equals(a.items[i], b.items[i])
          <==> Normal(a.items[i]) == Normal(b.items[i]) {
        EqualsIffNormal(a.items[i], b.items[i]);
      }
      if Normal(a) == Normal(b) {
        forall i | 0 <= i < |a.items| ensures Normal(a.items[i]) == Normal(b.items[i]) {
          assert Normal(a).items[i] == Normal(b).items[i];
        }
      }
    } else {
      assert |Normal(a).items| != |Normal(b).items|;
    }
  }

  /** The two records agree on a slot. */
  predicate SameSlot(a: map<string, Data>, b: map<string, Data>, k: string) {
    && ((k in a && Kept(a, k)) <==> (k in b && Kept(b, k)))
    && (k in a && Kept(a, k) && k in b ==> Normal(a[k]) == Normal(b[k]))
  }

  lemma NormalRecords(a: Data, b: Data)
    requires a.Record? && b.Record?
    ensures Normal(a) == Normal(b) <==> forall k | k in a.slots.Keys + b.slots.Keys :: SameSlot(a.slots, b.slots, k)
  {
    if Normal(a) == Normal(b) {
      forall k | k in a.slots.Keys + b.slots.Keys ensures SameSlot(a.slots, b.slots, k) {
        assert k in Normal(a).slots <==> k in Normal(b).slots;
        if k in Normal(a).slots { assert Normal(a).slots[k] == Normal(b).slots[k]; }
      }
    } else if forall k | k in a.slots.Keys + b.slots.Keys :: SameSlot(a.slots, b.slots, k) {
      assert forall k | k in Normal(a).slots :: k in a.slots.Keys + b.slots.Keys;
    }
  }

  /** What the two loops together say of one slot. */
  predicate SlotPasses(a: Data, b: Data, k: string)
    requires a.Record? && b.Record?
  {
    && (k in a.slots && Compared(a.slots, k) ==> Equals(a.slots[k], Lookup(b, k)))
    && (k in b.slots ==> !Unmatched(a.slots, b.slots, k))
  }

  lemma EqualsBySlot(a: Data, b: Data)
    requires a.Record? && b.Record?
    ensures Equals(a, b) <==> forall k | k in a.slots.Keys + b.slots.Keys :: SlotPasses(a, b, k)
  {
    assert Slots(b) == b.slots;
    if Equals(a, b) {
      forall k | k in a.slots.Keys + b.slots.Keys ensures SlotPasses(a, b, k) {
        if k in b.slots { assert !Unmatched(a.slots, Slots(b), k); }
      }
    } else if forall k | k in a.slots.Keys + b.slots.Keys :: SlotPasses(a, b, k) {
      assert forall k | k in a.slots :: SlotPasses(a, b, k);
    }
  }

  lemma {:induction false} SlotIff(a: Data, b: Data, k: string)
    requires a.Record? && b.Record? && Plain(a) && Plain(b) && Safe(a) && k in a.slots.Keys + b.slots.Keys
    ensures SlotPasses(a, b, k) <==> SameSlot(a.slots, b.slots, k)
    decreases a, 0
  {
    if k in b.slots { assert Plain(b.slots[k]); }
    if k in a.slots && !Dollar(k) {
      var v := a.slots[k];
      assert Plain(v) && Safe(v) && SafeSlot(k, v);
      if k in b.slots {
        EqualsIffNormal(v, b.slots[k]);
      } else {
        EqualsInherited(v, b, k);
      }
    }
  }

  lemma {:induction false} RecordsIff(a: Data, b: Data)
    requires a.Record? && b.Record? && Plain(a) && Plain(b) && Safe(a)
    ensures Equals(a, b) <==> Normal(a) == Normal(b)
    decreases a, 1
  {
    forall k | k in a.slots.Keys + b.slots.Keys ensures SlotPasses(a, b, k) <==> SameSlot(a.slots, b.slots, k) {
      SlotIff(a, b, k);
    }
    EqualsBySlot(a, b);
    NormalRecords(a, b);
  }

  // ---- an equivalence, and where it is not one

  /** Everything without functions equals itself, whether or not the first line takes the shortcut. */
  lemma {:induction false} Reflexive(v: Data)
    requires Plain(v)
    ensures Equals(v, v)
    decreases v
  {
    match v
    case Array(items) => forall i | 0 <= i < |items| ensures Equals(items[i], items[i]) { Reflexive(items[i]); }
    case Record(slots) =>
      assert Slots(v) == slots;
      forall k | k in slots && Compared(slots, k) ensures Equals(slots[k], Lookup(v, k)) { Reflexive(slots[k]); }
    case _ =>
  }

  lemma Symmetric(a: Data, b: Data)
    requires Plain(a) && Plain(b) && Safe(a) && Safe(b)
    ensures Equals(a, b) <==> Equals(b, a)
  {
    EqualsIffNormal(a, b);
    EqualsIffNormal(b, a);
  }

  lemma Transitive(a: Data, b: Data, c: Data)
    requires Plain(a) && Plain(b) && Plain(c) && Safe(a) && Safe(b) && Equals(a, b) && Equals(b, c)
    ensures Equals(a, c)
  {
    EqualsIffNormal(a, b);
    EqualsIffNormal(b, c);
    EqualsIffNormal(a, c);
  }

  /** For this pair `equals` does not decide whether the normal forms agree. */
  predicate Differs(a: Data, b: Data) {
    Plain(b) && !(Equals(a, b) <==> Normal(a) == Normal(b))
  }

  /** Main result: exactly the safe data are compared by their normal form, whatever they are compared with. */
  lemma SafeExactly(a: Data)
    requires Plain(a)
    ensures Safe(a) <==> forall b :: !Differs(a, b)
  {
    if Safe(a) {
      forall b ensures !Differs(a, b) {
        if Plain(b) { EqualsIffNormal(a, b); }
      }
    } else {
      var b := Culprit(a);
      assert Differs(a, b);
    }
  }

  lemma {:induction false} Culprit(a: Data) returns (b: Data)
    requires Plain(a) && !Safe(a)
    ensures Differs(a, b)
    decreases a
  {
    match a
    case Array(items) =>
      var i :| 0 <= i < |items| && !Safe(items[i]);
      var c := Culprit(items[i]);
      b := Array(items[i := c]);
      ArrayCulprit(a, i, c);
    case Record(slots) =>
      var k :| k in slots && !Dollar(k) && !(SafeSlot(k, slots[k]) && Safe(slots[k]));
      if !Safe(slots[k]) {
        var c := Culprit(slots[k]);
        b := Record(slots[k := c]);
        SlotCulprit(a, k, c);
      } else {
        b := Record(slots - {k});
        MissingCulprit(a, k);
      }
  }

  lemma NormalArrays(items: seq<Data>, i: nat, c: Data)
    requires i < |items|
    ensures Normal(Array(items)) == Normal(Array(items[i := c])) <==> Normal(items[i]) == Normal(c)
  {
    var a, b := Normal(Array(items)).items, Normal(Array(items[i := c])).items;
    assert a[i] == Normal(items[i]) && b[i] == Normal(c);
    if Normal(items[i]) == Normal(c) {
      assert forall j | 0 <= j < |items| :: a[j] == b[j];
      assert a == b;
    }
  }

  lemma ArrayCulprit(a: Data, i: nat, c: Data)
    requires a.Array? && Plain(a) && i < |a.items| && Differs(a.items[i], c)
    ensures Differs(a, Array(a.items[i := c]))
  {
    var b := Array(a.items[i := c]);
    forall j | 0 <= j < |a.items| && j != i ensures Equals(a.items[j], b.items[j]) { Reflexive(a.items[j]); }
    assert b.items[i] == c;
    NormalArrays(a.items, i, c);
  }

  lemma {:induction false} NormalKeepsKind(v: Data)
    ensures Normal(v).Undefined? <==> v.Undefined?
  {
  }

  lemma SlotCulprit(a: Data, k: string, c: Data)
    requires a.Record? && Plain(a) && k in a.slots && !Dollar(k) && !Safe(a.slots[k]) && Differs(a.slots[k], c)
    ensures Differs(a, Record(a.slots[k := c]))
  {
    var b := Record(a.slots[k := c]);
    ReplacedSlot(a, k, c);
    forall j | j in a.slots.Keys + b.slots.Keys && j != k ensures SlotPasses(a, b, j) && SameSlot(a.slots, b.slots, j) {
      CommonSlot(a, b, j);
    }
    OneSlotDecides(a, b, k);
    assert Plain(b);
  }

  lemma ReplacedSlot(a: Data, k: string, c: Data)
    requires a.Record? && Plain(a) && k in a.slots && !Dollar(k) && !Safe(a.slots[k])
    ensures SlotPasses(a, Record(a.slots[k := c]), k) <==> Equals(a.slots[k], c)
    ensures SameSlot(a.slots, a.slots[k := c], k) <==> Normal(a.slots[k]) == Normal(c)
  {
    assert Plain(a.slots[k]);
    NormalKeepsKind(a.slots[k]);
    NormalKeepsKind(c);
    assert Lookup(Record(a.slots[k := c]), k) == c;
  }

  lemma OneSlotDecides(a: Data, b: Data, k: string)
    requires a.Record? && b.Record? && k in a.slots
    requires forall j | j in a.slots.Keys + b.slots.Keys && j != k ::
            SlotPasses(a, b, j) && SameSlot(a.slots, b.slots, j)
    requires SlotPasses(a, b, k) != SameSlot(a.slots, b.slots, k)
    ensures Equals(a, b) != (Normal(a) == Normal(b))
  {
    EqualsBySlot(a, b);
    NormalRecords(a, b);
    assert k in a.slots.Keys + b.slots.Keys;
  }

  lemma CommonSlot(a: Data, b: Data, j: string)
    requires a.Record? && b.Record? && Plain(a) && j in a.slots && j in b.slots && a.slots[j] == b.slots[j]
    ensures SlotPasses(a, b, j) && SameSlot(a.slots, b.slots, j)
  {
    assert Plain(a.slots[j]);
    Reflexive(a.slots[j]);
  }

  /** Leave an unsafe slot out: what is inherited instead is not what its value counts as. */
  lemma MissingCulprit(a: Data, k: string)
    requires a.Record? && Plain(a) && k in a.slots && !Dollar(k) && !SafeSlot(k, a.slots[k])
    ensures Differs(a, Record(a.slots - {k}))
  {
    var b := Record(a.slots - {k});
    assert Plain(a.slots[k]);
    EqualsInherited(a.slots[k], b, k);
    forall j | j in a.slots.Keys + b.slots.Keys && j != k ensures SlotPasses(a, b, j) && SameSlot(a.slots, b.slots, j) {
      CommonSlot(a, b, j);
    }
    assert SlotPasses(a, b, k) <==> Equals(a.slots[k], Lookup(b, k));
    assert SameSlot(a.slots, b.slots, k) <==> a.slots[k].Undefined?;
    OneSlotDecides(a, b, k);
  }

  /** An undefined slot under an inherited name: equal one way round only. */
  lemma UndefinedToStringIsNotSymmetric()
    ensures var a, b := Record(map["toString" := Undefined]), Record(map[]);
            Plain(a) && Plain(b) && !Equals(a, b) && Equals(b, a)
  {
    var a, b := Record(map["toString" := Undefined]), Record(map[]);
    assert "toString" in a.slots && Compared(a.slots, "toString");
    assert Lookup(b, "toString") == Func(0);
    assert !Equals(a.slots["toString"], Lookup(b, "toString"));
  }

  /** A function against an undefined slot: the same. */
  lemma FunctionIsNotSymmetric(id: nat)
    ensures var a, b := Record(map["f" := Func(id)]), Record(map["f" := Undefined]); Equals(a, b) && !Equals(b, a)
  {
    var a, b := Record(map["f" := Func(id)]), Record(map["f" := Undefined]);
    assert Slots(b) == b.slots;
    assert Compared(b.slots, "f") && Lookup(a, "f") == Func(id);
    assert !Equals(b.slots["f"], Lookup(a, "f"));
  }

  // ---- the loops

  /** The array case. */
  method ArraysEqual(a: seq<Data>, b: seq<Data>) returns (r: bool)
    ensures r <==> Equals(Array(a), Array(b))
    decreases a, 0
  {
    if |a| != |b| { return false; }
    var key := 0;
    while key < |a|
      invariant 0 <= key <= |a|
      invariant forall i | 0 <= i < key :: Equals(a[i], b[i])
    {
      var e := DeepEquals(a[key], b[key]);
      if !e { return false; }
      key := key + 1;
    }
    return true;
  }

  /** The object case; the order in which slots are visited does not matter. */
  method RecordsEqual(left: Data, b: Data) returns (r: bool)
    requires left.Record? && (b.Record? || b.Prototype?)
    ensures r <==> Equals(left, b)
    decreases left, 0
  {
    var a, right := left.slots, Slots(b);
    var todo, keySet := a.Keys, {};
    while todo != {}
      invariant todo <= a.Keys
      invariant forall k | k in a && k !in todo && Compared(a, k) :: Equals(a[k], Lookup(b, k))
      invariant keySet == set k | k in a && k !in todo && Compared(a, k)
      decreases todo
    {
      var key :| key in todo;
      if Compared(a, key) {
        var e := DeepEquals(left.slots[key], Lookup(b, key));
        if !e { return false; }
        keySet := keySet + {key};
      }
      todo := todo - {key};
    }
    todo := right.Keys;
    while todo != {}
      invariant todo <= right.Keys
      invariant forall k | k in right && k !in todo :: !Unmatched(a, right, k)
      decreases todo
    {
      var key :| key in todo;
      if key !in keySet && !Dollar(key) && !right[key].Undefined? && !right[key].Func? {
        assert Unmatched(a, right, key);
        return false;
      }
      todo := todo - {key};
    }
    return true;
  }

  method DeepEquals(a: Data, b: Data) returns (r: bool)
    ensures r <==> Equals(a, b)
    decreases a, 1
  {
    match a
    case Array(items) =>
      if !b.Array? { return false; }
      r := ArraysEqual(items, b.items);
    case Record(_) =>
      if !b.Record? && !b.Prototype? { return false; }
      r := RecordsEqual(a, b);
    case _ => r := Equals(a, b);
  }
}
