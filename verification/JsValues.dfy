/** Values, objects and host operations shared by the expression compiler and its analyses. */
module JsValues {

  /** An IEEE double as far as `===` and truthiness look at it; rounding belongs to `Host.arith`. */
  datatype Number = NaN | Infinite(negative: bool) | Zero(negative: bool) | NonZero(r: real)

  datatype Value =
    | Undefined
    | Null
    | Bool(b: bool)
    | Num(n: Number)
    | Str(s: string)
    | Func(id: nat)
    | Obj(ref: nat)

  type Primitive = v: Value | !v.Obj? && !v.Func? witness Undefined

  type Slots = map<string, Value>

  /** `next` is the first reference that has never been handed out. */
  datatype Heap = Heap(next: nat, objects: map<nat, Slots>)

  /** How a piece of code ends: with a result, or by throwing; either way with a heap. */
  datatype Result<+T> = Ok(value: T, heap: Heap) | Threw(heap: Heap) {
    predicate IsFailure() { Threw? }

    function PropagateFailure<U>(): Result<U>
      requires Threw?
    {
      Threw(heap)
    }

    function Extract(): (T, Heap)
      requires Ok?
    {
      (value, heap)
    }
  }

  datatype ArithOp = Add | Sub | Mul | Div | Mod
  datatype RelOp = Lt | Gt | Le | Ge

  /**
   * What the compiler calls but does not define: coercions, which see what an object holds, floating-point arithmetic,
   * properties of primitives and functions, user functions and filters.
   */
  datatype Host = Host(
    number: (Value, Heap) -> Number,
    text: (Value, Heap) -> string,
    arith: (ArithOp, Number, Number) -> Number,
    relation: (RelOp, Value, Value, Heap) -> bool,
    looselyEqual: (Value, Value, Heap) -> bool,
    boxed: (Value, string) -> Value,
    call: (nat, Value, seq<Value>, Heap) -> Result<Value>,
    filter: (string, seq<Value>, Heap) -> Result<Value>)

  predicate Nullish(v: Value) { v.Undefined? || v.Null? }

  predicate Truthy(v: Value) {
    match v
    case Undefined => false
    case Null => false
    case Bool(b) => b
    case Num(n) => !n.NaN? && !n.Zero?
    case Str(s) => s != ""
    case Func(_) => true
    case Obj(_) => true
  }

  predicate StrictlyEqual(a: Value, b: Value) {
    if a.Num? && b.Num? then
      !a.n.NaN? && ((a.n.Zero? && b.n.Zero?) || a.n == b.n)
    else a == b
  }

  function SlotsOf(h: Heap, r: nat): Slots { if r in h.objects then h.objects[r] else map[] }

  function Slot(h: Heap, r: nat, key: string): Value {
    if key in SlotsOf(h, r) then SlotsOf(h, r)[key] else Undefined
  }

  /** `asPropertyBag(v)?.[key]` */
  function Read(host: Host, v: Value, key: string, h: Heap): Value {
    match v
    case Undefined => Undefined
    case Null => Undefined
    case Obj(r) => Slot(h, r, key)
    case _ => host.boxed(v, key)
  }

  /** A write to a primitive lands on a temporary wrapper and is lost. */
  function Write(v: Value, key: string, value: Value, h: Heap): Heap {
    if v.Obj? then h.(objects := h.objects[v.ref := SlotsOf(h, v.ref)[key := value]]) else h
  }

  function Alloc(h: Heap, slots: Slots): (Value, Heap) {
    (Obj(h.next), Heap(h.next + 1, h.objects[h.next := slots]))
  }

  function Digit(n: nat): char
    requires n < 10
  {
    ['0', '1', '2', '3', '4', '5', '6', '7', '8', '9'][n]
  }

  function Decimal(n: nat): string {
    if n < 10 then [Digit(n)] else Decimal(n / 10) + [Digit(n % 10)]
  }

  /** An array is an object with an index slot per item and a `length`. */
  function ArraySlots(items: seq<Value>): Slots {
    ItemSlots(items)["length" := Num(if |items| == 0 then Zero(false) else NonZero(|items| as real))]
  }

  function ItemSlots(items: seq<Value>): Slots {
    if |items| == 0 then map[]
    else ItemSlots(items[..|items| - 1])[Decimal(|items| - 1) := items[|items| - 1]]
  }
}
