/** `toKeyValue` and `parseKeyValue` (src/shared/utils.ts); query syntax as in section 3.4 of RFC 3986. */
module QueryStrings {
  import opened Basics
  import opened PercentEncoding

  /** A value of one occurrence of a key. `Yes` is `true`; `Undefined` is a value that did not decode. */
  datatype Scalar = Text(text: string) | Yes | Undefined

  datatype Value = One(scalar: Scalar) | Many(scalars: seq<Scalar>)

  type Object = map<string, Value>

  /** Own enumerable entries in order; keys are distinct. */
  type Entries = seq<(string, Value)>

  // ---- printing

  function Stringified(s: Scalar): string {
    match s
    case Text(t) => t
    case Yes => "true"
    case Undefined => "undefined"
  }

  function Part(key: string, s: Scalar): string {
    EncodeUriQuery(key, true) + (if s.Yes? then "" else "=" + EncodeUriQuery(Stringified(s), true))
  }

  function Scalars(v: Value): seq<Scalar> {
    match v
    case One(s) => [s]
    case Many(ss) => ss
  }

  /** The occurrences in the order they are printed. */
  function Pairs(key: string, ss: seq<Scalar>): seq<(string, Scalar)>
    decreases |ss|
  {
    if |ss| == 0 then [] else Pairs(key, ss[..|ss| - 1]) + [(key, ss[|ss| - 1])]
  }

  function Flatten(es: Entries): seq<(string, Scalar)>
    decreases |es|
  {
    if |es| == 0 then [] else Flatten(es[..|es| - 1]) + Pairs(es[|es| - 1].0, Scalars(es[|es| - 1].1))
  }

  function Parts(ps: seq<(string, Scalar)>): (r: seq<string>)
    ensures |r| == |ps|
    ensures forall i | 0 <= i < |ps| :: r[i] == Part(ps[i].0, ps[i].1)
  {
    seq(|ps|, i requires 0 <= i < |ps| => Part(ps[i].0, ps[i].1))
  }

  /** `parts.join("&")` */
  function JoinWith(parts: seq<string>): string
    decreases |parts|
  {
    if |parts| == 0 then "" else if |parts| == 1 then parts[0] else parts[0] + "&" + JoinWith(parts[1..])
  }

  function Printed(es: Entries): string { JoinWith(Parts(Flatten(es))) }

  lemma OneMorePart(ps: seq<(string, Scalar)>, key: string, ss: seq<Scalar>, s: Scalar)
    ensures Parts(ps + Pairs(key, ss + [s])) == Parts(ps + Pairs(key, ss)) + [Part(key, s)]
  {
    assert (ss + [s])[..|ss|] == ss;
    assert ps + Pairs(key, ss + [s]) == (ps + Pairs(key, ss)) + [(key, s)];
  }

  /** `toKeyValue` */
  method ToKeyValue(es: Entries) returns (s: string)
    ensures s == Printed(es)
  {
    var parts: seq<string> := [];
    var i := 0;
    while i < |es|
      invariant 0 <= i <= |es|
      invariant parts == Parts(Flatten(es[..i]))
    {
      var key, ss := es[i].0, Scalars(es[i].1);
      var j := 0;
      while j < |ss|
        invariant 0 <= j <= |ss|
        invariant parts == Parts(Flatten(es[..i]) + Pairs(key, ss[..j]))
      {
        assert ss[..j + 1] == ss[..j] + [ss[j]];
        OneMorePart(Flatten(es[..i]), key, ss[..j], ss[j]);
        parts := parts + [Part(key, ss[j])];
        j := j + 1;
      }
      assert ss[..|ss|] == ss;
      assert es[..i + 1][..i] == es[..i];
      i := i + 1;
    }
    assert es[..|es|] == es;
    s := JoinWith(parts);
  }

  // ---- parsing

  /** `split("&")` */
  function Split(s: string): (r: seq<string>)
    ensures |r| >= 1
    decreases |s|
  {
    if |s| == 0 then [""]
    else if s[0] == '&' then [""] + Split(s[1..])
    else
      var rest := Split(s[1..]);
      [[s[0]] + rest[0]] + rest[1..]
  }

  /** `replace(/\+/g, "%20")` */
  function PlusToSpace(s: string): string
    decreases |s|
  {
    if |s| == 0 then "" else (if s[0] == '+' then "%20" else [s[0]]) + PlusToSpace(s[1..])
  }

  function IndexOf(s: string, c: char): (i: int)
    ensures -1 <= i < |s|
    ensures i >= 0 ==> s[i] == c && c !in s[..i]
    ensures i < 0 ==> c !in s
    decreases |s|
  {
    if |s| == 0 then -1
    else if s[0] == c then 0
    else
      var rest := IndexOf(s[1..], c);
      if rest < 0 then -1 else rest + 1
  }

  /** The key and value one piece stands for, if it stands for any. */
  function ParsePiece(piece: string): Option<(string, Scalar)> {
    if piece == "" then None else
    var keyValue := PlusToSpace(piece);
    var split := IndexOf(keyValue, '=');
    var key := Decode(if split < 0 then keyValue else keyValue[..split]);
    if key.None? then None
    else if split < 0 then Some((key.value, Yes))
    else
      var val := Decode(keyValue[split + 1..]);
      Some((key.value, if val.None? then Undefined else Text(val.value)))
  }

  /** Assignment on a plain object: `__proto__` is not a slot, and a primitive prototype is ignored. */
  function Store(obj: Object, key: string, v: Value): Object {
    if key == "__proto__" then obj else obj[key := v]
  }

  function Add(obj: Object, key: string, s: Scalar): Object {
    if key !in obj then Store(obj, key, One(s))
    else if obj[key].Many? then obj[key := Many(obj[key].scalars + [s])]
    else obj[key := Many([obj[key].scalar, s])]
  }

  function AddPiece(obj: Object, piece: string): Object {
    var p := ParsePiece(piece);
    if p.None? then obj else Add(obj, p.value.0, p.value.1)
  }

  function AddPieces(obj: Object, pieces: seq<string>): Object
    decreases |pieces|
  {
    if |pieces| == 0 then obj else AddPiece(AddPieces(obj, pieces[..|pieces| - 1]), pieces[|pieces| - 1])
  }

  function Parsed(s: string): Object { AddPieces(map[], Split(s)) }

  /** `parseKeyValue` */
  method ParseKeyValue(value: string) returns (obj: Object)
    ensures obj == Parsed(value)
  {
    obj := map[];
    var keyValues := Split(value);
    var i := 0;
    while i < |keyValues|
      invariant 0 <= i <= |keyValues|
      invariant obj == AddPieces(map[], keyValues[..i])
    {
      assert keyValues[..i + 1][..i] == keyValues[..i];
      var pair := DecodePiece(keyValues[i]);
      if pair.Some? { obj := StorePair(obj, pair.value.0, pair.value.1); }
      i := i + 1;
    }
    assert keyValues[..|keyValues|] == keyValues;
  }

  /** The first half of the loop's body: split at the first `=` and decode both sides. */
  method DecodePiece(piece: string) returns (pair: Option<(string, Scalar)>)
    ensures pair == ParsePiece(piece)
  {
    if piece == "" { return None; }
    var keyValue := PlusToSpace(piece);
    var splitPoint := IndexOf(keyValue, '=');
    var key, hasVal, val := keyValue, false, "";
    if splitPoint != -1 {
      key := keyValue[..splitPoint];
      hasVal, val := true, keyValue[splitPoint + 1..];
    }
    var decodedKey := Decode(key);
    if decodedKey.None? { return None; }
    var decodedVal := Yes;
    if hasVal {
      var d := Decode(val);
      decodedVal := if d.Some? then Text(d.value) else Undefined;
    }
    return Some((decodedKey.value, decodedVal));
  }

  /** The second half: a new slot, a longer list, or a list of the old value and the new one. */
  method StorePair(obj: Object, key: string, val: Scalar) returns (r: Object)
    ensures r == Add(obj, key, val)
  {
    r := obj;
    if key !in r {
      r := Store(r, key, One(val));
    } else if r[key].Many? {
      r := r[key := Many(r[key].scalars + [val])];
    } else {
      r := r[key := Many([r[key].scalar, val])];
    }
  }

  // ---- a printed piece parses to the pair it was printed from

  lemma {:induction false} SplitPlain(s: string)
    requires '&' !in s
    ensures Split(s) == [s]
    decreases |s|
  {
    if |s| > 0 {
      assert '&' !in s[1..] && s[0] in s;
      SplitPlain(s[1..]);
      assert s == [s[0]] + s[1..];
    }
  }

  lemma {:induction false} SplitFirst(a: string, b: string)
    requires '&' !in a
    ensures Split(a + "&" + b) == [a] + Split(b)
    decreases |a|
  {
    var s := a + "&" + b;
    if |a| == 0 {
      assert s[1..] == b;
    } else {
      assert s[1..] == a[1..] + "&" + b && s[0] == a[0] && a[0] in a;
      assert '&' !in a[1..];
      SplitFirst(a[1..], b);
      assert a == [a[0]] + a[1..];
    }
  }

  lemma {:induction false} SplitJoin(parts: seq<string>)
    requires |parts| >= 1 && forall p | p in parts :: '&' !in p
    ensures Split(JoinWith(parts)) == parts
    decreases |parts|
  {
    if |parts| == 1 {
      SplitPlain(parts[0]);
    } else {
      SplitFirst(parts[0], JoinWith(parts[1..]));
      SplitJoin(parts[1..]);
    }
  }

  lemma {:induction false} NoPlus(s: string)
    requires '+' !in s
    ensures PlusToSpace(s) == s
    decreases |s|
  {
    if |s| > 0 {
      assert s[0] in s && '+' !in s[1..];
      NoPlus(s[1..]);
      assert s == [s[0]] + s[1..];
    }
  }

  lemma EncodedSafe(s: string)
    ensures QuerySafe(EncodeUriQuery(s, true))
    ensures EncodeUriQuery(s, true) == "" <==> s == ""
  {
    EncodeUriQueryByChar(s);
    QueryEncodeSafe(s);
  }

  lemma PartSafe(key: string, s: Scalar)
    ensures '&' !in Part(key, s) && '+' !in Part(key, s)
    ensures Part(key, s) == "" <==> key == "" && s.Yes?
  {
    EncodedSafe(key);
    EncodedSafe(Stringified(s));
  }

  lemma {:induction false} IndexOfSeparator(k: string, v: string)
    requires '=' !in k
    ensures var piece := k + "=" + v;
            IndexOf(piece, '=') == |k| && piece[..|k|] == k && piece[|k| + 1..] == v
    decreases |k|
  {
    if |k| > 0 {
      assert (k + "=" + v)[1..] == k[1..] + "=" + v && k[0] in k;
      assert '=' !in k[1..];
      IndexOfSeparator(k[1..], v);
    }
  }

  lemma KeyParses(key: string)
    requires key != ""
    ensures ParsePiece(Part(key, Yes)) == Some((key, Yes))
  {
    PartSafe(key, Yes);
    EncodedSafe(key);
    NoPlus(EncodeUriQuery(key, true));
    DecodeEncodeUriQuery(key);
    assert Part(key, Yes) == EncodeUriQuery(key, true);
  }

  lemma TextParses(key: string, s: Scalar)
    requires !s.Yes?
    ensures ParsePiece(Part(key, s)) == Some((key, Text(Stringified(s))))
  {
    PartSafe(key, s);
    NoPlus(Part(key, s));
    EncodedSafe(key);
    DecodeEncodeUriQuery(key);
    DecodeEncodeUriQuery(Stringified(s));
    var k := EncodeUriQuery(key, true);
    var v := EncodeUriQuery(Stringified(s), true);
    assert Part(key, s) == k + "=" + v;
    IndexOfSeparator(k, v);
  }

  lemma PartParses(key: string, s: Scalar)
    requires !(key == "" && s.Yes?)
    ensures ParsePiece(Part(key, s)) == Some((key, if s.Yes? then Yes else Text(Stringified(s))))
  {
    if s.Yes? { KeyParses(key); } else { TextParses(key, s); }
  }

  /** How one occurrence comes back. */
  function Reread(s: Scalar): Scalar { if s.Yes? then Yes else Text(Stringified(s)) }

  function AddPairs(obj: Object, ps: seq<(string, Scalar)>): Object
    decreases |ps|
  {
    if |ps| == 0 then obj else
    var before := AddPairs(obj, ps[..|ps| - 1]);
    var (key, s) := ps[|ps| - 1];
    if key == "" && s.Yes? then before else Add(before, key, Reread(s))
  }

  lemma {:induction false} AddParts(obj: Object, ps: seq<(string, Scalar)>)
    ensures AddPieces(obj, Parts(ps)) == AddPairs(obj, ps)
    decreases |ps|
  {
    if |ps| > 0 {
      var init, last := ps[..|ps| - 1], ps[|ps| - 1];
      AddParts(obj, init);
      assert Parts(ps)[..|ps| - 1] == Parts(init) && Parts(ps)[|ps| - 1] == Part(last.0, last.1);
      AddPart(AddPairs(obj, init), last.0, last.1);
    }
  }

  lemma AddPart(obj: Object, key: string, s: Scalar)
    ensures AddPiece(obj, Part(key, s)) == if key == "" && s.Yes? then obj else Add(obj, key, Reread(s))
  {
    if key == "" && s.Yes? {
      assert Part(key, s) == EncodeUriQuery("", true) == "";
    } else {
      PartParses(key, s);
    }
  }

  lemma ParsePrinted(es: Entries)
    ensures Parsed(Printed(es)) == AddPairs(map[], Flatten(es))
  {
    var ps := Flatten(es);
    if |ps| == 0 {
      assert Split("") == [""];
      assert AddPieces(map[], [""]) == AddPiece(AddPieces(map[], [""][..0]), "");
    } else {
      var parts := Parts(ps);
      forall p | p in parts ensures '&' !in p {
        var i :| 0 <= i < |parts| && parts[i] == p;
        PartSafe(ps[i].0, ps[i].1);
      }
      SplitJoin(parts);
      AddParts(map[], ps);
    }
  }

  // ---- what each key comes back as

  /** The occurrences of a key that are printed visibly, as they come back. */
  function Visible(ps: seq<(string, Scalar)>, key: string): seq<Scalar>
    decreases |ps|
  {
    if |ps| == 0 then []
    else
      var (k, s) := ps[|ps| - 1];
      Visible(ps[..|ps| - 1], key) + (if k == key && !(k == "" && s.Yes?) then [Reread(s)] else [])
  }

  predicate Holds(obj: Object, key: string, ss: seq<Scalar>) {
    if |ss| == 0 || key == "__proto__" then key !in obj
    else key in obj && obj[key] == if |ss| == 1 then One(ss[0]) else Many(ss)
  }

  lemma {:induction false} AddPairsHolds(ps: seq<(string, Scalar)>, key: string)
    ensures Holds(AddPairs(map[], ps), key, Visible(ps, key))
    decreases |ps|
  {
    if |ps| > 0 { AddPairsHolds(ps[..|ps| - 1], key); }
  }

  lemma {:induction false} VisibleAppend(a: seq<(string, Scalar)>, b: seq<(string, Scalar)>, key: string)
    ensures Visible(a + b, key) == Visible(a, key) + Visible(b, key)
    decreases |b|
  {
    if |b| == 0 {
      assert a + b == a;
    } else {
      assert (a + b)[..|a + b| - 1] == a + b[..|b| - 1];
      VisibleAppend(a, b[..|b| - 1], key);
    }
  }

  /** What the occurrences of one entry come back as. */
  function Back(key: string, ss: seq<Scalar>): seq<Scalar>
    decreases |ss|
  {
    if |ss| == 0 then []
    else Back(key, ss[..|ss| - 1]) + (if key == "" && ss[|ss| - 1].Yes? then [] else [Reread(ss[|ss| - 1])])
  }

  lemma {:induction false} VisiblePairs(k: string, ss: seq<Scalar>, key: string)
    ensures Visible(Pairs(k, ss), key) == if k == key then Back(key, ss) else []
    decreases |ss|
  {
    if |ss| > 0 {
      VisiblePairs(k, ss[..|ss| - 1], key);
      var ps := Pairs(k, ss);
      assert ps[..|ps| - 1] == Pairs(k, ss[..|ss| - 1]);
    }
  }

  ghost predicate DistinctKeys(es: Entries) { forall i, j | 0 <= i < j < |es| :: es[i].0 != es[j].0 }

  lemma {:induction false} VisibleFlatten(es: Entries, key: string)
    requires DistinctKeys(es)
    ensures (forall i | 0 <= i < |es| :: es[i].0 != key) ==> Visible(Flatten(es), key) == []
    ensures forall i | 0 <= i < |es| && es[i].0 == key :: Visible(Flatten(es), key) == Back(key, Scalars(es[i].1))
    decreases |es|
  {
    if |es| > 0 {
      var init := es[..|es| - 1];
      var last := es[|es| - 1];
      VisibleFlatten(init, key);
      VisibleAppend(Flatten(init), Pairs(last.0, Scalars(last.1)), key);
      VisiblePairs(last.0, Scalars(last.1), key);
      if last.0 == key {
        assert forall i | 0 <= i < |init| :: init[i].0 != key;
      } else {
        forall i | 0 <= i < |es| && es[i].0 == key ensures Visible(Flatten(es), key) == Back(key, Scalars(es[i].1)) {
          assert i < |init| && init[i] == es[i];
        }
      }
    }
  }

  /** The object that the entries are the entries of. */
  function ObjectOf(es: Entries): Object
    decreases |es|
  {
    if |es| == 0 then map[] else ObjectOf(es[..|es| - 1])[es[|es| - 1].0 := es[|es| - 1].1]
  }

  lemma {:induction false} ObjectOfEntry(es: Entries)
    requires DistinctKeys(es)
    ensures forall i | 0 <= i < |es| :: es[i].0 in ObjectOf(es) && ObjectOf(es)[es[i].0] == es[i].1
    ensures forall k | k in ObjectOf(es) :: exists i :: 0 <= i < |es| && es[i].0 == k
    decreases |es|
  {
    if |es| > 0 {
      var init := es[..|es| - 1];
      ObjectOfEntry(init);
      forall i | 0 <= i < |es| ensures es[i].0 in ObjectOf(es) && ObjectOf(es)[es[i].0] == es[i].1 {
        if i < |init| { assert init[i] == es[i]; }
      }
      forall k | k in ObjectOf(es) ensures exists i :: 0 <= i < |es| && es[i].0 == k {
        if k in ObjectOf(init) {
          var i :| 0 <= i < |init| && init[i].0 == k;
          assert es[i].0 == k;
        } else {
          assert es[|es| - 1].0 == k;
        }
      }
    }
  }

  /** An occurrence that prints visibly under its key and reads back as itself. */
  predicate Stable(key: string, s: Scalar) { s.Text? || (s.Yes? && key != "") }

  predicate StableEntry(key: string, v: Value) {
    && key != "__proto__"
    && (v.Many? ==> |v.scalars| >= 2)
    && forall s | s in Scalars(v) :: Stable(key, s)
  }

  lemma {:induction false} BackStable(key: string, ss: seq<Scalar>)
    ensures |Back(key, ss)| <= |ss|
    ensures Back(key, ss) == ss <==> forall s | s in ss :: Stable(key, s)
    decreases |ss|
  {
    if |ss| > 0 {
      var init, last := ss[..|ss| - 1], ss[|ss| - 1];
      BackStable(key, init);
      assert ss == init + [last];
      if Back(key, ss) == ss {
        assert Back(key, init) == init;
        forall s | s in ss ensures Stable(key, s) { assert s in init || s == last; }
      }
      if forall s | s in ss :: Stable(key, s) {
        assert forall s | s in init :: s in ss;
        assert last in ss;
      }
    }
  }

  lemma EntryComesBack(key: string, v: Value, obj: Object)
    requires Holds(obj, key, Back(key, Scalars(v)))
    ensures (key in obj && obj[key] == v) <==> StableEntry(key, v)
  {
    BackStable(key, Scalars(v));
  }

  lemma EntriesComeBack(es: Entries, i: nat)
    requires DistinctKeys(es) && i < |es|
    ensures var obj := Parsed(Printed(es));
            (es[i].0 in obj && obj[es[i].0] == es[i].1) <==> StableEntry(es[i].0, es[i].1)
  {
    ParsePrinted(es);
    AddPairsHolds(Flatten(es), es[i].0);
    VisibleFlatten(es, es[i].0);
    EntryComesBack(es[i].0, es[i].1, Parsed(Printed(es)));
  }

  lemma NoOtherKeys(es: Entries, k: string)
    requires DistinctKeys(es) && k in Parsed(Printed(es))
    ensures exists i :: 0 <= i < |es| && es[i].0 == k
  {
    ParsePrinted(es);
    AddPairsHolds(Flatten(es), k);
    VisibleFlatten(es, k);
  }

  lemma SameObject(es: Entries, obj: Object)
    requires DistinctKeys(es)
    requires forall k | k in obj :: exists i :: 0 <= i < |es| && es[i].0 == k
    ensures obj == ObjectOf(es) <==> forall i | 0 <= i < |es| :: es[i].0 in obj && obj[es[i].0] == es[i].1
  {
    ObjectOfEntry(es);
  }

  /**
   * Main result: printing and parsing gives the object back iff every entry is stable: its key is
   * not `__proto__`, a list has two items or more, and each item is a string, or `true` under a
   * non-empty key.
   */
  lemma RoundTripIff(es: Entries)
    requires DistinctKeys(es)
    ensures Parsed(Printed(es)) == ObjectOf(es) <==> forall i | 0 <= i < |es| :: StableEntry(es[i].0, es[i].1)
  {
    var obj := Parsed(Printed(es));
    forall i | 0 <= i < |es|
      ensures (es[i].0 in obj && obj[es[i].0] == es[i].1) <==> StableEntry(es[i].0, es[i].1)
    {
      EntriesComeBack(es, i);
    }
    forall k | k in obj ensures exists i :: 0 <= i < |es| && es[i].0 == k {
      NoOtherKeys(es, k);
    }
    SameObject(es, obj);
  }

  // ---- the printed order

  lemma {:induction false} FlattenAppend(a: Entries, b: Entries)
    ensures Flatten(a + b) == Flatten(a) + Flatten(b)
    decreases |b|
  {
    if |b| == 0 {
      assert a + b == a;
    } else {
      var last := b[|b| - 1];
      BeforeLast(a, b);
      FlattenAppend(a, b[..|b| - 1]);
      Associates(Flatten(a), Flatten(b[..|b| - 1]), Pairs(last.0, Scalars(last.1)));
    }
  }

  lemma BeforeLast<T>(a: seq<T>, b: seq<T>)
    requires |b| > 0
    ensures (a + b)[..|a + b| - 1] == a + b[..|b| - 1] && (a + b)[|a + b| - 1] == b[|b| - 1]
  {
  }

  lemma Associates<T>(a: seq<T>, b: seq<T>, c: seq<T>)
    ensures a + b + c == a + (b + c)
  {
  }

  lemma {:induction false} JoinWithAppend(a: seq<string>, b: seq<string>)
    requires |a| > 0 && |b| > 0
    ensures JoinWith(a + b) == JoinWith(a) + "&" + JoinWith(b)
    decreases |a|
  {
    if |a| == 1 {
      assert (a + b)[1..] == b;
    } else {
      assert (a + b)[1..] == a[1..] + b;
      JoinWithAppend(a[1..], b);
    }
  }

  /** Entries are printed one after the other, in their order. */
  lemma PrintedInOrder(a: Entries, b: Entries)
    ensures Printed(a + b)
         == if Flatten(a) == [] then Printed(b) else if Flatten(b) == [] then Printed(a)
            else Printed(a) + "&" + Printed(b)
  {
    FlattenAppend(a, b);
    var p, q := Flatten(a), Flatten(b);
    assert Parts(p + q) == Parts(p) + Parts(q);
    if p == [] {
      assert p + q == q;
    } else if q == [] {
      assert p + q == p;
    } else {
      JoinWithAppend(Parts(p), Parts(q));
    }
  }
}
