/** The matcher of the `filter` filter (src/filters/filter.ts), with its default comparator. */
module FilterMatch {
  import opened Basics
  import JsValues

  /** Data to filter. `Printed` is a date or a regular expression: an object with its own toString. */
  datatype Item =
    | Undefined
    | Null
    | Function
    | Bool(b: bool)
    | Num(n: JsValues.Number)
    | Str(s: string)
    | Printed(text: string)
    | List(items: seq<Item>)
    | Record(slots: map<string, Item>)

  /** A string to find, or an object of such expectations by key. */
  datatype Expectation = Wanted(text: string) | Fields(fields: map<string, Expectation>)

  /** What the strings depend on: how values other than strings are shown, and lower case. */
  datatype Text = Text(shown: Item -> string, lower: string -> string)

  predicate HasCustomToString(v: Item) {
    v.Printed? || (v.Record? && "toString" in v.slots && v.slots["toString"].Function?)
  }

  function Stringify(t: Text, v: Item): string {
    if v.Str? then v.s else if v.Printed? then v.text else t.shown(v)
  }

  predicate Occurs(s: string, part: string, i: nat) {
    i + |part| <= |s| && s[i..i + |part|] == part
  }

  predicate Includes(s: string, part: string) {
    exists i | 0 <= i <= |s| :: Occurs(s, part, i)
  }

  /** The default comparator, for a string to find; lists and functions never get here. */
  predicate Comparator(t: Text, actual: Item, text: string) {
    if actual.Undefined? || actual.Null? then false
    else if actual.Record? && !HasCustomToString(actual) then false
    else Includes(t.lower(Stringify(t, actual)), t.lower(text))
  }

  predicate Banged(text: string) { |text| > 0 && text[0] == '!' }

  predicate IsObject(v: Item) { v.Printed? || v.Record? }

  function Slots(v: Item): map<string, Item> {
    if v.Record? then v.slots else map[]
  }

  /** `deepCompare` with a string to expect. */
  predicate MatchText(t: Text, actual: Item, text: string, anyProp: bool, notWhole: bool)
    decreases |text|, actual, anyProp
  {
    if Banged(text) then !MatchText(t, actual, text[1..], anyProp, false)
    else if actual.List? then exists i | 0 <= i < |actual.items| :: MatchText(t, actual.items[i], text, anyProp, false)
    else if IsObject(actual) && anyProp then
      || (exists k | k in Slots(actual) && !Dollar(k) :: MatchText(t, Slots(actual)[k], text, true, false))
      || (!notWhole && MatchText(t, actual, text, false, false))
    else !actual.Function? && Comparator(t, actual, text)
  }

  /** Reading a slot; a method inherited by every object matches as little as undefined does. */
  function Slot(o: Item, k: string): Item {
    if k in Slots(o) then Slots(o)[k] else Undefined
  }

  /** `deepCompare` in general. */
  predicate DeepCompare(t: Text, actual: Item, expected: Expectation, anyKey: string, anyProp: bool, notWhole: bool)
    decreases expected, actual, anyProp
  {
    match expected
    case Wanted(text) => MatchText(t, actual, text, anyProp, notWhole)
    case Fields(fields) =>
      if actual.List? then
        exists i | 0 <= i < |actual.items| :: DeepCompare(t, actual.items[i], expected, anyKey, anyProp, false)
      else if IsObject(actual) && anyProp then
        || (exists k | k in Slots(actual) && !Dollar(k) ::
            DeepCompare(t, Slots(actual)[k], expected, anyKey, true, false))
        || (!notWhole && DeepCompare(t, actual, expected, anyKey, false, false))
      else if IsObject(actual) then
        forall k | k in fields ::
          if k == anyKey then DeepCompare(t, actual, fields[k], anyKey, true, true)
          else DeepCompare(t, Slot(actual, k), fields[k], anyKey, false, false)
      else false
  }

  // ---- what a text matches

  /** One step down: into a list, or into a slot whose name does not begin with `$`. */
  datatype Step = At(i: nat) | Of(key: string)

  function Down(v: Item, step: Step): Option<Item> {
    match step
    case At(i) => if v.List? && i < |v.items| then Some(v.items[i]) else None
    case Of(key) => if key in Slots(v) && !Dollar(key) then Some(Slots(v)[key]) else None
  }

  function Walk(v: Item, path: seq<Step>): Option<Item>
    decreases |path|
  {
    if |path| == 0 then Some(v)
    else
      match Down(v, path[0])
      case None => None
      case Some(next) => Walk(next, path[1..])
  }

  /** Something that prints, and prints the text. */
  predicate Hit(t: Text, leaf: Item, text: string) {
    !leaf.List? && !leaf.Function? && Comparator(t, leaf, text)
  }

  ghost predicate FoundAt(t: Text, v: Item, text: string, path: seq<Step>) {
    Walk(v, path).Some? && Hit(t, Walk(v, path).value, text)
  }

  /**
   * A string shows a text iff its lower case is made of something, the text's lower case, and something. What prints
   * by a method of its own, and other primitives, do so by what they print; undefined, null and plain objects never.
   */
  lemma HitIff(t: Text, leaf: Item, text: string)
    ensures Hit(t, leaf, text) <==>
            && !leaf.List? && !leaf.Function? && !leaf.Undefined? && !leaf.Null?
            && (leaf.Record? ==> "toString" in leaf.slots && leaf.slots["toString"].Function?)
            && exists pre, post: string ::
                 t.lower(match leaf case Str(s) => s case Printed(shown) => shown case _ => t.shown(leaf))
                 == pre + t.lower(text) + post
  {
    var s := match leaf case Str(s) => s case Printed(shown) => shown case _ => t.shown(leaf);
    IncludesIff(t.lower(s), t.lower(text));
  }

  lemma IncludesIff(s: string, part: string)
    ensures Includes(s, part) <==> exists pre, post: string :: s == pre + part + post
  {
    if i :| 0 <= i <= |s| && Occurs(s, part, i) {
      assert s == s[..i] + part + s[i + |part|..];
    }
    if pre, post: string :| s == pre + part + post {
      assert Occurs(s, part, |pre|);
    }
  }

  /** Some place in the data shows the text. */
  ghost predicate Found(t: Text, v: Item, text: string) {
    exists path :: FoundAt(t, v, text, path)
  }

  /** Some place below the whole shows the text. */
  ghost predicate FoundBelow(t: Text, v: Item, text: string) {
    exists path :: |path| > 0 && FoundAt(t, v, text, path)
  }

  function Stripped(text: string): string
    decreases |text|
  {
    if Banged(text) then Stripped(text[1..]) else text
  }

  function Bangs(text: string): nat
    decreases |text|
  {
    if Banged(text) then 1 + Bangs(text[1..]) else 0
  }

  lemma WalkOn(v: Item, step: Step, path: seq<Step>)
    ensures Walk(v, [step] + path) == if Down(v, step).Some? then Walk(Down(v, step).value, path) else None
  {
    assert ([step] + path)[1..] == path;
  }

  lemma FoundDeeper(t: Text, v: Item, step: Step, text: string)
    requires Down(v, step).Some? && Found(t, Down(v, step).value, text)
    ensures FoundBelow(t, v, text)
  {
    var path :| FoundAt(t, Down(v, step).value, text, path);
    WalkOn(v, step, path);
    assert FoundAt(t, v, text, [step] + path);
  }

  lemma FoundHere(t: Text, v: Item, text: string)
    requires Hit(t, v, text)
    ensures Found(t, v, text)
  {
    assert FoundAt(t, v, text, []);
  }

  /** What is found is found here or one step down. */
  lemma FoundSplits(t: Text, v: Item, text: string, path: seq<Step>) returns (step: Step)
    requires FoundAt(t, v, text, path) && |path| > 0
    ensures Down(v, step).Some? && Found(t, Down(v, step).value, text)
  {
    step := path[0];
    assert FoundAt(t, Down(v, step).value, text, path[1..]);
  }

  /** Without bangs, a match is a find; with `notWhole`, a find below. */
  lemma {:induction false} MatchIffFound(t: Text, v: Item, text: string)
    requires !Banged(text)
    ensures MatchText(t, v, text, true, false) <==> Found(t, v, text)
    decreases v, 1
  {
    MatchIffFoundBelow(t, v, text);
    HereOrBelow(t, v, text);
    if Hit(t, v, text) { FoundHere(t, v, text); }
    if path :| FoundAt(t, v, text, path) {
      if |path| == 0 {
        assert Hit(t, v, text);
      } else {
        var step := FoundSplits(t, v, text, path);
        assert FoundBelow(t, v, text);
      }
    }
  }

  lemma HereOrBelow(t: Text, v: Item, text: string)
    requires !Banged(text)
    ensures MatchText(t, v, text, true, false) <==>
            Hit(t, v, text) || ((v.List? || IsObject(v)) && MatchText(t, v, text, true, true))
  {
    if IsObject(v) {
      assert MatchText(t, v, text, false, false) <==> Comparator(t, v, text);
      assert MatchText(t, v, text, true, false)
             <==> MatchText(t, v, text, true, true) || MatchText(t, v, text, false, false);
    } else if v.List? {
      assert MatchText(t, v, text, true, false) <==> MatchText(t, v, text, true, true);
    }
  }

  lemma {:induction false} MatchIffFoundBelow(t: Text, v: Item, text: string)
    requires !Banged(text)
    ensures v.List? || IsObject(v) ==> (MatchText(t, v, text, true, true) <==> FoundBelow(t, v, text))
    decreases v, 0
  {
    if v.List? || IsObject(v) {
      forall step | Down(v, step).Some?
        ensures MatchText(t, Down(v, step).value, text, true, false) <==> Found(t, Down(v, step).value, text)
      {
        MatchIffFound(t, Down(v, step).value, text);
      }
      if MatchText(t, v, text, true, true) {
        var step := MatchedStep(t, v, text);
        FoundDeeper(t, v, step, text);
      }
      if path :| |path| > 0 && FoundAt(t, v, text, path) {
        var step := FoundSplits(t, v, text, path);
        MatchesDown(t, v, step, text);
      }
    }
  }

  lemma MatchedStep(t: Text, v: Item, text: string) returns (step: Step)
    requires !Banged(text) && (v.List? || IsObject(v)) && MatchText(t, v, text, true, true)
    ensures Down(v, step).Some? && MatchText(t, Down(v, step).value, text, true, false)
  {
    if v.List? {
      var i :| 0 <= i < |v.items| && MatchText(t, v.items[i], text, true, false);
      step := At(i);
    } else {
      var k :| k in Slots(v) && !Dollar(k) && MatchText(t, Slots(v)[k], text, true, false);
      step := Of(k);
    }
  }

  lemma MatchesDown(t: Text, v: Item, step: Step, text: string)
    requires !Banged(text) && Down(v, step).Some? && MatchText(t, Down(v, step).value, text, true, false)
    ensures MatchText(t, v, text, true, true)
  {
  }

  /** Each bang negates; only the first call may leave the whole object out. */
  lemma {:induction false} BangsNegate(t: Text, v: Item, text: string, anyProp: bool, notWhole: bool)
    ensures MatchText(t, v, text, anyProp, notWhole) <==>
            (MatchText(t, v, Stripped(text), anyProp, notWhole && !Banged(text)) <==> Bangs(text) % 2 == 0)
    decreases |text|
  {
    if Banged(text) { BangsNegate(t, v, text[1..], anyProp, false); }
  }

  lemma {:induction false} StrippedIsBare(text: string)
    ensures !Banged(Stripped(text))
    decreases |text|
  {
    if Banged(text) { StrippedIsBare(text[1..]); }
  }

  /** Main result: a string matches exactly when it is found somewhere, or, after an odd number of bangs, nowhere. */
  lemma TextMatches(t: Text, v: Item, text: string)
    ensures MatchText(t, v, text, true, false) <==> (Found(t, v, Stripped(text)) <==> Bangs(text) % 2 == 0)
  {
    BangsNegate(t, v, text, true, false);
    StrippedIsBare(text);
    MatchIffFound(t, v, Stripped(text));
  }

  /**
   * Main result: `{ $: text }` looks below the object only, unless a bang has been taken off: then the object
   * itself counts too.
   */
  lemma AnyKeyMatches(t: Text, v: Item, text: string, anyKey: string)
    requires IsObject(v)
    ensures DeepCompare(t, v, Fields(map[anyKey := Wanted(text)]), anyKey, false, false) <==>
            ((if Banged(text) then Found(t, v, Stripped(text)) else FoundBelow(t, v, text)) <==> Bangs(text) % 2 == 0)
  {
    var fields := map[anyKey := Wanted(text)];
    assert anyKey in fields;
    assert DeepCompare(t, v, Fields(fields), anyKey, false, false)
        <==> DeepCompare(t, v, fields[anyKey], anyKey, true, true);
    BangsNegate(t, v, text, true, true);
    StrippedIsBare(text);
    MatchIffFound(t, v, Stripped(text));
    MatchIffFoundBelow(t, v, Stripped(text));
  }

  /**
   * Main result, exact: `{ $: "!" + text }` is the negation of `{ $: text }` for an object iff the object does not
   * itself show the text, or something below it does too.
   */
  lemma BangNegatesIff(t: Text, v: Item, text: string, anyKey: string)
    requires IsObject(v) && !Banged(text)
    ensures (DeepCompare(t, v, Fields(map[anyKey := Wanted("!" + text)]), anyKey, false, false)
             <==> !DeepCompare(t, v, Fields(map[anyKey := Wanted(text)]), anyKey, false, false))
            <==> (Hit(t, v, text) ==> FoundBelow(t, v, text))
  {
    AnyKeyMatches(t, v, text, anyKey);
    AnyKeyMatches(t, v, "!" + text, anyKey);
    assert ("!" + text)[1..] == text;
    FoundHereOrBelow(t, v, text);
  }

  lemma FoundHereOrBelow(t: Text, v: Item, text: string)
    ensures Found(t, v, text) <==> Hit(t, v, text) || FoundBelow(t, v, text)
  {
    if Hit(t, v, text) { FoundHere(t, v, text); }
    if path :| FoundAt(t, v, text, path) && |path| == 0 { assert Hit(t, v, text); }
  }

  /** The smallest object for which it is not: a date that prints an x. */
  lemma NegationCountsTheWhole(t: Text, shown: string)
    requires Includes(t.lower(shown), t.lower("x"))
    ensures var v := Printed(shown);
            && !DeepCompare(t, v, Fields(map["$" := Wanted("x")]), "$", false, false)
            && !DeepCompare(t, v, Fields(map["$" := Wanted("!x")]), "$", false, false)
  {
    var v := Printed(shown);
    assert Slots(v) == map[];
    assert "!" + "x" == "!x";
    assert !Banged("x") && Bangs("x") == 0;
    AnyKeyMatches(t, v, "x", "$");
    BangNegatesIff(t, v, "x", "$");
    if path :| |path| > 0 && FoundAt(t, v, "x", path) {
      var step := FoundSplits(t, v, "x", path);
    }
  }

  // ---- expectations with several fields

  /** Main result: an object meets an expectation of several fields iff it meets each of them on its own. */
  lemma FieldsMatchIff(t: Text, v: Item, fields: map<string, Expectation>, anyKey: string, notWhole: bool)
    requires IsObject(v)
    ensures DeepCompare(t, v, Fields(fields), anyKey, false, notWhole) <==>
            forall k | k in fields :: DeepCompare(t, v, Fields(map[k := fields[k]]), anyKey, false, notWhole)
  {
    forall k | k in fields
      ensures DeepCompare(t, v, Fields(map[k := fields[k]]), anyKey, false, notWhole)
              <==> FieldMatches(t, v, k, fields[k], anyKey)
    {
      OneField(t, v, k, fields[k], anyKey, notWhole);
    }
  }

  predicate FieldMatches(t: Text, v: Item, k: string, expected: Expectation, anyKey: string) {
    if k == anyKey then DeepCompare(t, v, expected, anyKey, true, true)
    else DeepCompare(t, Slot(v, k), expected, anyKey, false, false)
  }

  lemma OneField(t: Text, v: Item, k: string, expected: Expectation, anyKey: string, notWhole: bool)
    requires IsObject(v)
    ensures DeepCompare(t, v, Fields(map[k := expected]), anyKey, false, notWhole)
            <==> FieldMatches(t, v, k, expected, anyKey)
  {
    var fields := map[k := expected];
    assert k in fields && fields[k] == expected;
  }

  /** From the whole into lists only. */
  predicate ListsOnly(path: seq<Step>) { forall i | 0 <= i < |path| :: path[i].At? }

  ghost predicate Shows(t: Text, v: Item, text: string) {
    exists path :: ListsOnly(path) && FoundAt(t, v, text, path)
  }

  lemma {:induction false} ShowsIff(t: Text, v: Item, text: string)
    requires !Banged(text)
    ensures MatchText(t, v, text, false, false) <==> Shows(t, v, text)
    decreases v
  {
    if v.List? {
      forall i | 0 <= i < |v.items| ensures MatchText(t, v.items[i], text, false, false) <==> Shows(t, v.items[i], text)
      {
        ShowsIff(t, v.items[i], text);
      }
      if i :| 0 <= i < |v.items| && Shows(t, v.items[i], text) {
        var path :| ListsOnly(path) && FoundAt(t, v.items[i], text, path);
        WalkOn(v, At(i), path);
        assert ListsOnly([At(i)] + path) && FoundAt(t, v, text, [At(i)] + path);
      }
      if path: seq<Step> :| ListsOnly(path) && FoundAt(t, v, text, path) {
        assert |path| > 0;
        assert ListsOnly(path[1..]) && FoundAt(t, v.items[path[0].i], text, path[1..]);
      }
    } else {
      if Hit(t, v, text) { assert ListsOnly([]) && FoundAt(t, v, text, []); }
      if path :| ListsOnly(path) && FoundAt(t, v, text, path) {
        assert Hit(t, v, text);
      }
    }
  }

  /**
   * Main result: `{ name: text }` looks at the slot of that name alone, and into lists there but not into objects;
   * each bang negates.
   */
  lemma NamedKeyMatches(t: Text, v: Item, key: string, text: string, anyKey: string, notWhole: bool)
    requires IsObject(v) && key != anyKey
    ensures DeepCompare(t, v, Fields(map[key := Wanted(text)]), anyKey, false, notWhole)
            <==> (Shows(t, Slot(v, key), Stripped(text)) <==> Bangs(text) % 2 == 0)
  {
    OneField(t, v, key, Wanted(text), anyKey, notWhole);
    assert DeepCompare(t, Slot(v, key), Wanted(text), anyKey, false, false)
        <==> MatchText(t, Slot(v, key), text, false, false);
    BangsNegate(t, Slot(v, key), text, false, false);
    StrippedIsBare(text);
    ShowsIff(t, Slot(v, key), Stripped(text));
  }

  // ---- where an expectation of several fields looks

  ghost predicate MeetsAt(t: Text, v: Item, fields: map<string, Expectation>, anyKey: string, path: seq<Step>) {
    && Walk(v, path).Some? && IsObject(Walk(v, path).value)
    && forall k | k in fields :: FieldMatches(t, Walk(v, path).value, k, fields[k], anyKey)
  }

  lemma MeetsHere(t: Text, v: Item, fields: map<string, Expectation>, anyKey: string)
    ensures MeetsAt(t, v, fields, anyKey, [])
            <==> IsObject(v) && DeepCompare(t, v, Fields(fields), anyKey, false, false)
  {
  }

  lemma MeetsDeeper(t: Text, v: Item, fields: map<string, Expectation>, anyKey: string, step: Step, path: seq<Step>)
    requires Down(v, step).Some?
    ensures MeetsAt(t, v, fields, anyKey, [step] + path) <==> MeetsAt(t, Down(v, step).value, fields, anyKey, path)
  {
    WalkOn(v, step, path);
  }

  /** Some object does: the whole, or, if the whole is a list, one in it or in the lists in it. */
  ghost predicate MeetsInLists(t: Text, v: Item, fields: map<string, Expectation>, anyKey: string) {
    exists path :: ListsOnly(path) && MeetsAt(t, v, fields, anyKey, path)
  }

  ghost predicate MeetsAnywhere(t: Text, v: Item, fields: map<string, Expectation>, anyKey: string) {
    exists path :: MeetsAt(t, v, fields, anyKey, path)
  }

  /** Main result: an expectation of fields is met by an object, or by one in a list, through lists only. */
  lemma {:induction false} FieldsInLists(t: Text, v: Item, fields: map<string, Expectation>, anyKey: string)
    ensures DeepCompare(t, v, Fields(fields), anyKey, false, false) <==> MeetsInLists(t, v, fields, anyKey)
    decreases v
  {
    MeetsHere(t, v, fields, anyKey);
    if v.List? {
      forall i | 0 <= i < |v.items|
        ensures DeepCompare(t, v.items[i], Fields(fields), anyKey, false, false)
                <==> MeetsInLists(t, v.items[i], fields, anyKey)
      {
        FieldsInLists(t, v.items[i], fields, anyKey);
      }
      if i :| 0 <= i < |v.items| && MeetsInLists(t, v.items[i], fields, anyKey) {
        var path :| ListsOnly(path) && MeetsAt(t, v.items[i], fields, anyKey, path);
        MeetsDeeper(t, v, fields, anyKey, At(i), path);
        assert ListsOnly([At(i)] + path);
      }
      if path: seq<Step> :| ListsOnly(path) && MeetsAt(t, v, fields, anyKey, path) {
        assert |path| > 0 && path == [path[0]] + path[1..];
        MeetsDeeper(t, v, fields, anyKey, path[0], path[1..]);
        assert ListsOnly(path[1..]) && MeetsInLists(t, v.items[path[0].i], fields, anyKey);
      }
    } else {
      if IsObject(v) && DeepCompare(t, v, Fields(fields), anyKey, false, false) { assert ListsOnly([]); }
      if path: seq<Step> :| ListsOnly(path) && MeetsAt(t, v, fields, anyKey, path) {
        assert path == [];
      }
    }
  }

  /** The step that leads to what meets the fields, if it is not the whole. */
  lemma MeetsNext(t: Text, v: Item, fields: map<string, Expectation>, anyKey: string, path: seq<Step>)
    returns (step: Step)
    requires |path| > 0 && MeetsAt(t, v, fields, anyKey, path)
    ensures Down(v, step).Some? && MeetsAnywhere(t, Down(v, step).value, fields, anyKey)
  {
    step := path[0];
    assert path == [step] + path[1..];
    MeetsDeeper(t, v, fields, anyKey, step, path[1..]);
  }

  /** Main result: against any property, the fields are met by the whole or by an object anywhere below it. */
  lemma {:induction false} FieldsAnywhere(t: Text, v: Item, fields: map<string, Expectation>, anyKey: string)
    ensures DeepCompare(t, v, Fields(fields), anyKey, true, false) <==> MeetsAnywhere(t, v, fields, anyKey)
    decreases v
  {
    MeetsHere(t, v, fields, anyKey);
    forall step | Down(v, step).Some?
      ensures DeepCompare(t, Down(v, step).value, Fields(fields), anyKey, true, false)
              <==> MeetsAnywhere(t, Down(v, step).value, fields, anyKey)
    {
      FieldsAnywhere(t, Down(v, step).value, fields, anyKey);
    }
    if step :| Down(v, step).Some? && MeetsAnywhere(t, Down(v, step).value, fields, anyKey) {
      var path :| MeetsAt(t, Down(v, step).value, fields, anyKey, path);
      MeetsDeeper(t, v, fields, anyKey, step, path);
    }
    if path :| MeetsAt(t, v, fields, anyKey, path) {
      if |path| > 0 { var step := MeetsNext(t, v, fields, anyKey, path); }
    }
    AnyPropSplits(t, v, fields, anyKey);
  }

  lemma AnyPropSplits(t: Text, v: Item, fields: map<string, Expectation>, anyKey: string)
    ensures DeepCompare(t, v, Fields(fields), anyKey, true, false) <==>
            || (IsObject(v) && DeepCompare(t, v, Fields(fields), anyKey, false, false))
            || exists step ::
                 Down(v, step).Some? && DeepCompare(t, Down(v, step).value, Fields(fields), anyKey, true, false)
  {
    if v.List? {
      if i :| 0 <= i < |v.items| && DeepCompare(t, v.items[i], Fields(fields), anyKey, true, false) {
        assert Down(v, At(i)).Some?;
      }
    } else if IsObject(v) {
      if k :| k in Slots(v) && !Dollar(k) && DeepCompare(t, Slots(v)[k], Fields(fields), anyKey, true, false) {
        assert Down(v, Of(k)).Some?;
      }
    }
  }
}
