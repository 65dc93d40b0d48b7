/**
 * `encodeURIComponent`, `decodeURIComponent` and `encodeUriQuery` (src/shared/utils.ts). Strings are
 * sequences of Unicode scalar values; percent triples are those of section 2.1 of RFC 3986.
 */
module PercentEncoding {
  import opened Basics

  type Byte = b: int | 0 <= b < 256

  // ---- encodeURIComponent

  predicate Alphanumeric(c: char) {
    'A' <= c <= 'Z' || 'a' <= c <= 'z' || '0' <= c <= '9'
  }

  predicate Unescaped(c: char) { Alphanumeric(c) || c in "-_.!~*'()" }

  function Hex(d: nat): (c: char)
    requires d < 16
    ensures '0' <= c <= '9' || 'A' <= c <= 'F'
  {
    if d < 10 then '0' + (d as char) else 'A' + ((d - 10) as char)
  }

  function HexValue(c: char): Option<nat> {
    if '0' <= c <= '9' then Some((c - '0') as nat)
    else if 'A' <= c <= 'F' then Some((c - 'A') as nat + 10)
    else if 'a' <= c <= 'f' then Some((c - 'a') as nat + 10)
    else None
  }

  function Triple(b: Byte): string { ['%', Hex(b / 16), Hex(b % 16)] }

  function Utf8(c: char): (bs: seq<Byte>)
    ensures 1 <= |bs| <= 4
  {
    var n := c as int;
    if n < 0x80 then [n]
    else if n < 0x800 then [0xC0 + n / 64, 0x80 + n % 64]
    else if n < 0x10000 then [0xE0 + n / 4096, 0x80 + n / 64 % 64, 0x80 + n % 64]
    else [0xF0 + n / 262144, 0x80 + n / 4096 % 64, 0x80 + n / 64 % 64, 0x80 + n % 64]
  }

  function Triples(bs: seq<Byte>): string
    decreases |bs|
  {
    if |bs| == 0 then "" else Triple(bs[0]) + Triples(bs[1..])
  }

  function EncodeChar(c: char): string { if Unescaped(c) then [c] else Triples(Utf8(c)) }

  function EncodeComponent(s: string): string
    decreases |s|
  {
    if |s| == 0 then "" else EncodeChar(s[0]) + EncodeComponent(s[1..])
  }

  // ---- decodeURIComponent

  /** The byte of a percent triple at the start of the string. */
  function LeadingByte(s: string): Option<Byte> {
    if |s| < 3 || s[0] != '%' || HexValue(s[1]).None? || HexValue(s[2]).None? then None
    else Some(HexValue(s[1]).value * 16 + HexValue(s[2]).value)
  }

  /** A continuation byte's six bits. */
  function Continuation(s: string): Option<nat> {
    match LeadingByte(s)
    case None => None
    case Some(b) => if 0x80 <= b < 0xC0 then Some(b - 0x80) else None
  }

  predicate ScalarValue(n: int) { 0 <= n < 0xD800 || 0xE000 <= n < 0x110000 }

  /** One character off the front, and how many characters it took; None where the browser throws. */
  function DecodeFirst(s: string): (r: Option<(char, nat)>)
    requires |s| > 0
    ensures r.Some? ==> 1 <= r.value.1 <= |s|
  {
    if s[0] != '%' then Some((s[0], 1)) else
    match LeadingByte(s)
    case None => None
    case Some(b) =>
      if b < 0x80 then Some((b as char, 3))
      else if b < 0xC0 then None
      else if b < 0xE0 then
        var c1 := Continuation(s[3..]);
        if c1.None? then None else
        var n := (b - 0xC0) * 64 + c1.value;
        if n < 0x80 || !ScalarValue(n) then None else Some((n as char, 6))
      else if b < 0xF0 then
        var c1 := Continuation(s[3..]);
        if c1.None? then None else
        var c2 := Continuation(s[6..]);
        if c2.None? then None else
        var n := (b - 0xE0) * 4096 + c1.value * 64 + c2.value;
        if n < 0x800 || !ScalarValue(n) then None else Some((n as char, 9))
      else if b < 0xF8 then
        var c1 := Continuation(s[3..]);
        if c1.None? then None else
        var c2 := Continuation(s[6..]);
        if c2.None? then None else
        var c3 := Continuation(s[9..]);
        if c3.None? then None else
        var n := (b - 0xF0) * 262144 + c1.value * 4096 + c2.value * 64 + c3.value;
        if n < 0x10000 || !ScalarValue(n) then None else Some((n as char, 12))
      else None
  }

  /** `tryDecodeURIComponent` */
  function Decode(s: string): Option<string>
    decreases |s|
  {
    if |s| == 0 then Some("") else
    match DecodeFirst(s)
    case None => None
    case Some((c, n)) =>
      match Decode(s[n..])
      case None => None
      case Some(rest) => Some([c] + rest)
  }

  // ---- encodeUriQuery

  function Lower(c: char): char { if 'A' <= c <= 'Z' then c - 'A' + 'a' else c }

  /** The string starts with the three-character pattern, whatever the case of its letters. */
  predicate Matches(s: string, pattern: string)
    requires |pattern| == 3
  {
    |s| >= 3 && Lower(s[0]) == Lower(pattern[0]) && Lower(s[1]) == Lower(pattern[1]) && Lower(s[2]) == Lower(pattern[2])
  }

  /** `replace(/pattern/gi, replacement)`, from left to right without overlaps. */
  function ReplaceAll(s: string, pattern: string, replacement: string): string
    requires |pattern| == 3
    decreases |s|
  {
    if |s| == 0 then ""
    else if Matches(s, pattern) then replacement + ReplaceAll(s[3..], pattern, replacement)
    else [s[0]] + ReplaceAll(s[1..], pattern, replacement)
  }

  function EncodeUriQuery(s: string, pctEncodeSpaces: bool): string {
    var e := EncodeComponent(s);
    var e1 := ReplaceAll(e, "%40", "@");
    var e2 := ReplaceAll(e1, "%3A", ":");
    var e3 := ReplaceAll(e2, "%24", "$");
    var e4 := ReplaceAll(e3, "%2C", ",");
    var e5 := ReplaceAll(e4, "%3B", ";");
    ReplaceAll(e5, "%20", if pctEncodeSpaces then "%20" else "+")
  }

  // ---- replacements act on whole triples

  /** A plain character, or a percent sign with two characters that are not one. */
  predicate IsUnit(u: string) {
    (|u| == 1 && u[0] != '%') || (|u| == 3 && u[0] == '%' && u[1] != '%' && u[2] != '%')
  }

  function Join(us: seq<string>): string
    decreases |us|
  {
    if |us| == 0 then "" else us[0] + Join(us[1..])
  }

  predicate AllUnits(us: seq<string>) { forall u | u in us :: IsUnit(u) }

  function Swap(us: seq<string>, pattern: string, replacement: string): (r: seq<string>)
    requires |pattern| == 3
    ensures |r| == |us|
    ensures forall i | 0 <= i < |us| :: r[i] == SwapUnit(us[i], pattern, replacement)
    decreases |us|
  {
    if |us| == 0 then [] else [SwapUnit(us[0], pattern, replacement)] + Swap(us[1..], pattern, replacement)
  }

  function SwapUnit(u: string, pattern: string, replacement: string): string
    requires |pattern| == 3
  {
    if Matches(u, pattern) then replacement else u
  }

  lemma {:induction false} ReplaceUnits(us: seq<string>, pattern: string, replacement: string)
    requires AllUnits(us) && IsUnit(pattern) && |pattern| == 3
    ensures ReplaceAll(Join(us), pattern, replacement) == Join(Swap(us, pattern, replacement))
    decreases |us|
  {
    if |us| > 0 {
      var u := us[0];
      var rest := Join(us[1..]);
      assert IsUnit(u);
      ReplaceUnits(us[1..], pattern, replacement);
      var s := u + rest;
      assert Join(us) == s;
      if |u| == 1 {
        assert s[1..] == rest;
      } else {
        assert s[3..] == rest && s[..3] == u;
        if !Matches(u, pattern) {
          KeepTriple(s, pattern, replacement);
        }
      }
    }
  }

  /** No match begins inside a triple. */
  lemma KeepTriple(s: string, pattern: string, replacement: string)
    requires |pattern| == 3 && pattern[0] == '%' && |s| >= 3
    requires !Matches(s, pattern) && s[1] != '%' && s[2] != '%'
    ensures ReplaceAll(s, pattern, replacement) == s[..3] + ReplaceAll(s[3..], pattern, replacement)
  {
    assert s[1..][0] == s[1] && s[2..][0] == s[2];
    assert s[1..][1..] == s[2..] && s[2..][1..] == s[3..];
    assert !Matches(s[1..], pattern) && !Matches(s[2..], pattern);
    assert ReplaceAll(s[2..], pattern, replacement) == [s[2]] + ReplaceAll(s[3..], pattern, replacement);
    assert ReplaceAll(s[1..], pattern, replacement) == [s[1]] + ReplaceAll(s[2..], pattern, replacement);
    assert s[..3] == [s[0]] + [s[1]] + [s[2]];
  }

  // ---- what encodeUriQuery does to each character

  function CharUnits(c: char): seq<string> { if Unescaped(c) then [[c]] else TripleUnits(Utf8(c)) }

  function TripleUnits(bs: seq<Byte>): (us: seq<string>)
    ensures |us| == |bs|
    ensures forall i | 0 <= i < |bs| :: us[i] == Triple(bs[i])
    decreases |bs|
  {
    if |bs| == 0 then [] else [Triple(bs[0])] + TripleUnits(bs[1..])
  }

  function UnitsOf(s: string): seq<string>
    decreases |s|
  {
    if |s| == 0 then [] else CharUnits(s[0]) + UnitsOf(s[1..])
  }

  lemma {:induction false} JoinAppend(a: seq<string>, b: seq<string>)
    ensures Join(a + b) == Join(a) + Join(b)
    decreases |a|
  {
    if |a| == 0 {
      assert a + b == b;
    } else {
      assert (a + b)[1..] == a[1..] + b;
      JoinAppend(a[1..], b);
    }
  }

  lemma {:induction false} JoinTriples(bs: seq<Byte>)
    ensures Join(TripleUnits(bs)) == Triples(bs)
    decreases |bs|
  {
    if |bs| > 0 {
      assert TripleUnits(bs)[1..] == TripleUnits(bs[1..]);
      JoinTriples(bs[1..]);
    }
  }

  lemma JoinOne(u: string)
    ensures Join([u]) == u
  {
    assert Join([u]) == u + Join([u][1..]);
  }

  lemma {:induction false} EncodeComponentJoins(s: string)
    ensures EncodeComponent(s) == Join(UnitsOf(s))
    ensures AllUnits(UnitsOf(s))
    decreases |s|
  {
    if |s| > 0 {
      EncodeComponentJoins(s[1..]);
      JoinAppend(CharUnits(s[0]), UnitsOf(s[1..]));
      if Unescaped(s[0]) { JoinOne([s[0]]); } else { JoinTriples(Utf8(s[0])); }
    }
  }

  function SwapAll(us: seq<string>): (r: seq<string>)
    ensures |r| == |us|
    ensures forall i | 0 <= i < |us| :: r[i] == QueryUnit(us[i])
  {
    Swap(Swap(Swap(Swap(Swap(Swap(us, "%40", "@"), "%3A", ":"), "%24", "$"), "%2C", ","), "%3B", ";"), "%20", "%20")
  }

  function QueryUnit(u: string): string {
    SwapUnit(SwapUnit(SwapUnit(SwapUnit(SwapUnit(SwapUnit(u, "%40", "@"), "%3A", ":"), "%24", "$"), "%2C", ","),
        "%3B", ";"), "%20", "%20")
  }

  lemma SwapKeepsUnits(us: seq<string>, pattern: string, replacement: string)
    requires AllUnits(us) && |pattern| == 3 && IsUnit(replacement)
    ensures AllUnits(Swap(us, pattern, replacement))
  {
  }

  lemma EncodeUriQueryJoins(s: string)
    ensures EncodeUriQuery(s, true) == Join(SwapAll(UnitsOf(s)))
  {
    EncodeComponentJoins(s);
    var u0 := UnitsOf(s);
    ReplaceUnits(u0, "%40", "@");
    SwapKeepsUnits(u0, "%40", "@");
    var u1 := Swap(u0, "%40", "@");
    ReplaceUnits(u1, "%3A", ":");
    SwapKeepsUnits(u1, "%3A", ":");
    var u2 := Swap(u1, "%3A", ":");
    ReplaceUnits(u2, "%24", "$");
    SwapKeepsUnits(u2, "%24", "$");
    var u3 := Swap(u2, "%24", "$");
    ReplaceUnits(u3, "%2C", ",");
    SwapKeepsUnits(u3, "%2C", ",");
    var u4 := Swap(u3, "%2C", ",");
    ReplaceUnits(u4, "%3B", ";");
    SwapKeepsUnits(u4, "%3B", ";");
    var u5 := Swap(u4, "%3B", ";");
    ReplaceUnits(u5, "%20", "%20");
  }

  /** A query character: itself when RFC 3986 section 3.4 allows it, percent triples otherwise. */
  function QueryChar(c: char): string {
    if c in "@:$,;" then [c] else EncodeChar(c)
  }

  function QueryEncode(s: string): string
    decreases |s|
  {
    if |s| == 0 then "" else QueryChar(s[0]) + QueryEncode(s[1..])
  }

  lemma HexInjective(d: nat, e: nat)
    requires d < 16 && e < 16
    ensures Lower(Hex(d)) == Lower(Hex(e)) <==> d == e
    ensures HexValue(Hex(d)) == Some(d)
  {
  }

  lemma TripleMatches(b: Byte, p: Byte)
    ensures Matches(Triple(b), Triple(p)) <==> b == p
  {
    HexInjective(b / 16, p / 16);
    HexInjective(b % 16, p % 16);
  }

  lemma PatternTriples()
    ensures Triple(0x40) == "%40" && Triple(0x3A) == "%3A" && Triple(0x24) == "%24"
    ensures Triple(0x2C) == "%2C" && Triple(0x3B) == "%3B" && Triple(0x20) == "%20"
  {
  }

  /** The replacements undo exactly the five triples of `@ : $ , ;`. */
  lemma QueryUnitOfTriple(b: Byte)
    ensures QueryUnit(Triple(b)) ==
            if b == 0x40 then "@" else if b == 0x3A then ":" else if b == 0x24 then "$"
            else if b == 0x2C then "," else if b == 0x3B then ";" else Triple(b)
  {
    PatternTriples();
    TripleMatches(b, 0x40);
    TripleMatches(b, 0x3A);
    TripleMatches(b, 0x24);
    TripleMatches(b, 0x2C);
    TripleMatches(b, 0x3B);
    TripleMatches(b, 0x20);
  }

  lemma SwapAllKeeps(us: seq<string>)
    requires forall u | u in us :: QueryUnit(u) == u
    ensures SwapAll(us) == us
  {
  }

  lemma AsciiQueryUnits(c: char)
    requires !Unescaped(c) && c as int < 0x80
    ensures Join(SwapAll(CharUnits(c))) == QueryChar(c)
  {
    var b: Byte := c as int;
    QueryUnitOfTriple(b);
    assert CharUnits(c) == [Triple(b)];
    assert SwapAll([Triple(b)]) == [QueryUnit(Triple(b))];
    JoinOne(QueryUnit(Triple(b)));
    assert Triples([b]) == Triple(b) + Triples([b][1..]);
    assert EncodeChar(c) == Triple(b);
  }

  lemma WideQueryUnits(c: char)
    requires c as int >= 0x80
    ensures Join(SwapAll(CharUnits(c))) == QueryChar(c)
  {
    var bs := Utf8(c);
    var us := CharUnits(c);
    assert us == TripleUnits(bs);
    forall u | u in us ensures QueryUnit(u) == u {
      var i :| 0 <= i < |us| && us[i] == u;
      WideBytes(c, i);
      QueryUnitOfTriple(bs[i]);
    }
    SwapAllKeeps(us);
    JoinTriples(bs);
  }

  lemma WideBytes(c: char, i: nat)
    requires c as int >= 0x80 && i < |Utf8(c)|
    ensures Utf8(c)[i] >= 0x80
  {
  }

  lemma CharQueryUnits(c: char)
    ensures Join(SwapAll(CharUnits(c))) == QueryChar(c)
  {
    if Unescaped(c) {
      SwapAllKeeps([[c]]);
      JoinOne([c]);
    } else if c as int < 0x80 {
      AsciiQueryUnits(c);
    } else {
      WideQueryUnits(c);
    }
  }

  lemma SwapAllAppend(a: seq<string>, b: seq<string>)
    ensures SwapAll(a + b) == SwapAll(a) + SwapAll(b)
  {
    var whole, parts := SwapAll(a + b), SwapAll(a) + SwapAll(b);
    assert |whole| == |parts|;
    forall i | 0 <= i < |whole| ensures whole[i] == parts[i] { assert whole[i] == QueryUnit((a + b)[i]); }
  }

  /** `encodeUriQuery(s, true)` works character by character. */
  lemma {:induction false} EncodeUriQueryByChar(s: string)
    ensures EncodeUriQuery(s, true) == QueryEncode(s)
    decreases |s|
  {
    EncodeUriQueryJoins(s);
    if |s| > 0 {
      EncodeUriQueryByChar(s[1..]);
      EncodeUriQueryJoins(s[1..]);
      SwapAllAppend(CharUnits(s[0]), UnitsOf(s[1..]));
      JoinAppend(SwapAll(CharUnits(s[0])), SwapAll(UnitsOf(s[1..])));
      CharQueryUnits(s[0]);
    }
  }

  // ---- decoding takes it back

  lemma LeadingTriple(b: Byte, rest: string)
    ensures LeadingByte(Triple(b) + rest) == Some(b)
    ensures (Triple(b) + rest)[3..] == rest
  {
    HexInjective(b / 16, 0);
    HexInjective(b % 16, 0);
  }

  lemma DecodeOne(b0: Byte, rest: string)
    requires b0 < 0x80
    ensures DecodeFirst(Triple(b0) + rest) == Some((b0 as char, 3))
  {
    LeadingTriple(b0, rest);
  }

  lemma DecodeTwo(b0: Byte, b1: Byte, rest: string)
    requires 0xC0 <= b0 < 0xE0 && 0x80 <= b1 < 0xC0
    requires var n := (b0 - 0xC0) * 64 + (b1 - 0x80); n >= 0x80 && ScalarValue(n)
    ensures DecodeFirst(Triple(b0) + (Triple(b1) + rest)) == Some((((b0 - 0xC0) * 64 + (b1 - 0x80)) as char, 6))
  {
    LeadingTriple(b0, Triple(b1) + rest);
    LeadingTriple(b1, rest);
  }

  lemma DecodeThree(b0: Byte, b1: Byte, b2: Byte, rest: string)
    requires 0xE0 <= b0 < 0xF0 && 0x80 <= b1 < 0xC0 && 0x80 <= b2 < 0xC0
    requires var n := (b0 - 0xE0) * 4096 + (b1 - 0x80) * 64 + (b2 - 0x80); n >= 0x800 && ScalarValue(n)
    ensures DecodeFirst(Triple(b0) + (Triple(b1) + (Triple(b2) + rest)))
            == Some((((b0 - 0xE0) * 4096 + (b1 - 0x80) * 64 + (b2 - 0x80)) as char, 9))
  {
    var s := Triple(b0) + (Triple(b1) + (Triple(b2) + rest));
    LeadingTriple(b0, Triple(b1) + (Triple(b2) + rest));
    LeadingTriple(b1, Triple(b2) + rest);
    LeadingTriple(b2, rest);
    assert s[6..] == s[3..][3..];
  }

  lemma DecodeFour(b0: Byte, b1: Byte, b2: Byte, b3: Byte, rest: string)
    requires 0xF0 <= b0 < 0xF8 && 0x80 <= b1 < 0xC0 && 0x80 <= b2 < 0xC0 && 0x80 <= b3 < 0xC0
    requires var n := (b0 - 0xF0) * 262144 + (b1 - 0x80) * 4096 + (b2 - 0x80) * 64 + (b3 - 0x80);
             n >= 0x10000 && ScalarValue(n)
    ensures DecodeFirst(Triple(b0) + (Triple(b1) + (Triple(b2) + (Triple(b3) + rest))))
            == Some((((b0 - 0xF0) * 262144 + (b1 - 0x80) * 4096 + (b2 - 0x80) * 64 + (b3 - 0x80)) as char, 12))
  {
    var s := Triple(b0) + (Triple(b1) + (Triple(b2) + (Triple(b3) + rest)));
    LeadingTriple(b0, Triple(b1) + (Triple(b2) + (Triple(b3) + rest)));
    LeadingTriple(b1, Triple(b2) + (Triple(b3) + rest));
    LeadingTriple(b2, Triple(b3) + rest);
    LeadingTriple(b3, rest);
    assert s[6..] == s[3..][3..];
    assert s[9..] == s[6..][3..];
  }

  lemma TriplesOf(bs: seq<Byte>, rest: string)
    requires 1 <= |bs| <= 4
    ensures |bs| == 1 ==> Triples(bs) + rest == Triple(bs[0]) + rest
    ensures |bs| == 2 ==> Triples(bs) + rest == Triple(bs[0]) + (Triple(bs[1]) + rest)
    ensures |bs| == 3 ==> Triples(bs) + rest == Triple(bs[0]) + (Triple(bs[1]) + (Triple(bs[2]) + rest))
    ensures |bs| == 4 ==>
              Triples(bs) + rest == Triple(bs[0]) + (Triple(bs[1]) + (Triple(bs[2]) + (Triple(bs[3]) + rest)))
    ensures |Triples(bs)| == 3 * |bs|
  {
    if |bs| > 1 {
      TriplesOf(bs[1..], rest);
      assert Triples(bs) + rest == Triple(bs[0]) + (Triples(bs[1..]) + rest);
    } else {
      assert Triples(bs) == Triple(bs[0]) + Triples(bs[1..]);
    }
  }

  lemma DecodeQueryChar(c: char, rest: string)
    ensures DecodeFirst(QueryChar(c) + rest) == Some((c, |QueryChar(c)|))
    ensures (QueryChar(c) + rest)[|QueryChar(c)|..] == rest
  {
    if Escaped(c) { DecodeTriples(c, rest); }
  }

  lemma DecodeTriples(c: char, rest: string)
    ensures DecodeFirst(Triples(Utf8(c)) + rest) == Some((c, |Triples(Utf8(c))|))
  {
    var bs := Utf8(c);
    TriplesOf(bs, rest);
    if c as int < 0x80 {
      DecodeOne(bs[0], rest);
    } else if c as int < 0x800 {
      DecodeTwo(bs[0], bs[1], rest);
    } else if c as int < 0x10000 {
      ThreeBytes(c);
      DecodeThree(bs[0], bs[1], bs[2], rest);
    } else {
      FourBytes(c);
      DecodeFour(bs[0], bs[1], bs[2], bs[3], rest);
    }
  }

  lemma ThreeBytes(c: char)
    requires 0x800 <= c as int < 0x10000
    ensures var bs: seq<int> := Utf8(c);
            && |bs| == 3 && 0xE0 <= bs[0] < 0xF0 && 0x80 <= bs[1] < 0xC0 && 0x80 <= bs[2] < 0xC0
            && c as int == (bs[0] - 0xE0) * 4096 + (bs[1] - 0x80) * 64 + (bs[2] - 0x80)
  {
    var n := c as int;
    assert n / 64 / 64 == n / 4096;
  }

  lemma FourBytes(c: char)
    requires c as int >= 0x10000
    ensures var bs: seq<int> := Utf8(c);
            && |bs| == 4 && 0xF0 <= bs[0] < 0xF8 && 0x80 <= bs[1] < 0xC0 && 0x80 <= bs[2] < 0xC0 && 0x80 <= bs[3] < 0xC0
            && c as int == (bs[0] - 0xF0) * 262144 + (bs[1] - 0x80) * 4096 + (bs[2] - 0x80) * 64 + (bs[3] - 0x80)
  {
    var n := c as int;
    assert n / 64 / 64 == n / 4096 && n / 4096 / 64 == n / 262144;
  }

  /** Main result: decoding inverts the query encoding on every string. */
  lemma {:induction false} DecodeEncodeUriQuery(s: string)
    ensures Decode(EncodeUriQuery(s, true)) == Some(s)
  {
    EncodeUriQueryByChar(s);
    DecodeQueryEncode(s);
  }

  lemma {:induction false} DecodeQueryEncode(s: string)
    ensures Decode(QueryEncode(s)) == Some(s)
    decreases |s|
  {
    if |s| > 0 {
      DecodeQueryEncode(s[1..]);
      DecodeStep(s[0], QueryEncode(s[1..]), s[1..]);
      assert s == [s[0]] + s[1..];
    }
  }

  lemma DecodeStep(c: char, code: string, rest: string)
    requires Decode(code) == Some(rest)
    ensures Decode(QueryChar(c) + code) == Some([c] + rest)
  {
    DecodeQueryChar(c, code);
  }

  /** None of the characters that separate or escape in a query string survives the encoding. */
  predicate QuerySafe(s: string) { '&' !in s && '=' !in s && '+' !in s }

  lemma {:induction false} QueryEncodeSafe(s: string)
    ensures QuerySafe(QueryEncode(s))
    ensures QueryEncode(s) == "" <==> s == ""
    decreases |s|
  {
    if |s| > 0 {
      QueryEncodeSafe(s[1..]);
      if Escaped(s[0]) { TriplesSafe(Utf8(s[0])); }
    }
  }

  predicate Escaped(c: char) { c !in "@:$,;" && !Unescaped(c) }

  lemma {:induction false} TriplesSafe(bs: seq<Byte>)
    ensures QuerySafe(Triples(bs)) && |Triples(bs)| == 3 * |bs|
    decreases |bs|
  {
    if |bs| > 0 { TriplesSafe(bs[1..]); }
  }
}
