/** What a split template and its rendering are, said without the loops (src/core/interpolate/interpolate.ts). */
module Templates {
  import opened Basics
  import opened Interpolate

  // ---- the split is the only one

  ghost predicate NoneBefore(s: string, pattern: string, n: nat) { forall i | 0 <= i < n :: !Occurs(s, pattern, i) }

  /** No start symbol with an end symbol somewhere behind it. */
  ghost predicate NoPlaceholder(s: string, open: string, close: string) {
    forall i, j | Occurs(s, open, i) && i + |open| <= j :: !Occurs(s, close, j)
  }

  /**
   * An expression ends at the first end symbol behind its start symbol, a literal at the first start symbol; only
   * the last literal has none, or one that is never closed. No literal is empty or stands beside another.
   */
  ghost predicate Proper(ps: seq<Piece>, open: string, close: string) {
    forall i | 0 <= i < |ps| :: ProperAt(ps, open, close, i)
  }

  ghost predicate ProperAt(ps: seq<Piece>, open: string, close: string, i: nat)
    requires i < |ps|
  {
    match ps[i]
    case Expression(exp) => NoneBefore(exp + close, close, |exp|)
    case Literal(raw) =>
      && raw != ""
      && if i == |ps| - 1 then NoPlaceholder(raw, open, close)
         else ps[i + 1].Expression? && NoneBefore(raw + open, open, |raw|)
  }

  lemma OccursInPart(text: string, from: nat, to: nat, pattern: string, i: nat)
    requires from <= to <= |text| && from + i + |pattern| <= to
    ensures Occurs(text[from..to], pattern, i) <==> Occurs(text, pattern, from + i)
  {
  }

  lemma NoneInPart(text: string, from: nat, to: nat, pattern: string, n: nat)
    requires from <= to <= |text| && |pattern| > 0
    requires forall j | from <= j < from + n :: !Occurs(text, pattern, j)
    ensures NoneBefore(text[from..to], pattern, n)
  {
    forall i | 0 <= i < n ensures !Occurs(text[from..to], pattern, i) {
      if from + i + |pattern| <= to { OccursInPart(text, from, to, pattern, i); }
    }
  }

  lemma PlaceholderProper(text: string, open: string, close: string, index: nat, start: nat, end: nat)
    requires |open| > 0 && |close| > 0
    requires index <= |text| && FirstFrom(text, open, index, start) && FirstFrom(text, close, start + |open|, end)
    ensures NoneBefore(text[index..start] + open, open, start - index)
    ensures NoneBefore(text[start + |open|..end] + close, close, end - (start + |open|))
  {
    assert text[index..start] + open == text[index..start + |open|] by {
      assert text[start..start + |open|] == open;
    }
    assert text[start + |open|..end] + close == text[start + |open|..end + |close|] by {
      assert text[end..end + |close|] == close;
    }
    NoneInPart(text, index, start + |open|, open, start - index);
    NoneInPart(text, start + |open|, end + |close|, close, end - (start + |open|));
  }

  lemma RestProper(text: string, open: string, close: string, index: nat)
    requires index < |text| && |open| > 0 && |close| > 0
    requires TakeTurn(text, open, close, index).Rest?
    ensures NoPlaceholder(text[index..], open, close)
  {
    var rest, start := text[index..], IndexOf(text, open, index);
    forall i, j | Occurs(rest, open, i) && i + |open| <= j ensures !Occurs(rest, close, j) {
      OccursInPart(text, index, |text|, open, i);
      if j + |close| <= |rest| {
        OccursInPart(text, index, |text|, close, j);
        assert start != -1 && start <= index + i;
        assert EndAfter(text, open, close, start) == -1;
      }
    }
  }

  lemma PairProper(lead: string, exp: string, rest: seq<Piece>, open: string, close: string)
    requires NoneBefore(lead + open, open, |lead|) && NoneBefore(exp + close, close, |exp|)
    requires Proper(rest, open, close)
    ensures Proper(Pair(lead, exp) + rest, open, close)
  {
    var ps, n := Pair(lead, exp) + rest, |Pair(lead, exp)|;
    forall i | 0 <= i < |ps| ensures ProperAt(ps, open, close, i) {
      if i >= n {
        assert ProperAt(rest, open, close, i - n);
        assert ps[i] == rest[i - n] && (i + 1 < |ps| ==> ps[i + 1] == rest[i - n + 1]);
      }
    }
  }

  /** Main result: the pieces of a text are split in the right places. */
  lemma {:induction false} PiecesAreProper(text: string, open: string, close: string, index: nat)
    requires index <= |text| && |open| > 0 && |close| > 0
    ensures Proper(Pieces(text, open, close, index), open, close)
    decreases |text| - index
  {
    if index < |text| {
      var t, start := TakeTurn(text, open, close, index), IndexOf(text, open, index);
      var end := EndAfter(text, open, close, start);
      PiecesAreProper(text, open, close, t.next);
      if end == -1 {
        RestProper(text, open, close, index);
        LastProper(text[index..], open, close);
        assert Pieces(text, open, close, t.next) == [];
        assert Pieces(text, open, close, index) == [Literal(text[index..])];
      } else {
        PlaceholderProper(text, open, close, index, start, end);
        PairProper(t.lead, t.exp, Pieces(text, open, close, t.next), open, close);
      }
    }
  }

  lemma LastProper(raw: string, open: string, close: string)
    requires raw != "" && NoPlaceholder(raw, open, close)
    ensures Proper([Literal(raw)], open, close)
  {
    assert ProperAt([Literal(raw)], open, close, 0);
  }

  // ---- a proper list of pieces is determined by its text

  /** There is a placeholder, perhaps behind a literal. */
  predicate HasPlaceholder(ps: seq<Piece>) { |ps| > 0 && (ps[0].Expression? || (|ps| > 1 && ps[1].Expression?)) }

  /** The literal before the first placeholder, its expression, and what follows. */
  function Parts(ps: seq<Piece>): (string, string, seq<Piece>)
    requires HasPlaceholder(ps)
  {
    if ps[0].Expression? then ("", ps[0].exp, ps[1..]) else (ps[0].raw, ps[1].exp, ps[2..])
  }

  lemma PartsProper(ps: seq<Piece>, open: string, close: string)
    requires HasPlaceholder(ps) && Proper(ps, open, close)
    ensures var (lead, exp, rest) := Parts(ps);
            && NoneBefore(lead + open, open, |lead|) && NoneBefore(exp + close, close, |exp|)
            && Proper(rest, open, close) && ps == Pair(lead, exp) + rest
            && Interleave(ps, open, close) == (lead + open + exp + close) + Interleave(rest, open, close)
  {
    var (lead, exp, rest) := Parts(ps);
    var n := |ps| - |rest|;
    assert ProperAt(ps, open, close, 0) && ProperAt(ps, open, close, n - 1);
    forall i | 0 <= i < |rest| ensures ProperAt(rest, open, close, i) { assert ProperAt(ps, open, close, i + n); }
    assert ps == Pair(lead, exp) + rest;
    InterleaveAppend(Pair(lead, exp), rest, open, close);
    PairText(lead, exp, open, close);
  }

  lemma PairText(lead: string, exp: string, open: string, close: string)
    ensures Interleave(Pair(lead, exp), open, close) == lead + open + exp + close
  {
    HeadWritten(Placeholder(lead, exp, 0), open, close);
  }

  /** A text that starts so has its first placeholder there. */
  lemma FirstPlaceholder(text: string, lead: string, exp: string, rest: string, open: string, close: string)
    requires text == (lead + open + exp + close) + rest && |open| > 0 && |close| > 0
    requires NoneBefore(lead + open, open, |lead|) && NoneBefore(exp + close, close, |exp|)
    ensures FirstFrom(text, open, 0, |lead|)
    ensures FirstFrom(text, close, |lead| + |open|, |lead| + |open| + |exp|)
  {
    var a, b := |lead| + |open|, |lead| + |open| + |exp|;
    assert text[0..a] == lead + open && text[a..b + |close|] == exp + close;
    forall j | 0 <= j < |lead| ensures !Occurs(text, open, j) { OccursInPart(text, 0, a, open, j); }
    forall j | a <= j < b ensures !Occurs(text, close, j) { OccursInPart(text, a, b + |close|, close, j - a); }
  }

  lemma WithoutPlaceholder(ps: seq<Piece>, open: string, close: string)
    requires !HasPlaceholder(ps) && Proper(ps, open, close)
    ensures NoPlaceholder(Interleave(ps, open, close), open, close) || |open| == 0 || |close| == 0
    ensures ps == if Interleave(ps, open, close) == "" then [] else [Literal(Interleave(ps, open, close))]
  {
    if |ps| > 0 {
      assert ProperAt(ps, open, close, 0);
      InterleaveOne(ps[0], open, close);
      assert ps == [ps[0]];
    }
  }

  /** Main result: there is one way to split a text properly, so the pieces are the ones a reader would find. */
  lemma {:induction false} ProperIsUnique(ps: seq<Piece>, qs: seq<Piece>, open: string, close: string)
    requires |open| > 0 && |close| > 0 && Proper(ps, open, close) && Proper(qs, open, close)
    requires Interleave(ps, open, close) == Interleave(qs, open, close)
    ensures ps == qs
    decreases |ps| + |qs|
  {
    if HasPlaceholder(ps) && HasPlaceholder(qs) {
      var (l1, e1, r1) := Parts(ps);
      var (l2, e2, r2) := Parts(qs);
      PartsProper(ps, open, close);
      PartsProper(qs, open, close);
      var t1, t2 := Interleave(r1, open, close), Interleave(r2, open, close);
      SameParts(l1, e1, t1, l2, e2, t2, open, close);
      ProperIsUnique(r1, r2, open, close);
    } else if HasPlaceholder(ps) {
      OneHasNone(ps, qs, open, close);
    } else if HasPlaceholder(qs) {
      OneHasNone(qs, ps, open, close);
    } else {
      WithoutPlaceholder(ps, open, close);
      WithoutPlaceholder(qs, open, close);
    }
  }

  lemma OneHasNone(ps: seq<Piece>, qs: seq<Piece>, open: string, close: string)
    requires |open| > 0 && |close| > 0 && Proper(ps, open, close) && Proper(qs, open, close)
    requires HasPlaceholder(ps) && !HasPlaceholder(qs)
    ensures Interleave(ps, open, close) != Interleave(qs, open, close)
  {
    var (lead, exp, rest) := Parts(ps);
    PartsProper(ps, open, close);
    var text := Interleave(ps, open, close);
    FirstPlaceholder(text, lead, exp, Interleave(rest, open, close), open, close);
    WithoutPlaceholder(qs, open, close);
  }

  lemma SameParts(l1: string, e1: string, t1: string, l2: string, e2: string, t2: string, open: string, close: string)
    requires |open| > 0 && |close| > 0
    requires (l1 + open + e1 + close) + t1 == (l2 + open + e2 + close) + t2
    requires NoneBefore(l1 + open, open, |l1|) && NoneBefore(e1 + close, close, |e1|)
    requires NoneBefore(l2 + open, open, |l2|) && NoneBefore(e2 + close, close, |e2|)
    ensures l1 == l2 && e1 == e2 && t1 == t2
  {
    var text := (l1 + open + e1 + close) + t1;
    FirstPlaceholder(text, l1, e1, t1, open, close);
    FirstPlaceholder(text, l2, e2, t2, open, close);
    assert |l1| == |l2| && |e1| == |e2|;
    var a, b := |l1| + |open|, |l1| + |open| + |e1|;
    assert text[..|l1|] == l1 && text[..|l2|] == l2;
    assert text[a..b] == e1 && text[a..b] == e2;
    assert text[b + |close|..] == t1 && text[b + |close|..] == t2;
  }

  // ---- the rendering

  function Shown(v: Option<string>): string { if v.Some? then v.value else "" }

  function Concat(parts: seq<string>): string
    decreases |parts|
  {
    if |parts| == 0 then "" else Concat(parts[..|parts| - 1]) + parts[|parts| - 1]
  }

  /** One part for each piece: the literals unescaped, and the values, undefined being nothing. */
  ghost predicate Spells(parts: seq<string>, ps: seq<Piece>, unescape: string -> string, values: seq<Option<string>>)
    requires |values| == |Positions(ps)|
  {
    && |parts| == |ps|
    && (forall i | 0 <= i < |ps| && ps[i].Literal? :: parts[i] == unescape(ps[i].raw))
    && (forall k | 0 <= k < |values| :: Positions(ps)[k] < |parts| && parts[Positions(ps)[k]] == Shown(values[k]))
  }

  lemma SpellsLiteral(parts: seq<string>, ps: seq<Piece>, raw: string, unescape: string -> string,
                      values: seq<Option<string>>)
    requires |values| == |Positions(ps)| && Spells(parts, ps, unescape, values)
    ensures Positions(ps + [Literal(raw)]) == Positions(ps)
    ensures Spells(parts + [unescape(raw)], ps + [Literal(raw)], unescape, values)
  {
    assert (ps + [Literal(raw)])[..|ps|] == ps;
  }

  lemma SpellsExpression(parts: seq<string>, ps: seq<Piece>, exp: string, unescape: string -> string,
                         values: seq<Option<string>>, v: Option<string>)
    requires |values| == |Positions(ps)| && Spells(parts, ps, unescape, values)
    ensures Positions(ps + [Expression(exp)]) == Positions(ps) + [|ps|]
    ensures Spells(parts + [Shown(v)], ps + [Expression(exp)], unescape, values + [v])
  {
    assert (ps + [Expression(exp)])[..|ps|] == ps;
  }

  lemma ConcatOn(parts: seq<string>, part: string)
    ensures Concat(parts + [part]) == Concat(parts) + part
  {
    assert (parts + [part])[..|parts|] == parts;
  }

  lemma InitAndLast<T>(s: seq<T>)
    requires |s| > 0
    ensures s == s[..|s| - 1] + [s[|s| - 1]]
  {
  }

  /** A rendering goes through the pieces in order and leaves none out. */
  lemma {:induction false} RenderSpells(ps: seq<Piece>, unescape: string -> string, values: seq<Option<string>>)
    returns (parts: seq<string>)
    requires |values| == |Positions(ps)| == |Expressions(ps)|
    ensures Spells(parts, ps, unescape, values) && Render(ps, unescape, values) == Concat(parts)
    decreases |ps|
  {
    if |ps| == 0 {
      parts := [];
    } else {
      var init := ps[..|ps| - 1];
      PositionsMark(init);
      match ps[|ps| - 1]
      case Literal(raw) =>
        parts := RenderSpells(init, unescape, values);
        SpellsLiteral(parts, init, raw, unescape, values);
        ConcatOn(parts, unescape(raw));
        parts := parts + [unescape(raw)];
        InitAndLast(ps);
      case Expression(exp) =>
        var before, v := values[..|values| - 1], values[|values| - 1];
        parts := RenderSpells(init, unescape, before);
        SpellsExpression(parts, init, exp, unescape, before, v);
        ConcatOn(parts, Shown(v));
        parts := parts + [Shown(v)];
        InitAndLast(ps);
        InitAndLast(values);
    }
  }

  /** Main result: what a call renders, read off the template, the values and the context. */
  lemma RenderingMeaning(it: Interpolation, values: seq<Option<string>>)
    requires |it.open| + |it.close| > 0 && |values| == |Expressions(it.Template())| == |Positions(it.Template())|
    ensures it.Expected(values) == Missing <==> it.allOrNothing && None in values
    ensures it.Expected(values) == Rejected <==>
            !(it.allOrNothing && None in values) && !it.concatenates && it.trusted && |it.Template()| > 1
    ensures it.Expected(values).Text? ==>
              exists parts ::
                && Spells(parts, it.Template(), it.unescape, values)
                && it.Expected(values).text == if it.concatenates then it.getTrusted(Concat(parts)) else Concat(parts)
  {
    var parts := RenderSpells(it.Template(), it.unescape, values);
  }

  /** Unless it is all or nothing, a call that meets undefined renders what it does for empty strings. */
  lemma UndefinedIsNothing(it: Interpolation, values: seq<Option<string>>, blanks: seq<Option<string>>)
    requires |it.open| + |it.close| > 0 && |values| == |Expressions(it.Template())| && !it.allOrNothing
    requires |blanks| == |values| && forall k | 0 <= k < |values| :: blanks[k] == Some(Shown(values[k]))
    ensures it.Expected(values) == it.Expected(blanks)
  {
    RenderBlanks(it.Template(), it.unescape, values, blanks);
  }

  lemma {:induction false} RenderBlanks(ps: seq<Piece>, unescape: string -> string, values: seq<Option<string>>,
                                        blanks: seq<Option<string>>)
    requires |values| == |blanks| == |Expressions(ps)|
    requires forall k | 0 <= k < |values| :: blanks[k] == Some(Shown(values[k]))
    ensures Render(ps, unescape, values) == Render(ps, unescape, blanks)
    decreases |ps|
  {
    if |ps| > 0 {
      var init := ps[..|ps| - 1];
      if ps[|ps| - 1].Expression? {
        RenderBlanks(init, unescape, values[..|values| - 1], blanks[..|blanks| - 1]);
      } else {
        RenderBlanks(init, unescape, values, blanks);
      }
    }
  }
}
