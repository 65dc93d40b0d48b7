/** `$interpolate`: splitting a template and filling its shared buffer (src/core/interpolate/interpolate.ts). */
module Interpolate {
  import opened Basics

  /** A stretch of literal text, or what stands between a start and an end symbol. */
  datatype Piece = Literal(raw: string) | Expression(exp: string)

  predicate Occurs(text: string, pattern: string, i: int) {
    0 <= i <= |text| - |pattern| && forall k | 0 <= k < |pattern| :: pattern[k] == text[i + k]
  }

  ghost predicate FirstFrom(text: string, pattern: string, from: nat, i: int) {
    from <= i && Occurs(text, pattern, i) && forall j | from <= j < i :: !Occurs(text, pattern, j)
  }

  /** If the pattern occurs at all, it occurs a first time. */
  lemma {:induction false} OccursFirst(text: string, pattern: string, from: nat, i: int)
    requires from <= i && Occurs(text, pattern, i)
    ensures exists k :: FirstFrom(text, pattern, from, k)
    decreases i
  {
    if j :| from <= j < i && Occurs(text, pattern, j) {
      OccursFirst(text, pattern, from, j);
    } else {
      assert FirstFrom(text, pattern, from, i);
    }
  }

  /** `text.indexOf(pattern, from)` */
  function IndexOf(text: string, pattern: string, from: nat): (i: int)
    ensures i == -1 || FirstFrom(text, pattern, from, i)
    ensures i == -1 ==> forall j | from <= j :: !Occurs(text, pattern, j)
  {
    if j :| from <= j <= |text| - |pattern| && Occurs(text, pattern, j) then
      OccursFirst(text, pattern, from, j);
      var i :| from <= i <= |text| - |pattern| && Occurs(text, pattern, i)
               && forall j | from <= j < i :: !Occurs(text, pattern, j);
      i
    else -1
  }

  /** What one turn of the split finds, and where the next one starts. */
  datatype Turn = Rest(raw: string, next: nat) | Placeholder(lead: string, exp: string, next: nat)

  /** The end symbol that closes the start symbol at start, or -1. */
  function EndAfter(text: string, open: string, close: string, start: int): (end: int)
    requires start == -1 || 0 <= start <= |text| - |open|
    ensures end == -1 || (start != -1 && start + |open| <= end <= |text| - |close|
            && FirstFrom(text, close, start + |open|, end))
  {
    if start == -1 then -1 else IndexOf(text, close, start + |open|)
  }

  function TakeTurn(text: string, open: string, close: string, index: nat): (t: Turn)
    requires index < |text| && |open| + |close| > 0
    ensures index < t.next <= |text|
  {
    var start := IndexOf(text, open, index);
    var end := EndAfter(text, open, close, start);
    if end == -1 then Rest(text[index..], |text|)
    else Placeholder(text[index..start], text[start + |open|..end], end + |close|)
  }

  /** The pieces of the text from index on. */
  function Pieces(text: string, open: string, close: string, index: nat): seq<Piece>
    requires index <= |text| && |open| + |close| > 0
    decreases |text| - index
  {
    if index == |text| then [] else
    var t := TakeTurn(text, open, close, index);
    Head(t) + Pieces(text, open, close, t.next)
  }

  /** The literal before a placeholder, unless it is empty, and the placeholder's expression. */
  function Pair(lead: string, exp: string): seq<Piece> {
    (if lead == "" then [] else [Literal(lead)]) + [Expression(exp)]
  }

  function Head(t: Turn): seq<Piece> {
    match t
    case Rest(raw, _) => [Literal(raw)]
    case Placeholder(lead, exp, _) => Pair(lead, exp)
  }

  function Written(p: Piece, open: string, close: string): string {
    match p
    case Literal(raw) => raw
    case Expression(exp) => open + exp + close
  }

  /** The pieces written out again. */
  function Interleave(ps: seq<Piece>, open: string, close: string): string
    decreases |ps|
  {
    if |ps| == 0 then ""
    else Written(ps[0], open, close) + Interleave(ps[1..], open, close)
  }

  lemma {:induction false} InterleaveAppend(a: seq<Piece>, b: seq<Piece>, open: string, close: string)
    ensures Interleave(a + b, open, close) == Interleave(a, open, close) + Interleave(b, open, close)
    decreases |a|
  {
    if |a| == 0 {
      assert a + b == b;
    } else {
      assert (a + b)[1..] == a[1..] + b;
      InterleaveAppend(a[1..], b, open, close);
    }
  }

  lemma InterleaveOne(p: Piece, open: string, close: string)
    ensures Interleave([p], open, close) == Written(p, open, close)
  {
    assert Interleave([p][1..], open, close) == "";
  }

  function TurnText(t: Turn, open: string, close: string): string {
    match t
    case Rest(raw, _) => raw
    case Placeholder(lead, exp, _) => lead + (open + exp + close)
  }

  lemma HeadWritten(t: Turn, open: string, close: string)
    ensures Interleave(Head(t), open, close) == TurnText(t, open, close)
  {
    match t
    case Rest(raw, _) => InterleaveOne(Literal(raw), open, close);
    case Placeholder(lead, exp, _) =>
      InterleaveOne(Expression(exp), open, close);
      if lead != "" {
        InterleaveOne(Literal(lead), open, close);
        InterleaveAppend([Literal(lead)], [Expression(exp)], open, close);
      }
  }

  lemma PlaceholderText(text: string, open: string, close: string, index: nat, start: nat, end: nat)
    requires index <= start && Occurs(text, open, start) && start + |open| <= end && Occurs(text, close, end)
    ensures text[index..start] + (open + text[start + |open|..end] + close) == text[index..end + |close|]
  {
    assert text[start..start + |open|] == open && text[end..end + |close|] == close;
    assert text[start..end + |close|] == open + text[start + |open|..end] + close;
    assert text[index..end + |close|] == text[index..start] + text[start..end + |close|];
  }

  lemma Cut(text: string, index: nat, next: nat)
    requires index <= next <= |text|
    ensures text[index..] == text[index..next] + text[next..]
  {
  }

  lemma PlaceholderIsText(text: string, open: string, close: string, index: nat, start: nat, end: nat, t: Turn)
    requires index <= start && Occurs(text, open, start) && start + |open| <= end && Occurs(text, close, end)
    requires t == Placeholder(text[index..start], text[start + |open|..end], end + |close|)
    ensures TurnText(t, open, close) == text[index..t.next]
  {
    PlaceholderText(text, open, close, index, start, end);
  }

  lemma TurnIsText(text: string, open: string, close: string, index: nat)
    requires index < |text| && |open| + |close| > 0
    ensures var t := TakeTurn(text, open, close, index); TurnText(t, open, close) == text[index..t.next]
  {
    var start := IndexOf(text, open, index);
    var end := EndAfter(text, open, close, start);
    if end != -1 { PlaceholderIsText(text, open, close, index, start, end, TakeTurn(text, open, close, index)); }
  }

  /** Main result: the split loses nothing. */
  lemma {:induction false} SplitLosesNothing(text: string, open: string, close: string, index: nat)
    requires index <= |text| && |open| + |close| > 0
    ensures Interleave(Pieces(text, open, close, index), open, close) == text[index..]
    decreases |text| - index
  {
    if index < |text| {
      var t := TakeTurn(text, open, close, index);
      SplitLosesNothing(text, open, close, t.next);
      InterleaveAppend(Head(t), Pieces(text, open, close, t.next), open, close);
      HeadWritten(t, open, close);
      TurnIsText(text, open, close, index);
      Cut(text, index, t.next);
    }
  }

  ghost predicate Contains(s: string, pattern: string) { exists i :: Occurs(s, pattern, i) }

  /** A stretch that ends at the first occurrence of a pattern does not contain it. */
  lemma NoneInside(text: string, pattern: string, from: nat, to: nat)
    requires from <= to <= |text| && |pattern| > 0
    requires forall j | from <= j < to :: !Occurs(text, pattern, j)
    ensures !Contains(text[from..to], pattern)
  {
    forall i ensures !Occurs(text[from..to], pattern, i) {
      if 0 <= i <= (to - from) - |pattern| {
        assert !Occurs(text, pattern, from + i);
      }
    }
  }

  ghost predicate Tight(p: Piece, open: string, close: string) {
    match p
    case Literal(raw) => raw != ""
    case Expression(exp) => !Contains(exp, close)
  }

  /** Expressions stop at the first end symbol, and two literals never stand side by side. */
  ghost predicate WellSplit(ps: seq<Piece>, open: string, close: string) {
    && (forall i | 0 <= i < |ps| :: Tight(ps[i], open, close))
    && (forall i | 0 <= i < |ps| - 1 && ps[i].Literal? :: !Contains(ps[i].raw, open) && ps[i + 1].Expression?)
  }

  lemma TurnTight(text: string, open: string, close: string, index: nat)
    requires index < |text| && |open| > 0 && |close| > 0
    ensures var t := TakeTurn(text, open, close, index);
            WellSplit(Head(t), open, close) && (t.Rest? ==> t.next == |text|)
  {
    var start := IndexOf(text, open, index);
    var end := EndAfter(text, open, close, start);
    if end != -1 {
      NoneInside(text, close, start + |open|, end);
      NoneInside(text, open, index, start);
    }
  }

  lemma WellSplitJoin(a: seq<Piece>, b: seq<Piece>, open: string, close: string)
    requires WellSplit(a, open, close) && WellSplit(b, open, close)
    requires |a| > 0 && |b| > 0 ==> a[|a| - 1].Expression?
    ensures WellSplit(a + b, open, close)
  {
    forall i | 0 <= i < |a + b| - 1 && (a + b)[i].Literal?
      ensures !Contains((a + b)[i].raw, open) && (a + b)[i + 1].Expression?
    {
      if i >= |a| { assert (a + b)[i] == b[i - |a|] && (a + b)[i + 1] == b[i - |a| + 1]; }
    }
  }

  /** Main result: no expression contains the end symbol and no literal before one the start symbol. */
  lemma {:induction false} PiecesAreTight(text: string, open: string, close: string, index: nat)
    requires index <= |text| && |open| > 0 && |close| > 0
    ensures WellSplit(Pieces(text, open, close, index), open, close)
    decreases |text| - index
  {
    if index < |text| {
      var t := TakeTurn(text, open, close, index);
      TurnTight(text, open, close, index);
      PiecesAreTight(text, open, close, t.next);
      WellSplitJoin(Head(t), Pieces(text, open, close, t.next), open, close);
    }
  }

  // ---- the arrays the loop fills

  function Expressions(ps: seq<Piece>): seq<string>
    decreases |ps|
  {
    if |ps| == 0 then []
    else Expressions(ps[..|ps| - 1]) + (if ps[|ps| - 1].Expression? then [ps[|ps| - 1].exp] else [])
  }

  /** Where the expressions stand among the pieces. */
  function Positions(ps: seq<Piece>): seq<nat>
    decreases |ps|
  {
    if |ps| == 0 then []
    else Positions(ps[..|ps| - 1]) + (if ps[|ps| - 1].Expression? then [|ps| - 1] else [])
  }

  /** The buffer before anything is evaluated: unescaped literals, and empty strings at the placeholders. */
  function Blank(ps: seq<Piece>, unescape: string -> string): (r: seq<Option<string>>)
    ensures |r| == |ps|
    ensures forall i | 0 <= i < |ps| :: r[i] == Some(if ps[i].Literal? then unescape(ps[i].raw) else "")
  {
    seq(|ps|, i requires 0 <= i < |ps| => Some(if ps[i].Literal? then unescape(ps[i].raw) else ""))
  }

  lemma SnocPiece(ps: seq<Piece>, p: Piece)
    ensures Expressions(ps + [p]) == Expressions(ps) + (if p.Expression? then [p.exp] else [])
    ensures Positions(ps + [p]) == Positions(ps) + (if p.Expression? then [|ps|] else [])
  {
    assert (ps + [p])[..|ps|] == ps;
  }

  lemma SnocBlank(ps: seq<Piece>, p: Piece, unescape: string -> string)
    ensures Blank(ps + [p], unescape) == Blank(ps, unescape) + [Some(if p.Literal? then unescape(p.raw) else "")]
  {
  }

  /** Positions are as many as the expressions, strictly increasing, and name exactly the placeholders. */
  lemma {:induction false} PositionsMark(ps: seq<Piece>)
    ensures |Positions(ps)| == |Expressions(ps)|
    ensures forall i | 0 <= i < |Positions(ps)| ::
            Positions(ps)[i] < |ps| && ps[Positions(ps)[i]] == Expression(Expressions(ps)[i])
    ensures forall i, j | 0 <= i < j < |Positions(ps)| :: Positions(ps)[i] < Positions(ps)[j]
    decreases |ps|
  {
    if |ps| > 0 { PositionsMark(ps[..|ps| - 1]); }
  }

  lemma {:induction false} PositionsCover(ps: seq<Piece>)
    ensures forall k | 0 <= k < |ps| && ps[k].Expression? :: k in Positions(ps)
    decreases |ps|
  {
    if |ps| > 0 {
      var init := ps[..|ps| - 1];
      PositionsCover(init);
      forall k | 0 <= k < |ps| && ps[k].Expression? ensures k in Positions(ps) {
        if k < |init| { assert init[k] == ps[k]; }
      }
    }
  }

  /** The three arrays describe the pieces found so far. */
  ghost predicate Describes(ps: seq<Piece>, unescape: string -> string,
                            concat: seq<Option<string>>, expressions: seq<string>, positions: seq<nat>) {
    concat == Blank(ps, unescape) && expressions == Expressions(ps) && positions == Positions(ps)
  }

  lemma PushLiteral(ps: seq<Piece>, unescape: string -> string,
                    concat: seq<Option<string>>, expressions: seq<string>, positions: seq<nat>, raw: string)
    requires Describes(ps, unescape, concat, expressions, positions)
    ensures Describes(ps + [Literal(raw)], unescape, concat + [Some(unescape(raw))], expressions, positions)
  {
    SnocPiece(ps, Literal(raw));
    SnocBlank(ps, Literal(raw), unescape);
  }

  lemma PushExpression(ps: seq<Piece>, unescape: string -> string,
                       concat: seq<Option<string>>, expressions: seq<string>, positions: seq<nat>, exp: string)
    requires Describes(ps, unescape, concat, expressions, positions)
    ensures Describes(ps + [Expression(exp)], unescape, concat + [Some("")], expressions + [exp],
            positions + [|concat|])
  {
    SnocPiece(ps, Expression(exp));
    SnocBlank(ps, Expression(exp), unescape);
  }

  /** One placeholder: the literal before it, unless that is empty, then its expression. */
  method Push(lead: string, exp: string, unescape: string -> string,
              before: seq<Option<string>>, exps: seq<string>, positions: seq<nat>, ghost done: seq<Piece>)
    returns (concat: seq<Option<string>>, expressions: seq<string>, expressionPositions: seq<nat>)
    requires Describes(done, unescape, before, exps, positions)
    ensures Describes(done + Pair(lead, exp), unescape, concat, expressions, expressionPositions)
  {
    concat := before;
    ghost var now := done;
    if lead != "" {
      PushLiteral(done, unescape, before, exps, positions, lead);
      concat := concat + [Some(unescape(lead))];
      now := done + [Literal(lead)];
    }
    PushExpression(now, unescape, concat, exps, positions, exp);
    expressions := exps + [exp];
    expressionPositions := positions + [|concat|];
    concat := concat + [Some("")];
    assert done + Pair(lead, exp) == now + [Expression(exp)];
  }

  /** The body of the splitting loop. */
  method SplitOnce(text: string, open: string, close: string, unescape: string -> string, index: nat,
                   before: seq<Option<string>>, exps: seq<string>, positions: seq<nat>, ghost done: seq<Piece>)
    returns (concat: seq<Option<string>>, expressions: seq<string>, expressionPositions: seq<nat>, next: nat)
    requires index < |text| && |open| + |close| > 0 && Describes(done, unescape, before, exps, positions)
    ensures next == TakeTurn(text, open, close, index).next
    ensures Describes(done + Head(TakeTurn(text, open, close, index)), unescape, concat, expressions,
            expressionPositions)
  {
    var startIndex := IndexOf(text, open, index);
    var endIndex := EndAfter(text, open, close, startIndex);
    if startIndex != -1 && endIndex != -1 {
      concat, expressions, expressionPositions :=
        Push(text[index..startIndex], text[startIndex + |open|..endIndex], unescape, before, exps, positions, done);
      next := endIndex + |close|;
    } else {
      PushLiteral(done, unescape, before, exps, positions, text[index..]);
      concat, expressions, expressionPositions := before + [Some(unescape(text[index..]))], exps, positions;
      next := |text|;
    }
  }

  /** The splitting loop of `$interpolate`. */
  method Split(text: string, open: string, close: string, unescape: string -> string)
    returns (concat: seq<Option<string>>, expressions: seq<string>, expressionPositions: seq<nat>)
    requires |open| + |close| > 0
    ensures Describes(Pieces(text, open, close, 0), unescape, concat, expressions, expressionPositions)
  {
    var index := 0;
    concat, expressions, expressionPositions := [], [], [];
    ghost var done: seq<Piece> := [];
    while index < |text|
      invariant 0 <= index <= |text|
      invariant done + Pieces(text, open, close, index) == Pieces(text, open, close, 0)
      invariant Describes(done, unescape, concat, expressions, expressionPositions)
      decreases |text| - index
    {
      ghost var t := TakeTurn(text, open, close, index);
      StillToCome(done, Head(t), Pieces(text, open, close, t.next));
      concat, expressions, expressionPositions, index :=
        SplitOnce(text, open, close, unescape, index, concat, expressions, expressionPositions, done);
      done := done + Head(t);
    }
    assert done + Pieces(text, open, close, index) == done;
  }

  /** After one turn of the loop the pieces done and to come are still all the pieces. */
  lemma StillToCome(before: seq<Piece>, head: seq<Piece>, rest: seq<Piece>)
    ensures before + (head + rest) == (before + head) + rest
  {
  }

  // ---- rendering

  /** `concat.join("")`, in which undefined counts as nothing. */
  function Join(parts: seq<Option<string>>): string
    decreases |parts|
  {
    if |parts| == 0 then "" else (if parts[0].Some? then parts[0].value else "") + Join(parts[1..])
  }

  /** What a template says for given values, with no buffer involved. */
  function Render(ps: seq<Piece>, unescape: string -> string, values: seq<Option<string>>): string
    requires |values| == |Expressions(ps)|
    decreases |ps|
  {
    if |ps| == 0 then ""
    else
      var init := ps[..|ps| - 1];
      match ps[|ps| - 1]
      case Literal(raw) => Render(init, unescape, values) + unescape(raw)
      case Expression(_) =>
        Render(init, unescape, values[..|values| - 1])
        + (if values[|values| - 1].Some? then values[|values| - 1].value else "")
  }

  lemma {:induction false} JoinAppend(a: seq<Option<string>>, b: seq<Option<string>>)
    ensures Join(a + b) == Join(a) + Join(b)
    decreases |a|
  {
    if |a| == 0 {
      assert a + b == b;
    } else {
      assert (a + b)[1..] == a[1..] + b;
      JoinAppend(a[1..], b);
    }
  }

  lemma JoinLast(buffer: seq<Option<string>>)
    requires |buffer| > 0
    ensures var init, last := buffer[..|buffer| - 1], buffer[|buffer| - 1];
            Join(buffer) == Join(init) + (if last.Some? then last.value else "")
  {
    var init, last := buffer[..|buffer| - 1], buffer[|buffer| - 1];
    assert buffer == init + [last];
    JoinAppend(init, [last]);
    assert [last][1..] == [];
  }

  /** The buffer holds the literals, and the values at the placeholders. */
  predicate Filled(ps: seq<Piece>, unescape: string -> string, values: seq<Option<string>>, buffer: seq<Option<string>>)
    requires |values| == |Positions(ps)|
  {
    && |buffer| == |ps|
    && (forall i | 0 <= i < |ps| && ps[i].Literal? :: buffer[i] == Some(unescape(ps[i].raw)))
    && (forall k | 0 <= k < |values| && Positions(ps)[k] < |buffer| :: buffer[Positions(ps)[k]] == values[k])
  }

  lemma {:induction false} FilledRenders(ps: seq<Piece>, unescape: string -> string, values: seq<Option<string>>,
      buffer: seq<Option<string>>)
    requires |values| == |Positions(ps)| == |Expressions(ps)| && Filled(ps, unescape, values, buffer)
    ensures Join(buffer) == Render(ps, unescape, values)
    decreases |ps|
  {
    if |ps| > 0 {
      var init, last := ps[..|ps| - 1], buffer[|ps| - 1];
      PositionsMark(ps);
      PositionsMark(init);
      JoinLast(buffer);
      var vs := if ps[|ps| - 1].Expression? then values[..|values| - 1] else values;
      assert forall k | 0 <= k < |vs| :: Positions(init)[k] == Positions(ps)[k];
      FilledRenders(init, unescape, vs, buffer[..|ps| - 1]);
    }
  }

  datatype Rendering = Text(text: string) | Missing | Rejected

  /** An interpolation function: the template, and the buffer its calls share and overwrite. */
  class Interpolation {
    const text: string
    const open: string
    const close: string
    const unescape: string -> string
    const allOrNothing: bool
    const concatenates: bool
    const trusted: bool
    const getTrusted: string -> string
    var expressions: seq<string>
    var expressionPositions: seq<nat>
    var concat: seq<Option<string>>

    ghost function Template(): seq<Piece>
      requires |open| + |close| > 0
    {
      Pieces(text, open, close, 0)
    }

    ghost predicate Valid()
      reads this
    {
      && |open| + |close| > 0
      && expressions == Expressions(Template()) && expressionPositions == Positions(Template())
      && |concat| == |Template()|
      && forall i | 0 <= i < |concat| && Template()[i].Literal? :: concat[i] == Some(unescape(Template()[i].raw))
    }

    constructor (text: string, open: string, close: string, unescape: string -> string,
                 allOrNothing: bool, concatenates: bool, trusted: bool, getTrusted: string -> string)
      requires |open| + |close| > 0
      ensures Valid() && this.text == text && this.open == open && this.close == close && this.unescape == unescape
      ensures this.allOrNothing == allOrNothing && this.concatenates == concatenates
      ensures this.trusted == trusted && this.getTrusted == getTrusted
    {
      this.text, this.open, this.close, this.unescape := text, open, close, unescape;
      this.allOrNothing, this.concatenates, this.trusted, this.getTrusted := allOrNothing, concatenates, trusted,
          getTrusted;
      expressions, expressionPositions, concat := [], [], [];
      new;
      concat, expressions, expressionPositions := Split(text, open, close, unescape);
    }

    /** What a call must produce for the given values, whatever was rendered before. */
    ghost function Expected(values: seq<Option<string>>): Rendering
      requires |open| + |close| > 0 && |values| == |Expressions(Template())|
    {
      var s := Render(Template(), unescape, values);
      if allOrNothing && None in values then Missing
      else if concatenates then Text(getTrusted(s))
      else if trusted && |Template()| > 1 then Rejected
      else Text(s)
    }

    /** `compute` */
    method Compute(values: seq<Option<string>>) returns (r: Rendering)
      requires Valid() && |values| == |expressions|
      modifies this`concat
      ensures Valid() && r == Expected(values)
    {
      PositionsMark(Template());
      var i := 0;
      while i < |expressions|
        invariant 0 <= i <= |expressions|
        invariant Valid()
        invariant forall k | 0 <= k < i :: concat[expressionPositions[k]] == values[k]
        invariant allOrNothing ==> forall k | 0 <= k < i :: values[k].Some?
      {
        if allOrNothing && values[i].None? { return Missing; }
        concat := concat[expressionPositions[i] := values[i]];
        i := i + 1;
      }
      FilledRenders(Template(), unescape, values, concat);
      if concatenates { return Text(getTrusted(Join(concat))); }
      if trusted && |concat| > 1 { return Rejected; }
      return Text(Join(concat));
    }
  }
}
