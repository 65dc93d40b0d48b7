/** What a plus sign in a query string stands for (src/shared/utils.ts:924): a space, wherever it is. */
module PlusSigns {
  import opened Basics
  import opened PercentEncoding
  import opened QueryStrings

  /** The same text with a space for each plus sign. */
  function Spaced(s: string): (r: string)
    ensures |r| == |s|
    ensures forall i | 0 <= i < |s| :: r[i] == if s[i] == '+' then ' ' else s[i]
  {
    seq(|s|, i requires 0 <= i < |s| => if s[i] == '+' then ' ' else s[i])
  }

  lemma SpacedRest(s: string, n: nat)
    requires n <= |s|
    ensures Spaced(s)[n..] == Spaced(s[n..]) && Spaced(s)[..n] == Spaced(s[..n])
  {
  }

  lemma PlusStep(s: string)
    requires |s| > 0
    ensures PlusToSpace(s) == (if s[0] == '+' then "%20" else [s[0]]) + PlusToSpace(s[1..])
  {
  }

  /** Characters before the first plus sign are left alone. */
  lemma {:induction false} PlusRest(s: string, n: nat)
    requires n <= |s| && '+' !in s[..n]
    ensures PlusToSpace(s) == s[..n] + PlusToSpace(s[n..])
    decreases n
  {
    if n > 0 {
      assert s[0] in s[..n] && s[..n][1..] == s[1..][..n - 1] && s[1..][n - 1..] == s[n..];
      PlusRest(s[1..], n - 1);
      assert s[..n] == [s[0]] + s[1..][..n - 1];
    }
  }

  /** The first plus sign becomes a percent sign, which is no digit of a triple. */
  lemma FirstPlus(s: string, n: nat)
    requires n < |s| && '+' !in s[..n] && s[n] == '+'
    ensures |PlusToSpace(s)| > n && PlusToSpace(s)[..n] == s[..n] && PlusToSpace(s)[n] == '%'
  {
    PlusRest(s, n);
    PlusStep(s[n..]);
  }

  predicate Together(s: string) { |s| >= 3 && '+' !in s[..3] }

  lemma SameStart(a: string, b: string)
    requires |a| >= 3 && |b| >= 3 && a[..3] == b[..3]
    ensures LeadingByte(a) == LeadingByte(b) && Continuation(a) == Continuation(b)
  {
    assert a[0] == a[..3][0] && a[1] == a[..3][1] && a[2] == a[..3][2];
    assert b[0] == b[..3][0] && b[1] == b[..3][1] && b[2] == b[..3][2];
  }

  /** Three characters without a plus sign are the same in both texts, and what follows them is the rest of each. */
  lemma TogetherAlike(s: string)
    requires Together(s)
    ensures LeadingByte(PlusToSpace(s)) == LeadingByte(Spaced(s))
    ensures |PlusToSpace(s)| >= 3
    ensures PlusToSpace(s)[3..] == PlusToSpace(s[3..]) && Spaced(s)[3..] == Spaced(s[3..])
  {
    PlusRest(s, 3);
    SpacedRest(s, 3);
    assert Spaced(s[..3]) == s[..3] by { assert forall i | 0 <= i < 3 :: s[..3][i] in s[..3]; }
    SameStart(PlusToSpace(s), Spaced(s));
  }

  /** One of the three characters is not as in a triple. */
  lemma NoTriple(t: string, n: nat)
    requires n < |t| && n < 3 && (if n == 0 then t[n] != '%' else HexValue(t[n]).None?)
    ensures LeadingByte(t).None?
  {
  }

  lemma ApartByPlus(s: string, n: nat)
    requires n < |s| && n < 3 && s[n] == '+' && '+' !in s[..n]
    ensures LeadingByte(Spaced(s)).None? && (n > 0 ==> LeadingByte(PlusToSpace(s)).None?)
  {
    var p, q := PlusToSpace(s), Spaced(s);
    assert q[n] == ' ';
    NoTriple(q, n);
    if n > 0 {
      FirstPlus(s, n);
      NoTriple(p, n);
    }
  }

  lemma ApartByLength(s: string)
    requires !Together(s) && '+' !in s
    ensures LeadingByte(Spaced(s)).None? && LeadingByte(PlusToSpace(s)).None?
  {
    NoPlus(s);
    PrefixFree(s, 3);
  }

  lemma PrefixFree(s: string, n: nat)
    requires '+' !in s
    ensures n <= |s| ==> '+' !in s[..n]
  {
  }

  /** Otherwise neither text starts with a triple, except that a plus sign itself becomes one. */
  lemma ApartAlike(s: string)
    requires !Together(s)
    ensures LeadingByte(Spaced(s)).None?
    ensures |s| == 0 || s[0] != '+' ==> LeadingByte(PlusToSpace(s)).None?
  {
    if '+' !in s {
      ApartByLength(s);
    } else {
      var n := FirstAt(s);
      ApartByPlus(s, n);
    }
  }

  lemma FirstAt(s: string) returns (n: nat)
    requires '+' in s && !Together(s)
    ensures n < |s| && n < 3 && s[n] == '+' && '+' !in s[..n]
  {
    if s[0] == '+' {
      n := 0;
    } else if s[1] == '+' {
      n := 1;
    } else {
      n := 2;
    }
  }

  lemma ContinuationAlike(s: string)
    ensures Continuation(PlusToSpace(s)) == Continuation(Spaced(s))
    ensures Continuation(Spaced(s)).Some? ==> Together(s)
  {
    if Together(s) {
      TogetherAlike(s);
    } else {
      ApartAlike(s);
      if |s| > 0 && s[0] == '+' {
        PlusStep(s);
        SpaceTriple(PlusToSpace(s[1..]));
      }
    }
  }

  lemma SpaceTriple(rest: string)
    ensures LeadingByte("%20" + rest) == Some(32) && ("%20" + rest)[3..] == rest
    ensures DecodeFirst("%20" + rest) == Some((' ', 3))
  {
    var t := "%20" + rest;
    assert t[0] == '%' && t[1] == '2' && t[2] == '0';
    assert HexValue('2') == Some(2) && HexValue('0') == Some(0);
  }

  // ---- decoding

  /** The rest of each text is made from the rest of the source text. */
  predicate Aligned(s: string, n: nat) {
    && n <= |s| && n <= |PlusToSpace(s)|
    && PlusToSpace(s)[n..] == PlusToSpace(s[n..]) && Spaced(s)[n..] == Spaced(s[n..])
  }

  lemma Onward(s: string, n: nat)
    requires Aligned(s, n) && Together(s[n..])
    ensures Aligned(s, n + 3)
  {
    var p, q := PlusToSpace(s), Spaced(s);
    TogetherAlike(s[n..]);
    assert p[n..][3..] == p[n + 3..] && q[n..][3..] == q[n + 3..] && s[n..][3..] == s[n + 3..];
  }

  /** The continuation byte behind the first `n` characters. */
  function ByteAt(t: string, n: nat): Option<nat> {
    if n <= |t| then Continuation(t[n..]) else None
  }

  /** The first character depends on the leading byte and as many continuation bytes as there are in a row. */
  lemma SameFirst(a: string, b: string)
    requires |a| > 0 && |b| > 0 && a[0] == '%' && b[0] == '%' && LeadingByte(a) == LeadingByte(b)
    requires ByteAt(a, 3) == ByteAt(b, 3)
    requires ByteAt(a, 3).Some? ==> ByteAt(a, 6) == ByteAt(b, 6)
    requires ByteAt(a, 3).Some? && ByteAt(a, 6).Some? ==> ByteAt(a, 9) == ByteAt(b, 9)
    ensures DecodeFirst(a) == DecodeFirst(b)
  {
  }

  lemma ByteAlike(s: string, n: nat)
    requires Aligned(s, n)
    ensures ByteAt(PlusToSpace(s), n) == ByteAt(Spaced(s), n)
    ensures ByteAt(Spaced(s), n).Some? ==> Aligned(s, n + 3)
  {
    ContinuationAlike(s[n..]);
    if Together(s[n..]) { Onward(s, n); }
  }

  /** The texts go on alike behind as many continuation bytes as there are in a row. */
  ghost predicate AlignedBehind(s: string) {
    && Aligned(s, 3)
    && (ByteAt(Spaced(s), 3).Some? ==>
        && Aligned(s, 6)
        && (ByteAt(Spaced(s), 6).Some? ==> Aligned(s, 9) && (ByteAt(Spaced(s), 9).Some? ==> Aligned(s, 12))))
  }

  lemma BytesAlike(s: string)
    requires Together(s) && s[0] == '%'
    ensures AlignedBehind(s) && DecodeFirst(PlusToSpace(s)) == DecodeFirst(Spaced(s))
  {
    TogetherAlike(s);
    PlusStep(s);
    ByteAlike(s, 3);
    if ByteAt(Spaced(s), 3).Some? {
      ByteAlike(s, 6);
      if ByteAt(Spaced(s), 6).Some? { ByteAlike(s, 9); }
    }
    SameFirst(PlusToSpace(s), Spaced(s));
  }

  lemma Reaches(s: string, t: string)
    requires |t| > 0 && t[0] == '%' && t == Spaced(s) && AlignedBehind(s) && DecodeFirst(t).Some?
    ensures Aligned(s, DecodeFirst(t).value.1)
  {
  }

  lemma TriplesAlike(s: string)
    requires Together(s) && s[0] == '%'
    ensures DecodeFirst(PlusToSpace(s)) == DecodeFirst(Spaced(s))
    ensures DecodeFirst(Spaced(s)).Some? ==> Aligned(s, DecodeFirst(Spaced(s)).value.1)
  {
    BytesAlike(s);
    if DecodeFirst(Spaced(s)).Some? { Reaches(s, Spaced(s)); }
  }

  /** How far one character reaches in each text, and where the source text goes on behind it. */
  lemma FirstAlike(s: string)
    requires |s| > 0
    ensures DecodeFirst(PlusToSpace(s)).None? <==> DecodeFirst(Spaced(s)).None?
    ensures var p, q := DecodeFirst(PlusToSpace(s)), DecodeFirst(Spaced(s));
            p.Some? ==>
              && p.value.0 == q.value.0 && q.value.1 <= |s|
              && PlusToSpace(s)[p.value.1..] == PlusToSpace(s[q.value.1..])
              && Spaced(s)[q.value.1..] == Spaced(s[q.value.1..])
  {
    PlusStep(s);
    if s[0] == '+' {
      SpaceTriple(PlusToSpace(s[1..]));
      SpacedRest(s, 1);
    } else if s[0] != '%' {
      SpacedRest(s, 1);
    } else if Together(s) {
      TriplesAlike(s);
    } else {
      ApartAlike(s);
    }
  }

  lemma {:induction false} DecodeAlike(s: string)
    ensures Decode(PlusToSpace(s)) == Decode(Spaced(s))
    decreases |s|
  {
    if |s| > 0 {
      FirstAlike(s);
      PlusStep(s);
      var q := DecodeFirst(Spaced(s));
      if q.Some? { DecodeAlike(s[q.value.1..]); }
    }
  }

  // ---- splitting

  lemma {:induction false} PlusAppend(a: string, b: string)
    ensures PlusToSpace(a + b) == PlusToSpace(a) + PlusToSpace(b)
    decreases |a|
  {
    if |a| == 0 {
      assert a + b == b;
    } else {
      assert (a + b)[1..] == a[1..] + b;
      PlusAppend(a[1..], b);
    }
  }

  lemma {:induction false} PlusKeepsOut(s: string)
    requires '=' !in s
    ensures '=' !in PlusToSpace(s) && '=' !in Spaced(s)
    decreases |s|
  {
    if |s| > 0 {
      assert s[0] in s && '=' !in s[1..];
      PlusKeepsOut(s[1..]);
    }
  }

  lemma NoSeparator(s: string)
    requires '=' !in s
    ensures IndexOf(s, '=') == -1
  {
  }

  lemma WholeAlike(piece: string)
    requires '=' !in piece
    ensures ParsePiece(piece) == ParsePiece(Spaced(piece))
  {
    var spaced := Spaced(piece);
    NoPlus(spaced);
    PlusKeepsOut(piece);
    NoSeparator(PlusToSpace(piece));
    NoSeparator(spaced);
    DecodeAlike(piece);
    assert piece == "" <==> spaced == "";
  }

  /** What two sides of a separator stand for. */
  function PairOf(k: string, v: string): Option<(string, Scalar)> {
    var key, val := Decode(k), Decode(v);
    if key.None? then None else Some((key.value, if val.None? then Undefined else Text(val.value)))
  }

  lemma ParseSplit(piece: string, k: string, v: string)
    requires piece != "" && PlusToSpace(piece) == k + "=" + v && '=' !in k
    ensures ParsePiece(piece) == PairOf(k, v)
  {
    IndexOfSeparator(k, v);
  }

  lemma PlusSplit(k: string, v: string)
    ensures PlusToSpace(k + "=" + v) == PlusToSpace(k) + "=" + PlusToSpace(v)
  {
    PlusAppend(k + "=", v);
    PlusAppend(k, "=");
    assert PlusToSpace("=") == "=";
  }

  lemma SpacedSplit(k: string, v: string)
    ensures Spaced(k + "=" + v) == Spaced(k) + "=" + Spaced(v)
  {
  }

  lemma SplitAlike(k: string, v: string)
    requires '=' !in k
    ensures ParsePiece(k + "=" + v) == PairOf(Spaced(k), Spaced(v)) == ParsePiece(Spaced(k + "=" + v))
  {
    PlusKeepsOut(k);
    PlusSplit(k, v);
    ParseSplit(k + "=" + v, PlusToSpace(k), PlusToSpace(v));
    DecodeAlike(k);
    DecodeAlike(v);
    SpacedSplit(k, v);
    NoPlus(Spaced(k + "=" + v));
    ParseSplit(Spaced(k + "=" + v), Spaced(k), Spaced(v));
  }

  lemma AtSeparator(s: string, at: nat)
    requires at < |s| && s[at] == '='
    ensures s == s[..at] + "=" + s[at + 1..]
  {
  }

  /** Main result: a piece of a query string stands for what it does with a space for each plus sign. */
  lemma PlusIsSpace(piece: string)
    ensures ParsePiece(piece) == ParsePiece(Spaced(piece))
  {
    var at := IndexOf(piece, '=');
    if at < 0 {
      WholeAlike(piece);
    } else {
      SplitAlike(piece[..at], piece[at + 1..]);
      AtSeparator(piece, at);
    }
  }

  lemma {:induction false} PlainDecodes(s: string)
    requires '%' !in s
    ensures Decode(s) == Some(s)
    decreases |s|
  {
    if |s| > 0 {
      assert s[0] in s && '%' !in s[1..];
      PlainDecodes(s[1..]);
      assert s == [s[0]] + s[1..];
    }
  }

  /** Without percent signs a pair is read as it stands, but for its plus signs: `q=a+b` is `{ q: "a b" }`. */
  lemma PlainPair(k: string, v: string)
    requires '=' !in k && '%' !in k && '%' !in v
    ensures ParsePiece(k + "=" + v) == Some((Spaced(k), Text(Spaced(v))))
  {
    SplitAlike(k, v);
    NoPercent(k);
    NoPercent(v);
    PlainDecodes(Spaced(k));
    PlainDecodes(Spaced(v));
  }

  lemma NoPercent(s: string)
    requires '%' !in s
    ensures '%' !in Spaced(s)
  {
    var t := Spaced(s);
    forall i | 0 <= i < |t| ensures t[i] != '%' { assert s[i] in s; }
  }
}
