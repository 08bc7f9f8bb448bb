/**
 What Rewrite of db/query.go does to quoted literals for MySQL.  The upsert
 translator looks for ON CONFLICT without looking at quotes, so a literal that
 holds the keyword is rewritten whenever the translator's guard is met.
 */
module SqlLiterals {
  import opened SqlScan
  import opened SqlRewrite
  import opened SqlMeaning
  import opened SqlUpsert
  import opened SqlQuery

  // ------------------------------------------------ scans that stop at a quote

  /** Two queries agree up to and including a quote at o. */
  ghost predicate Agree(q: string, r: string, o: nat)
  {
    o < |q| && o < |r| && q[o] == '\'' && forall k :: 0 <= k <= o ==> q[k] == r[k]
  }

  lemma {:induction false} DigitsSame(q: string, r: string, j: nat, o: nat)
    requires Agree(q, r, o) && j <= o
    ensures DigitsEnd(q, j) == DigitsEnd(r, j) <= o
    decreases o - j
  {
    if j < o {
      DigitsSame(q, r, j + 1, o);
    }
  }

  lemma {:induction false} IdentSame(q: string, r: string, j: nat, o: nat)
    requires Agree(q, r, o) && j <= o
    ensures IdentEnd(q, j) == IdentEnd(r, j) <= o
    decreases o - j
  {
    if j < o {
      IdentSame(q, r, j + 1, o);
    }
  }

  lemma {:induction false} SpaceSame(q: string, r: string, j: nat, o: nat)
    requires Agree(q, r, o) && j <= o
    ensures SpaceEnd(q, j) == SpaceEnd(r, j) <= o
    decreases o - j
  {
    if j < o {
      SpaceSame(q, r, j + 1, o);
    }
  }

  lemma {:induction false} QuoteSame(q: string, r: string, j: nat, o: nat)
    requires Agree(q, r, o) && j <= o
    ensures QuoteEnd(q, j) == QuoteEnd(r, j) <= o
    decreases o - j
  {
    if j < o {
      QuoteSame(q, r, j + 1, o);
    }
  }

  lemma {:induction false} PlaceholderSame(q: string, r: string, i: nat, o: nat, nargs: nat)
    requires Agree(q, r, o) && i < o
    ensures TakePlaceholder(q, i, nargs) == TakePlaceholder(r, i, nargs)
    ensures TakePlaceholder(q, i, nargs).Here? ==> TakePlaceholder(q, i, nargs).end < o
  {
    DigitsSame(q, r, i + 1, o);
    assert q[i + 1..DigitsEnd(q, i + 1)] == r[i + 1..DigitsEnd(q, i + 1)];
  }

  lemma {:induction false} CallSame(q: string, r: string, from: nat, o: nat)
    requires Agree(q, r, o) && from <= o
    ensures MatchCall(q, from) == MatchCall(r, from) && (MatchCall(q, from).Here? ==> MatchCall(q, from).end < o)
  {
    SpaceSame(q, r, from, o);
    var i := SpaceEnd(q, from);
    if q[i] == '(' {
      SpaceSame(q, r, i + 1, o);
    }
  }

  lemma {:induction false} KeywordNoQuote(q: string, k: nat, m: nat)
    requires At(Lower(q), k, INTERVAL) && m < |INTERVAL|
    ensures q[k + m] != '\''
  {
    AtChar(Lower(q), k, INTERVAL, m);
    assert 'a' <= INTERVAL[m] <= 'z';
  }

  /** The word interval stands before the quote or not at all. */
  lemma {:induction false} IntervalBefore(q: string, r: string, k: nat, o: nat)
    requires Agree(q, r, o) && k <= o && At(Lower(q), k, INTERVAL)
    ensures k + |INTERVAL| <= o && At(Lower(r), k, INTERVAL)
  {
    if o < k + |INTERVAL| {
      KeywordNoQuote(q, k, o - k);
    }
    forall m | 0 <= m < |INTERVAL| ensures Lower(r)[k + m] == INTERVAL[m] {
      AtChar(Lower(q), k, INTERVAL, m);
    }
  }

  lemma {:induction false} AgreeBack(q: string, r: string, o: nat)
    requires Agree(q, r, o)
    ensures Agree(r, q, o)
  {
  }

  lemma {:induction false} KeywordSame(q: string, r: string, k: nat, o: nat)
    requires Agree(q, r, o) && k <= o
    ensures At(Lower(q), k, INTERVAL) <==> At(Lower(r), k, INTERVAL)
    ensures At(Lower(q), k, INTERVAL) ==> k + |INTERVAL| <= o
  {
    if At(Lower(q), k, INTERVAL) {
      IntervalBefore(q, r, k, o);
    }
    if At(Lower(r), k, INTERVAL) {
      AgreeBack(q, r, o);
      IntervalBefore(r, q, k, o);
    }
  }

  lemma {:induction false} AfterPlusIs(q: string, i: nat, k: nat, e: nat)
    requires i < |q| && k == SpaceEnd(q, i + 1) && At(Lower(q), k, INTERVAL) && e == SpaceEnd(q, k + |INTERVAL|)
    ensures AfterPlus(q, i) == Here((), e)
  {
  }

  lemma {:induction false} AfterPlusSame(q: string, r: string, i: nat, o: nat)
    requires Agree(q, r, o) && i < o
    ensures AfterPlus(q, i) == AfterPlus(r, i) && (AfterPlus(q, i).Here? ==> AfterPlus(q, i).end <= o)
  {
    SpaceSame(q, r, i + 1, o);
    var k := SpaceEnd(q, i + 1);
    KeywordSame(q, r, k, o);
    if At(Lower(q), k, INTERVAL) {
      var e := SpaceEnd(q, k + |INTERVAL|);
      SpaceSame(q, r, k + |INTERVAL|, o);
      AfterPlusIs(q, i, k, e);
      AfterPlusIs(r, i, k, e);
    } else {
      assert AfterPlus(q, i).NotHere? && AfterPlus(r, i).NotHere?;
    }
  }

  lemma {:induction false} StartIs(q: string, from: nat, i: nat, t: Taken<()>)
    requires from < |q| && i == SpaceEnd(q, from + 1) < |q| && t == if q[i] == '+' then AfterPlus(q, i) else NotHere
    ensures LiteralStart(q, from) == t
  {
  }

  lemma {:induction false} StartSame(q: string, r: string, from: nat, o: nat)
    requires Agree(q, r, o) && from < o
    ensures LiteralStart(q, from) == LiteralStart(r, from)
    ensures LiteralStart(q, from).Here? ==> LiteralStart(q, from).end <= o
  {
    SpaceSame(q, r, from + 1, o);
    var i := SpaceEnd(q, from + 1);
    var t: Taken<()> := if q[i] == '+' then AfterPlus(q, i) else NotHere;
    if q[i] == '+' {
      AfterPlusSame(q, r, i, o);
    }
    StartIs(q, from, i, t);
    StartIs(r, from, i, t);
  }

  lemma {:induction false} LiteralSame(q: string, r: string, i: nat, o: nat)
    requires Agree(q, r, o) && i < o
    ensures TakeQuoted(q, i) == TakeQuoted(r, i) && (TakeQuoted(q, i).Here? ==> TakeQuoted(q, i).end <= o)
  {
    QuoteSame(q, r, i + 1, o);
    assert q[i + 1..QuoteEnd(q, i + 1)] == r[i + 1..QuoteEnd(q, i + 1)];
  }

  /** A quote at o opens the interval literal of a now() call at i. */
  predicate OpensInterval(q: string, i: nat, o: nat)
    requires i < |q|
  {
    && IsIdentStart(q[i])
    && var j := IdentEnd(q, i + 1);
      && MatchCall(q, j).Here? && NameOf(q[i..j]).NowName?
      && LiteralStart(q, MatchCall(q, j).end) == Here((), o)
  }

  lemma {:induction false} IntervalSame(q: string, r: string, from: nat, o: nat)
    requires Agree(q, r, o) && from < o && LiteralStart(q, from) != Here((), o)
    ensures TakeInterval(q, from) == TakeInterval(r, from) && (TakeInterval(q, from).Here? ==> TakeInterval(q, from).end <= o)
  {
    StartSame(q, r, from, o);
    if LiteralStart(q, from).Here? {
      LiteralSame(q, r, LiteralStart(q, from).end, o);
    }
  }

  lemma {:induction false} FunctionSame(q: string, r: string, i: nat, o: nat)
    requires Agree(q, r, o) && i < o && !OpensInterval(q, i, o)
    ensures TakeFunction(q, i) == TakeFunction(r, i) && (TakeFunction(q, i).Here? ==> TakeFunction(q, i).end <= o)
  {
    IdentSame(q, r, i + 1, o);
    var j := IdentEnd(q, i + 1);
    assert q[i..j] == r[i..j];
    CallSame(q, r, j, o);
    if IsIdentStart(q[i]) && MatchCall(q, j).Here? && NameOf(q[i..j]).NowName? {
      IntervalSame(q, r, MatchCall(q, j).end, o);
    }
  }

  /** A token read before the quote, or the quote itself, is the same in both queries. */
  lemma {:induction false} TokenSame(q: string, r: string, i: nat, inQuote: bool, o: nat, nargs: nat)
    requires Agree(q, r, o) && i <= o && (i == o ==> !inQuote) && (inQuote || i == o || !OpensInterval(q, i, o))
    ensures TokenAt(q, i, inQuote, nargs) == TokenAt(r, i, inQuote, nargs) && TokenAt(q, i, inQuote, nargs).next <= o + 1
  {
    if q[i] != '\'' && !inQuote {
      PlaceholderSame(q, r, i, o, nargs);
      FunctionSame(q, r, i, o);
    }
  }

  // ------------------------------------------------------ inside a quoted literal

  predicate NoQuotes(q: string, a: nat, b: nat)
    requires b <= |q|
  {
    forall k :: a <= k < b ==> q[k] != '\''
  }

  lemma {:induction false} InsideToken(q: string, i: nat, nargs: nat)
    requires i < |q| && q[i] != '\''
    ensures Tokens(q, i, true, nargs) == More(Literal(q[i]), Tokens(q, i + 1, true, nargs))
  {
    TokensNext(q, i, true, nargs);
  }

  /** The first n + 1 tokens are literal characters, and the last of these is c. */
  predicate LiteralAt(ts: TokenList, n: nat, c: char)
  {
    ts.More? && ts.first.Literal? && if n == 0 then ts.first.c == c else LiteralAt(ts.rest, n - 1, c)
  }

  lemma {:induction false} InsideLiteral(q: string, i: nat, n: nat, nargs: nat)
    requires i + n < |q| && NoQuotes(q, i, i + n + 1)
    ensures LiteralAt(Tokens(q, i, true, nargs), n, q[i + n])
    decreases n
  {
    InsideToken(q, i, nargs);
    if n > 0 {
      InsideLiteral(q, i + 1, n - 1, nargs);
    }
  }

  lemma {:induction false} LiteralBinds(d: Dialect, ts: TokenList, n: nat, c: char, args: seq<Arg>)
    requires LiteralAt(ts, n, c) && InRange(ts, |args|)
    ensures n < |BindNumbered(d, ts, args)| && BindNumbered(d, ts, args)[n] == Ch(c)
  {
    OneChar(ts.first.c);
    assert BindNumbered(d, ts, args) == [Ch(ts.first.c)] + BindNumbered(d, ts.rest, args);
    if n > 0 {
      LiteralBinds(d, ts.rest, n - 1, c, args);
    }
  }

  lemma {:induction false} LiteralEmits(d: Dialect, ts: TokenList, n: nat, c: char)
    requires LiteralAt(ts, n, c)
    ensures n < |Emit(d, ts)| && Emit(d, ts)[n] == c
  {
    if n > 0 {
      LiteralEmits(d, ts.rest, n - 1, c);
    }
  }

  lemma {:induction false} SameLength(d: Dialect, t: Token, args: seq<Arg>)
    requires t.Param? ==> 1 <= t.n <= |args|
    ensures |PiecesOf(d, t, args)| == |EmitOne(d, t)|
  {
    CharsAt(EmitOne(d, t), 0);
  }

  /** The quote at o does not open the interval literal of a now() call outside quotes. */
  ghost predicate NoIntervalAt(q: string, o: nat)
    requires o <= |q|
  {
    forall i {:trigger OpensInterval(q, i, o)} :: 0 <= i < o && !Odd(q, i) ==> !OpensInterval(q, i, o)
  }

  /** o opens the literal that position idx is in, and it is not an interval's. */
  ghost predicate Encloses(q: string, o: nat, idx: nat)
  {
    && o < idx < |q| && q[o] == '\'' && Odd(q, o + 1) && NoQuotes(q, o + 1, idx + 1)
    && NoIntervalAt(q, o)
  }

  // ----------------------------------------------------------- a common beginning

  function Prepend(pre: TokenList, ts: TokenList): (r: TokenList)
  {
    if pre.End? then ts else More(pre.first, Prepend(pre.rest, ts))
  }

  lemma {:induction false} PrependRange(pre: TokenList, ts: TokenList, nargs: nat)
    requires InRange(Prepend(pre, ts), nargs)
    ensures InRange(pre, nargs) && InRange(ts, nargs)
  {
    if pre.More? {
      PrependRange(pre.rest, ts, nargs);
    }
  }

  lemma {:induction false} PrependBinds(d: Dialect, pre: TokenList, ts: TokenList, args: seq<Arg>)
    requires InRange(Prepend(pre, ts), |args|) && InRange(pre, |args|) && InRange(ts, |args|)
    ensures BindNumbered(d, Prepend(pre, ts), args) == BindNumbered(d, pre, args) + BindNumbered(d, ts, args)
  {
    if pre.More? {
      PrependBinds(d, pre.rest, ts, args);
      SqlRewrite.Assoc(PiecesOf(d, pre.first, args), BindNumbered(d, pre.rest, args), BindNumbered(d, ts, args));
    }
  }

  lemma {:induction false} PrependEmits(d: Dialect, pre: TokenList, ts: TokenList)
    ensures Emit(d, Prepend(pre, ts)) == Emit(d, pre) + Emit(d, ts)
  {
    if pre.More? {
      PrependEmits(d, pre.rest, ts);
      SqlRewrite.Assoc(EmitOne(d, pre.first), Emit(d, pre.rest), Emit(d, ts));
    }
  }

  /** Tokens have one piece per character of their text. */
  lemma {:induction false} SameLengths(d: Dialect, ts: TokenList, args: seq<Arg>)
    requires InRange(ts, |args|)
    ensures |BindNumbered(d, ts, args)| == |Emit(d, ts)|
  {
    if ts.More? {
      SameLength(d, ts.first, args);
      SameLengths(d, ts.rest, args);
    }
  }

  /** Two queries that agree up to the quote of a literal read alike up to it. */
  lemma {:induction false} CommonTokens(q: string, r: string, i: nat, o: nat, nargs: nat, tq: TokenList, tr: TokenList,
                                        lq: TokenList, lr: TokenList) returns (pre: TokenList)
    requires Agree(q, r, o) && i <= o + 1 && Odd(q, o + 1) && NoIntervalAt(q, o)
    requires tq == Tokens(q, i, Odd(q, i), nargs) && tr == Tokens(r, i, Odd(q, i), nargs)
    requires lq == Tokens(q, o + 1, true, nargs) && lr == Tokens(r, o + 1, true, nargs)
    ensures tq == Prepend(pre, lq) && tr == Prepend(pre, lr)
    decreases o + 1 - i
  {
    if i == o + 1 {
      pre := End;
    } else {
      var s := TokenAt(q, i, Odd(q, i), nargs);
      TokenSame(q, r, i, Odd(q, i), o, nargs);
      TokenParity(q, i, nargs);
      TokensNext(q, i, Odd(q, i), nargs);
      TokensNext(r, i, Odd(q, i), nargs);
      var pre' := CommonTokens(q, r, s.next, o, nargs, tq.rest, tr.rest, lq, lr);
      pre := More(s.token, pre');
    }
  }

  /** Then a character of the literal comes out at the same place, as a piece of the meaning and in the text. */
  lemma {:induction false} Diverges(d: Dialect, q: string, r: string, o: nat, at: nat, args: seq<Arg>, tq: TokenList, tr: TokenList,
                                    lq: TokenList, lr: TokenList) returns (n: nat)
    requires Encloses(q, o, at) && Agree(q, r, o) && at < |r| && NoQuotes(r, o + 1, at + 1)
    requires tq == Tokens(q, 0, false, |args|) && tr == Tokens(r, 0, false, |args|)
    requires lq == Tokens(q, o + 1, true, |args|) && lr == Tokens(r, o + 1, true, |args|)
    ensures n < |BindNumbered(d, tq, args)| && BindNumbered(d, tq, args)[n] == Ch(q[at])
    ensures n < |Emit(d, tr)| && Emit(d, tr)[n] == r[at]
  {
    var pre := CommonTokens(q, r, 0, o, |args|, tq, tr, lq, lr);
    n := LiteralPlace(d, q, r, o + 1, at, args, pre, lq, lr, tq, tr);
  }

  lemma {:induction false} LiteralPlace(d: Dialect, q: string, r: string, i: nat, at: nat, args: seq<Arg>, pre: TokenList,
                                        lq: TokenList, lr: TokenList, tq: TokenList, tr: TokenList) returns (n: nat)
    requires i <= at < |q| && at < |r| && NoQuotes(q, i, at + 1) && NoQuotes(r, i, at + 1)
    requires lq == Tokens(q, i, true, |args|) && lr == Tokens(r, i, true, |args|) && InRange(tq, |args|)
    requires tq == Prepend(pre, lq) && tr == Prepend(pre, lr)
    ensures n < |BindNumbered(d, tq, args)| && BindNumbered(d, tq, args)[n] == Ch(q[at])
    ensures n < |Emit(d, tr)| && Emit(d, tr)[n] == r[at]
  {
    var m: nat := at - i;
    InsideLiteral(q, i, m, |args|);
    InsideLiteral(r, i, m, |args|);
    n := PlaceOf(d, pre, lq, lr, tq, tr, args, m, q[at], r[at]);
  }

  lemma {:induction false} PlaceOf(d: Dialect, pre: TokenList, lq: TokenList, lr: TokenList, tq: TokenList, tr: TokenList, args: seq<Arg>,
                                   m: nat, cq: char, cr: char) returns (n: nat)
    requires tq == Prepend(pre, lq) && tr == Prepend(pre, lr) && InRange(tq, |args|)
    requires LiteralAt(lq, m, cq) && LiteralAt(lr, m, cr)
    ensures n < |BindNumbered(d, tq, args)| && BindNumbered(d, tq, args)[n] == Ch(cq)
    ensures n < |Emit(d, tr)| && Emit(d, tr)[n] == cr
  {
    PrependRange(pre, lq, |args|);
    PrependBinds(d, pre, lq, args);
    PrependEmits(d, pre, lr);
    SameLengths(d, pre, args);
    LiteralBinds(d, lq, m, cq, args);
    LiteralEmits(d, lr, m, cr);
    n := |Emit(d, pre)| + m;
  }

  // --------------------------------------------------- a keyword inside a literal

  /** The quote before a position that is inside quotes. */
  lemma {:induction false} LastQuote(q: string, idx: nat) returns (o: nat)
    requires idx <= |q| && Odd(q, idx)
    ensures o < idx && q[o] == '\'' && Odd(q, o + 1) && NoQuotes(q, o + 1, idx)
  {
    if q[idx - 1] == '\'' {
      o := idx - 1;
    } else {
      o := LastQuote(q, idx - 1);
    }
  }

  /** The literal around a position is the interval of a now() call outside quotes. */
  ghost predicate InInterval(q: string, idx: nat)
  {
    exists i, o {:trigger OpensInterval(q, i, o)} ::
      0 <= i < o < idx <= |q| && !Odd(q, i) && OpensInterval(q, i, o) && NoQuotes(q, o + 1, idx)
  }

  /** The first ON CONFLICT, if there is one, is part of a quoted literal that is not an interval's. */
  ghost predicate KeywordQuoted(q: string)
  {
    var idx := IndexOf(Lower(q), ON_CONFLICT, 0);
    idx.Here? ==> Odd(q, idx.end) && !InInterval(q, idx.end)
  }

  lemma {:induction false} KeywordChars(q: string, idx: nat)
    requires At(Lower(q), idx, ON_CONFLICT)
    ensures idx + 3 < |q| && (q[idx + 3] == 'c' || q[idx + 3] == 'C') && NoQuotes(q, idx, idx + 4)
  {
    AtChar(Lower(q), idx, ON_CONFLICT, 0);
    AtChar(Lower(q), idx, ON_CONFLICT, 1);
    AtChar(Lower(q), idx, ON_CONFLICT, 2);
    AtChar(Lower(q), idx, ON_CONFLICT, 3);
    assert Lower(q)[idx + 0] == 'o' && Lower(q)[idx + 1] == 'n' && Lower(q)[idx + 2] == ' ' && Lower(q)[idx + 3] == 'c';
    FourChars(q, idx);
  }

  lemma {:induction false} FourChars(q: string, i: nat)
    requires i + 4 <= |q| && q[i] != '\'' && q[i + 1] != '\'' && q[i + 2] != '\'' && q[i + 3] != '\''
    ensures NoQuotes(q, i, i + 4)
  {
  }

  lemma {:induction false} ReplacementChars(r: string, idx: nat, tail: string)
    requires At(r, idx, ON_DUPLICATE + tail)
    ensures idx + 3 < |r| && r[idx + 3] == 'D' && NoQuotes(r, idx, idx + 4)
  {
    AtParts(r, idx, ON_DUPLICATE, tail);
    AtChar(r, idx, ON_DUPLICATE, 0);
    AtChar(r, idx, ON_DUPLICATE, 1);
    AtChar(r, idx, ON_DUPLICATE, 2);
    AtChar(r, idx, ON_DUPLICATE, 3);
    assert r[idx + 0] == 'O' && r[idx + 1] == 'N' && r[idx + 2] == ' ' && r[idx + 3] == 'D';
    FourChars(r, idx);
  }

  lemma {:induction false} EnclosesKeyword(q: string, o: nat, idx: nat)
    requires At(Lower(q), idx, ON_CONFLICT) && idx <= |q| && !InInterval(q, idx)
    requires o < idx && q[o] == '\'' && Odd(q, o + 1) && NoQuotes(q, o + 1, idx)
    ensures Encloses(q, o, idx + 3)
  {
    KeywordChars(q, idx);
    forall i | 0 <= i < o && !Odd(q, i) ensures !OpensInterval(q, i, o) {
    }
  }

  /** Where the translated query first differs: at the fourth character of the keyword. */
  lemma {:induction false} TranslationDiverges(q: string, r: string, idx: nat, tail: string, args: seq<Arg>, tq: TokenList, tr: TokenList)
    returns (n: nat)
    requires At(Lower(q), idx, ON_CONFLICT) && idx <= |q| && Odd(q, idx) && !InInterval(q, idx)
    requires r == q[..idx] + (ON_DUPLICATE + tail)
    requires tq == Tokens(q, 0, false, |args|) && tr == Tokens(r, 0, false, |args|)
    ensures n < |BindNumbered(MySQL, tq, args)| && BindNumbered(MySQL, tq, args)[n] in {Ch('c'), Ch('C')}
    ensures n < |Emit(MySQL, tr)| && Emit(MySQL, tr)[n] == 'D'
  {
    var o := LastQuote(q, idx);
    EnclosesKeyword(q, o, idx);
    AgreeUpTo(q, r, o, idx, tail);
    KeywordChars(q, idx);
    n := Diverges(MySQL, q, r, o, idx + 3, args, tq, tr, Tokens(q, o + 1, true, |args|), Tokens(r, o + 1, true, |args|));
  }

  lemma {:induction false} AgreeUpTo(q: string, r: string, o: nat, idx: nat, tail: string)
    requires o < idx <= |q| && q[o] == '\'' && NoQuotes(q, o + 1, idx) && r == q[..idx] + (ON_DUPLICATE + tail)
    ensures Agree(q, r, o) && idx + 3 < |r| && r[idx + 3] == 'D' && NoQuotes(r, o + 1, idx + 4)
  {
    assert At(r, idx, ON_DUPLICATE + tail);
    ReplacementChars(r, idx, tail);
  }

  /** A literal that holds the keyword does not survive the translation. */
  lemma {:induction false} LiteralDestroyed(q: string, args: seq<Arg>)
    requires KeywordQuoted(q) && Translates(q)
    ensures var (text, out) := Rewritten(MySQL, q, args);
      BindPositional(text, false, out) != Meaning(MySQL, q, 0, args)
  {
    var idx := IndexOf(Lower(q), ON_CONFLICT, 0).end;
    var tail := TranslatedShape(q);
    var r := TranslateUpsert(q);
    var n := TranslationDiverges(q, r, idx, tail, args, Tokens(q, 0, false, |args|), Tokens(r, 0, false, |args|));
    TokensMeaning(MySQL, q, 0, args);
    var (text, out) := Rewritten(MySQL, q, args);
    BindAt(text, false, out, n);
  }

  /**
   For MySQL and every query whose first ON CONFLICT, if any, is part of a quoted
   literal that is not an interval's: the rewritten text means what the query
   itself meant if and only if the translator's guard is not met and no stray
   mark comes before an argument.
   */
  lemma {:induction false} QuotedKeywordIff(q: string, args: seq<Arg>)
    requires KeywordQuoted(q)
    ensures var (text, out) := Rewritten(MySQL, q, args);
      BindPositional(text, false, out) == Meaning(MySQL, q, 0, args) <==> !Translates(q) && !ExposedIn(MySQL, q, args)
  {
    if Translates(q) {
      LiteralDestroyed(q, args);
    } else {
      LeftAlone(q);
      RewriteMeaningIff(MySQL, q, args);
    }
  }

  /** So for such a query without stray marks the translator's guard alone decides. */
  lemma {:induction false} QuotedKeywordPreservedIff(q: string, args: seq<Arg>)
    requires KeywordQuoted(q) && MarkFree(q) && NoLeaks(q)
    ensures var (text, out) := Rewritten(MySQL, q, args);
      BindPositional(text, false, out) == Meaning(MySQL, q, 0, args) <==> !Translates(q)
  {
    Unexposed(MySQL, q, 0, args, Spare(Tokens(q, 0, false, |args|), args));
    QuotedKeywordIff(q, args);
  }
}
