/**
 When the rewriter of db/query.go preserves the meaning of a query, told from
 its text: no `?` stands outside a quoted literal and, for MySQL, the unit of no
 interval literal holds one.
 */
module SqlMeaning {
  import opened SqlScan
  import opened SqlRewrite

  // ------------------------------------------------------------ quote parity

  /** Whether an odd number of quotes stands before position i. */
  function Odd(q: string, i: nat): (b: bool)
    requires i <= |q|
  {
    i > 0 && (if q[i - 1] == '\'' then !Odd(q, i - 1) else Odd(q, i - 1))
  }

  lemma {:induction false} OddSame(q: string, a: nat, b: nat)
    requires a <= b <= |q| && forall k :: a <= k < b ==> q[k] != '\''
    ensures Odd(q, b) == Odd(q, a)
  {
    if a < b {
      OddSame(q, a, b - 1);
    }
  }

  /** Every `?` of the query is inside a quoted literal. */
  ghost predicate MarkFree(q: string)
  {
    forall i :: 0 <= i < |q| && q[i] == '?' ==> Odd(q, i)
  }

  /** No interval literal of the query has a `?` in its unit. */
  ghost predicate NoLeaks(q: string)
  {
    forall i :: 0 <= i < |q| && TakeFunction(q, i).Here? ==> NoLeak(TakeFunction(q, i).value)
  }

  predicate NoLeak(call: Call)
  {
    call.CallInterval? ==> '?' !in ParseInterval(call.literal).1
  }

  lemma {:induction false} PlaceholderSpan(q: string, i: nat, nargs: nat)
    requires i < |q| && TakePlaceholder(q, i, nargs).Here?
    ensures Odd(q, TakePlaceholder(q, i, nargs).end + 1) == Odd(q, i)
  {
    OddSame(q, i, DigitsEnd(q, i + 1));
  }

  /** An identifier with its empty call holds no quote. */
  lemma {:induction false} CallSpan(q: string, i: nat)
    requires i < |q| && IsIdentStart(q[i]) && MatchCall(q, IdentEnd(q, i + 1)).Here?
    ensures Odd(q, MatchCall(q, IdentEnd(q, i + 1)).end + 1) == Odd(q, i)
  {
    var j := IdentEnd(q, i + 1);
    var open := SpaceEnd(q, j);
    var close := SpaceEnd(q, open + 1);
    OddSame(q, i, j);
    OddSame(q, j, open);
    OddSame(q, open, open + 1);
    OddSame(q, open + 1, close + 1);
  }

  lemma {:induction false} KeywordSpan(q: string, k: nat)
    requires At(Lower(q), k, INTERVAL)
    ensures Odd(q, k + |INTERVAL|) == Odd(q, k)
  {
    forall x | k <= x < k + |INTERVAL| ensures q[x] != '\'' {
      assert Lower(q)[k + (x - k)] == INTERVAL[x - k];
      assert 'a' <= INTERVAL[x - k] <= 'z';
    }
    OddSame(q, k, k + |INTERVAL|);
  }

  lemma {:induction false} LiteralSpan(q: string, open: nat)
    requires open <= |q| && TakeQuoted(q, open).Here?
    ensures Odd(q, TakeQuoted(q, open).end + 1) == Odd(q, open)
  {
    OddSame(q, open + 1, QuoteEnd(q, open + 1));
  }

  lemma {:induction false} SpaceSpan(q: string, a: nat)
    requires a <= |q|
    ensures Odd(q, SpaceEnd(q, a)) == Odd(q, a)
  {
    OddSame(q, a, SpaceEnd(q, a));
  }

  lemma {:induction false} PlusSpan(q: string, a: nat, plus: nat)
    requires a <= |q| && plus == SpaceEnd(q, a) && plus < |q| && q[plus] != '\''
    ensures Odd(q, SpaceEnd(q, plus + 1)) == Odd(q, a)
  {
    SpaceSpan(q, a);
    OddSame(q, plus, plus + 1);
    SpaceSpan(q, plus + 1);
  }

  /** The positions LiteralStart goes through: the sign and the keyword. */
  lemma {:induction false} StartPlaces(q: string, from: nat) returns (plus: nat, k: nat)
    requires from < |q| && LiteralStart(q, from).Here?
    ensures plus == SpaceEnd(q, from + 1) && plus < |q| && q[plus] == '+' && k == SpaceEnd(q, plus + 1)
    ensures At(Lower(q), k, INTERVAL) && LiteralStart(q, from).end == SpaceEnd(q, k + |INTERVAL|)
  {
    plus := SpaceEnd(q, from + 1);
    k := SpaceEnd(q, plus + 1);
  }

  lemma {:induction false} StartSpan(q: string, from: nat)
    requires from < |q| && LiteralStart(q, from).Here?
    ensures Odd(q, LiteralStart(q, from).end) == Odd(q, from + 1)
  {
    var plus, k := StartPlaces(q, from);
    PlusSpan(q, from + 1, plus);
    WordSpan(q, k);
  }

  lemma {:induction false} WordSpan(q: string, k: nat)
    requires At(Lower(q), k, INTERVAL)
    ensures Odd(q, SpaceEnd(q, k + |INTERVAL|)) == Odd(q, k)
  {
    KeywordSpan(q, k);
    SpaceSpan(q, k + |INTERVAL|);
  }

  /** An interval holds exactly the two quotes of its literal. */
  lemma {:induction false} IntervalSpan(q: string, from: nat)
    requires from < |q| && TakeInterval(q, from).Here?
    ensures Odd(q, TakeInterval(q, from).end + 1) == Odd(q, from + 1)
  {
    StartSpan(q, from);
    LiteralSpan(q, LiteralStart(q, from).end);
  }

  lemma {:induction false} FunctionSpan(q: string, i: nat)
    requires i < |q| && TakeFunction(q, i).Here?
    ensures Odd(q, TakeFunction(q, i).end + 1) == Odd(q, i)
  {
    CallSpan(q, i);
    var end := MatchCall(q, IdentEnd(q, i + 1)).end;
    if NameOf(q[i..IdentEnd(q, i + 1)]).NowName? && TakeInterval(q, end).Here? {
      IntervalSpan(q, end);
    }
  }

  lemma {:induction false} TokenParity(q: string, i: nat, nargs: nat)
    requires i < |q|
    ensures var s := TokenAt(q, i, Odd(q, i), nargs); s.inQuote == Odd(q, s.next)
  {
    if q[i] != '\'' && !Odd(q, i) {
      if TakePlaceholder(q, i, nargs).Here? {
        PlaceholderSpan(q, i, nargs);
      } else if TakeFunction(q, i).Here? {
        FunctionSpan(q, i);
      }
    }
  }

  lemma {:induction false} OutsideFits(d: Dialect, q: string, i: nat, nargs: nat)
    requires d != Postgres && i < |q| && q[i] != '\''
    ensures Fits(d, Outside(q, i, nargs).0, false)
  {
    if TakeFunction(q, i).Here? {
      CallReadable(d, q, i);
    }
  }

  /** Reading a token keeps track of the quoting, and the token fits where it stands. */
  lemma {:induction false} TokenFits(d: Dialect, q: string, i: nat, inQuote: bool, nargs: nat)
    requires d != Postgres && i < |q| && inQuote == Odd(q, i)
    ensures var s := TokenAt(q, i, inQuote, nargs);
      s.inQuote == Odd(q, s.next) && Fits(d, s.token, inQuote) && (s.inQuote == if s.token.Quote? then !inQuote else inQuote)
  {
    TokenParity(q, i, nargs);
    if q[i] != '\'' && !inQuote {
      OutsideFits(d, q, i, nargs);
    }
  }

  /** Right after a closing quote stands no quote token. */
  lemma {:induction false} AfterClosing(q: string, i: nat, nargs: nat)
    requires i < |q| && TokenAt(q, i, true, nargs).token.Quote? && i + 1 < |q|
    ensures !TokenAt(q, i + 1, false, nargs).token.Quote?
  {
  }

  lemma {:induction false} TokensWellQuoted(d: Dialect, q: string, i: nat, inQuote: bool, nargs: nat)
    requires d != Postgres && i <= |q| && inQuote == Odd(q, i)
    ensures WellQuoted(d, Tokens(q, i, inQuote, nargs), inQuote)
    decreases |q| - i
  {
    if i < |q| {
      var s := TokenAt(q, i, inQuote, nargs);
      TokenFits(d, q, i, inQuote, nargs);
      TokensNext(q, i, inQuote, nargs);
      TokensWellQuoted(d, q, s.next, s.inQuote, nargs);
      if s.token.Quote? && inQuote && i + 1 < |q| {
        AfterClosing(q, i, nargs);
        TokensNext(q, i + 1, false, nargs);
      }
    }
  }

  // ------------------------------------------------------------- clean calls

  lemma {:induction false} LowerNone(s: string)
    requires NoneOf(s, '\'')
    ensures NoneOf(Lower(s), '\'') && NoneOf(Upper(s), '\'')
  {
  }

  /** The unit of an interval literal has no quote. */
  lemma {:induction false} UnitNone(lit: string)
    requires NoneOf(lit, '\'')
    ensures NoneOf(ParseInterval(lit).1, '\'')
  {
    var fields := Fields(lit, 0);
    if |fields| < 2 {
      LowerNone(lit);
    } else {
      var f := fields[|fields| - 1];
      assert f in fields;
      forall i | 0 <= i < |f| ensures f[i] != '\'' {
        assert f[i] in f;
      }
      LowerNone(f);
    }
  }

  lemma {:induction false} RenderNone(n: int)
    ensures NoneOf(RenderInt(n), '\'') && NoneOf(RenderInt(n), '?') && RenderInt(n) != ""
  {
  }

  lemma {:induction false} AmountNone(amount: int, unit: string, c: char)
    requires (c == '\'' || c == '?') && NoneOf(unit, c)
    ensures NoneOf(Amount(amount, unit), c)
  {
    RenderNone(amount);
  }

  lemma {:induction false} ClosingNeutral()
    ensures Neutral("')", true)
  {
    assert ")"[1..] == "";
    assert "')"[1..] == ")";
  }

  lemma {:induction false} OpeningNeutral(rest: string)
    requires Neutral(rest, true)
    ensures Neutral("'" + rest, false)
  {
    assert ("'" + rest)[1..] == rest;
  }

  /** SQLite quotes the amount and unit, so any literal is fine. */
  lemma {:induction false} SQLiteIntervalClean(lit: string)
    requires NoneOf(lit, '\'')
    ensures Clean(AddInterval(SQLite, Now(SQLite), lit))
  {
    var (amount, unit) := ParseInterval(lit);
    UnitNone(lit);
    AmountNone(amount, unit, '\'');
    QuotedClean("datetime(" + Now(SQLite) + ", ", "+" + Amount(amount, unit));
  }

  lemma {:induction false} QuotedClean(before: string, inside: string)
    requires before != "" && NoneOf(before, '\'') && NoneOf(before, '?') && NoneOf(inside, '\'')
    ensures Clean(before + ("'" + (inside + "')")))
  {
    ClosingNeutral();
    PlainNeutral(inside, true, "')");
    OpeningNeutral(inside + "')");
    PlainNeutral(before, false, "'" + (inside + "')"));
    assert (before + ("'" + (inside + "')")))[0] == before[0];
  }

  lemma {:induction false} MySQLIntervalBare(lit: string)
    requires NoneOf(lit, '\'')
    ensures AddInterval(MySQL, Now(MySQL), lit) != "" && NoneOf(AddInterval(MySQL, Now(MySQL), lit), '\'')
  {
    var (amount, unit) := ParseInterval(lit);
    UnitNone(lit);
    LowerNone(unit);
    AmountNone(amount, Upper(unit), '\'');
  }

  lemma {:induction false} MarkNotNeutral(t: string)
    requires NoneOf(t, '\'') && !NoneOf(t, '?')
    ensures !Neutral(t, false)
  {
    if t[0] != '?' {
      MarkNotNeutral(t[1..]);
    }
  }

  /** MySQL writes the unit bare: the expression is clean if and only if the unit holds no mark. */
  lemma {:induction false} MySQLIntervalCleanIff(lit: string)
    requires NoneOf(lit, '\'')
    ensures Clean(AddInterval(MySQL, Now(MySQL), lit)) <==> '?' !in ParseInterval(lit).1
  {
    var (amount, unit) := ParseInterval(lit);
    var text := AddInterval(MySQL, Now(MySQL), lit);
    MySQLIntervalBare(lit);
    if '?' in unit {
      var k :| 0 <= k < |unit| && unit[k] == '?';
      MarkIn(amount, Upper(unit), k);
      MarkNotNeutral(text);
    } else {
      AmountNone(amount, Upper(unit), '?');
      PlainClean(text);
    }
  }

  lemma {:induction false} MarkIn(amount: int, unit: string, k: nat)
    requires k < |unit| && unit[k] == '?'
    ensures !NoneOf(("DATE_ADD(" + Now(MySQL) + ", INTERVAL ") + (Amount(amount, unit) + ")"), '?')
  {
    var before, a := "DATE_ADD(" + Now(MySQL) + ", INTERVAL ", Amount(amount, unit);
    var n := |RenderInt(amount)|;
    assert a[n + 1 + k] == (" " + unit)[1 + k] == '?';
    assert (before + (a + ")"))[|before| + (n + 1 + k)] == (a + ")")[n + 1 + k] == '?';
  }

  /** The literal of a call holds no quote. */
  lemma {:induction false} LiteralNone(q: string, i: nat)
    requires i < |q| && TakeFunction(q, i).Here? && TakeFunction(q, i).value.CallInterval?
    ensures NoneOf(TakeFunction(q, i).value.literal, '\'')
  {
  }

  lemma {:induction false} FixedExprsClean(d: Dialect)
    requires d != Postgres
    ensures Clean(Now(d)) && Clean(RandomUUIDExpr(d))
  {
    PlainClean(Now(d));
    PlainClean(RandomUUIDExpr(d));
  }

  /** A call translates to clean text for SQLite, and for MySQL if and only if no mark leaks from its literal. */
  lemma {:induction false} CallCleanIff(d: Dialect, q: string, i: nat)
    requires d != Postgres && i < |q| && TakeFunction(q, i).Here?
    ensures Clean(ExprOf(d, TakeFunction(q, i).value)) <==> d == SQLite || NoLeak(TakeFunction(q, i).value)
  {
    FixedExprsClean(d);
    var call := TakeFunction(q, i).value;
    if call.CallInterval? {
      LiteralNone(q, i);
      if d == SQLite {
        SQLiteIntervalClean(call.literal);
      } else {
        MySQLIntervalCleanIff(call.literal);
      }
    }
  }

  lemma {:induction false} CallReadable(d: Dialect, q: string, i: nat)
    requires d != Postgres && i < |q| && TakeFunction(q, i).Here?
    ensures Readable(ExprOf(d, TakeFunction(q, i).value))
  {
    CallCleanIff(d, q, i);
    if d == MySQL && TakeFunction(q, i).value.CallInterval? {
      LiteralNone(q, i);
      MySQLIntervalBare(TakeFunction(q, i).value.literal);
    }
  }

  // ------------------------------------------------------------- stray marks

  /** No token is stray when no mark stands outside quotes and none leaks. */
  lemma {:induction false} TokenSteady(d: Dialect, q: string, i: nat, nargs: nat)
    requires d != Postgres && i < |q| && MarkFree(q) && (d == SQLite || NoLeaks(q))
    ensures !Stray(d, TokenAt(q, i, Odd(q, i), nargs).token)
  {
    if q[i] != '\'' && !Odd(q, i) && TakePlaceholder(q, i, nargs).NotHere? && TakeFunction(q, i).Here? {
      CallCleanIff(d, q, i);
    }
  }

  lemma {:induction false} Unexposed(d: Dialect, q: string, i: nat, args: seq<Arg>, extra: seq<Arg>)
    requires d != Postgres && i <= |q| && MarkFree(q) && (d == SQLite || NoLeaks(q))
    ensures !Exposed(d, Tokens(q, i, Odd(q, i), |args|), args, extra)
    decreases |q| - i
  {
    if i < |q| {
      TokenSteady(d, q, i, |args|);
      TokenFits(d, q, i, Odd(q, i), |args|);
      TokensNext(q, i, Odd(q, i), |args|);
      Unexposed(d, q, TokenAt(q, i, Odd(q, i), |args|).next, args, extra);
    }
  }
}
