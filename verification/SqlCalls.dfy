/**
 The calls of db/query.go: rewriting the expressions generated for PostgreSQL
 (the current time, a random identifier, the time some interval from now) gives
 the expressions generated for the target dialect.
 */
module SqlCalls {
  import opened Decimal
  import opened SqlScan
  import opened SqlRewrite
  import opened SqlMeaning
  import opened SqlUpsert
  import opened SqlQuery

  // ------------------------------------------------------------ reading intervals

  /** A unit that reads back as it is written: one word that does not end in s. */
  predicate IsUnit(u: string)
  {
    u != "" && u[|u| - 1] != 's' && NoSpaces(u)
  }

  predicate NoSpaces(s: string)
  {
    forall i :: 0 <= i < |s| ==> !IsSpace(s[i])
  }

  lemma {:induction false} FieldEndIs(s: string, j: nat, e: nat)
    requires j <= e <= |s| && (forall k :: j <= k < e ==> !IsSpace(s[k])) && (e < |s| ==> IsSpace(s[e]))
    ensures FieldEnd(s, j) == e
    decreases e - j
  {
    if j < e {
      FieldEndIs(s, j + 1, e);
    }
  }

  lemma {:induction false} LastField(s: string, j: nat, b: string)
    requires j < |s| && s[j..] == b && NoSpaces(b)
    ensures Fields(s, j) == [b]
  {
    assert forall k :: j <= k < |s| ==> s[k] == b[k - j];
    FieldEndIs(s, j + 1, |s|);
    assert s[j..|s|] == b;
    assert Fields(s, |s|) == [];
  }

  lemma {:induction false} TwoFields(a: string, b: string)
    requires a != "" && b != "" && NoSpaces(a) && NoSpaces(b)
    ensures Fields(a + (" " + b), 0) == [a, b]
  {
    var s := a + (" " + b);
    assert forall k :: 0 <= k < |a| ==> s[k] == a[k];
    FieldEndIs(s, 1, |a|);
    assert s[0..|a|] == a;
    assert s[|a| + 1..] == b;
    LastField(s, |a| + 1, b);
    assert Fields(s, |a|) == Fields(s, |a| + 1);
    assert Fields(s, 0) == [s[0..|a|]] + Fields(s, |a|);
  }

  lemma {:induction false} NoSignedDigits(digits: string, n: nat)
    requires digits == Itoa(n)
    ensures digits[0] != '+' && digits[0] != '-' && Atoi(digits) == n
  {
    AtoiItoa(n);
    assert IsDigit(digits[0]);
  }

  lemma {:induction false} PositiveRead(n: nat)
    requires n <= MAX_INT64
    ensures ParseInt(Itoa(n)).Here? && ParseInt(Itoa(n)).value == n
  {
    NoSignedDigits(Itoa(n), n);
  }

  lemma {:induction false} NegativeRead(n: nat)
    requires 0 < n <= MAX_INT64 + 1
    ensures ParseInt("-" + Itoa(n)).Here? && ParseInt("-" + Itoa(n)).value + n == 0
  {
    NoSignedDigits(Itoa(n), n);
    assert ("-" + Itoa(n))[1..] == Itoa(n);
  }

  lemma {:induction false} RenderedNumber(n: int)
    requires -MAX_INT64 - 1 <= n <= MAX_INT64
    ensures ParseInt(RenderInt(n)).Here? && ParseInt(RenderInt(n)).value == n
    ensures RenderInt(n) != "" && NoSpaces(RenderInt(n))
  {
    if n < 0 {
      NegativeRead(-n);
    } else {
      PositiveRead(n);
    }
  }

  lemma {:induction false} LowerTwice(s: string)
    ensures Lower(TrimSuffixS(Lower(s))) == TrimSuffixS(Lower(s))
  {
  }

  /** The unit of an interval is in lower case and its amount fits in 64 bits. */
  lemma {:induction false} ParsedInterval(lit: string)
    ensures Lower(ParseInterval(lit).1) == ParseInterval(lit).1
    ensures -MAX_INT64 - 1 <= ParseInterval(lit).0 <= MAX_INT64
  {
    var fields := Fields(lit, 0);
    if |fields| < 2 {
      LowerTwice(lit);
    } else {
      LowerTwice(fields[|fields| - 1]);
    }
  }

  /** The rendering of an amount and a unit reads back as the amount and the unit without a final s. */
  lemma {:induction false} WordReadBack(amount: int, unit: string)
    requires -MAX_INT64 - 1 <= amount <= MAX_INT64 && unit != "" && NoSpaces(unit) && Lower(unit) == unit
    ensures ParseInterval(Amount(amount, unit)) == (amount, TrimSuffixS(unit))
  {
    RenderedNumber(amount);
    TwoFields(RenderInt(amount), unit);
  }

  /** The rendering of an amount and a unit reads back as the two. */
  lemma {:induction false} AmountReadBack(amount: int, unit: string)
    requires -MAX_INT64 - 1 <= amount <= MAX_INT64 && IsUnit(unit) && Lower(unit) == unit
    ensures ParseInterval(Amount(amount, unit)) == (amount, unit)
  {
    WordReadBack(amount, unit);
  }

  // ------------------------------------------------------ units that do not read back

  /** How many characters the amount and the unit of an interval take. */
  function Size(r: (int, string)): (n: nat)
  {
    |RenderInt(r.0)| + |r.1|
  }

  lemma {:induction false} FieldsAreSlices(s: string, j: nat, k: nat) returns (a: nat, b: nat)
    requires j <= |s| && k < |Fields(s, j)|
    ensures j <= a <= b <= |s| && Fields(s, j)[k] == s[a..b] && NoSpaces(s[a..b])
    decreases |s| - j
  {
    if IsSpace(s[j]) {
      a, b := FieldsAreSlices(s, j + 1, k);
    } else {
      var e := FieldEnd(s, j + 1);
      FieldNoSpaces(s, j + 1);
      if k == 0 {
        a, b := j, e;
      } else {
        a, b := FieldsAreSlices(s, e, k - 1);
      }
    }
  }

  lemma {:induction false} FieldNoSpaces(s: string, j: nat)
    requires j <= |s|
    ensures forall k :: j <= k < FieldEnd(s, j) ==> !IsSpace(s[k])
    decreases |s| - j
  {
    if j < |s| && !IsSpace(s[j]) {
      FieldNoSpaces(s, j + 1);
    }
  }

  /** The fields of a number, a space and some text: the number, and the fields of the text. */
  lemma {:induction false} NumberFirst(number: string, text: string)
    requires number != "" && NoSpaces(number)
    ensures var s := number + (" " + text); Fields(s, 0) == [number] + Fields(s, |number| + 1)
  {
    var s := number + (" " + text);
    assert forall k :: 0 <= k < |number| ==> s[k] == number[k];
    FieldEndIs(s, 1, |number|);
    assert s[0..|number|] == number && s[|number|] == ' ';
    assert Fields(s, |number|) == Fields(s, |number| + 1);
  }

  lemma {:induction false} NothingFollows(number: string)
    requires number != "" && NoSpaces(number)
    ensures |Fields(number + (" " + ""), 0)| < 2
  {
    NumberFirst(number, "");
  }

  /** Without a unit the rendered amount is read as a unit itself. */
  lemma {:induction false} EmptyUnit(amount: int)
    requires -MAX_INT64 - 1 <= amount <= MAX_INT64
    ensures Size(ParseInterval(Amount(amount, ""))) != Size((amount, ""))
  {
    RenderedNumber(amount);
    NothingFollows(RenderInt(amount));
    var s := Amount(amount, "");
    assert Lower(s)[|s| - 1] == ' ';
    assert |RenderInt(1)| > 0;
  }

  /** A unit with white space in it is read without it, or with the amount. */
  lemma {:induction false} SpacedUnit(unit: string)
    requires !NoSpaces(unit)
    ensures Size(ParseInterval(Amount(1, unit))) != Size((1, unit))
  {
    var s, number := Amount(1, unit), RenderInt(1);
    RenderedNumber(1);
    NumberFirst(number, unit);
    var fields := Fields(s, 0);
    if |fields| >= 2 {
      var f := fields[|fields| - 1];
      var a, b := FieldsAreSlices(s, |number| + 1, |fields| - 2);
      assert f == s[a..b];
      if b - a == |unit| {
        SliceOfText(number, unit, a, b);
      }
    }
  }

  lemma {:induction false} SliceOfText(number: string, text: string, a: nat, b: nat)
    requires |number| + 1 <= a <= b <= |number| + 1 + |text| && b - a == |text|
    ensures (number + (" " + text))[a..b] == text
  {
    var s := number + (" " + text);
    assert s[|number| + 1..] == text;
    assert s[a..b] == s[|number| + 1..];
  }

  /** A unit is one word, or the whole text of an interval in lower case with the amount 1. */
  lemma {:induction false} UnitKinds(lit: string)
    ensures var (amount, unit) := ParseInterval(lit);
      NoSpaces(unit) || (amount == 1 && |Fields(lit, 0)| < 2 && unit == TrimSuffixS(Lower(lit)))
  {
    var fields := Fields(lit, 0);
    if |fields| >= 2 {
      var a, b := FieldsAreSlices(lit, 0, |fields| - 1);
      forall i | 0 <= i < |lit[a..b]| ensures !IsSpace(LowerChar(lit[a..b][i])) {
      }
    }
  }

  /** Exactly the units that are not one word without a final s change when read back. */
  lemma {:induction false} ReadBackIff(lit: string)
    ensures var r := ParseInterval(lit);
      && (IsUnit(r.1) ==> ParseInterval(Amount(r.0, r.1)) == r)
      && (!IsUnit(r.1) ==> Size(ParseInterval(Amount(r.0, r.1))) != Size(r))
  {
    var (amount, unit) := ParseInterval(lit);
    ParsedInterval(lit);
    UnitKinds(lit);
    if unit == "" {
      EmptyUnit(amount);
    } else if NoSpaces(unit) {
      WordReadBack(amount, unit);
    } else {
      SpacedUnit(unit);
    }
  }

  // ------------------------------------------------------------- reading the calls

  const CALL: string := "now() + interval '"

  const BEFORE: string := "(" + CALL

  lemma {:induction false} QuoteEndIs(q: string, j: nat, e: nat)
    requires j <= e < |q| && (forall k :: j <= k < e ==> q[k] != '\'') && q[e] == '\''
    ensures QuoteEnd(q, j) == e
    decreases e - j
  {
    if j < e {
      QuoteEndIs(q, j + 1, e);
    }
  }

  lemma {:induction false} NowFound(q: string, p: nat)
    requires At(q, p, CALL)
    ensures IsIdentStart(q[p]) && IdentEnd(q, p + 1) == p + 3 && NameOf(q[p..p + 3]).NowName?
    ensures MatchCall(q, p + 3) == Here((), p + 4)
  {
    AtChar(q, p, CALL, 0);
    AtChar(q, p, CALL, 1);
    AtChar(q, p, CALL, 2);
    AtChar(q, p, CALL, 3);
    AtChar(q, p, CALL, 4);
    assert q[p + 0] == 'n' && q[p + 1] == 'o' && q[p + 2] == 'w' && q[p + 3] == '(' && q[p + 4] == ')';
    IdentEndIs(q, p + 1, p + 3);
    assert Lower(q[p..p + 3]) == "now";
  }

  lemma {:induction false} KeywordAt(q: string, p: nat)
    requires At(q, p, CALL)
    ensures At(Lower(q), p + 8, INTERVAL)
  {
    forall k | 0 <= k < |INTERVAL| ensures Lower(q)[p + 8 + k] == INTERVAL[k] {
      AtChar(q, p, CALL, 8 + k);
      assert q[p + (8 + k)] == INTERVAL[k];
    }
  }

  lemma {:induction false} SpacesAt(q: string, p: nat)
    requires At(q, p, CALL)
    ensures SpaceEnd(q, p + 5) == p + 6 && SpaceEnd(q, p + 7) == p + 8 && SpaceEnd(q, p + 16) == p + 17
    ensures q[p + 6] == '+' && q[p + 17] == '\''
  {
    AtChar(q, p, CALL, 5);
    AtChar(q, p, CALL, 6);
    AtChar(q, p, CALL, 7);
    AtChar(q, p, CALL, 8);
    AtChar(q, p, CALL, 16);
    AtChar(q, p, CALL, 17);
    assert q[p + 5] == ' ' && q[p + 6] == '+' && q[p + 7] == ' ' && q[p + 8] == 'i' && q[p + 16] == ' ' && q[p + 17] == '\'';
  }

  lemma {:induction false} IntervalFound(q: string, p: nat)
    requires At(q, p, CALL)
    ensures LiteralStart(q, p + 4) == Here((), p + 17) && q[p + 17] == '\''
  {
    SpacesAt(q, p);
    KeywordAt(q, p);
  }

  lemma {:induction false} LiteralFound(q: string, open: nat, lit: string)
    requires open < |q| && q[open] == '\'' && At(q, open + 1, lit + "'") && forall i :: 0 <= i < |lit| ==> lit[i] != '\''
    ensures TakeQuoted(q, open) == Here(lit, open + 1 + |lit|)
  {
    var e := open + 1 + |lit|;
    AtChar(q, open + 1, lit + "'", |lit|);
    forall k | 0 <= k < |lit| ensures q[open + 1 + k] == lit[k] {
      AtChar(q, open + 1, lit + "'", k);
    }
    assert forall k :: open + 1 <= k < e ==> q[k] == lit[k - open - 1];
    QuoteEndIs(q, open + 1, e);
    assert q[open + 1..e] == lit;
  }

  lemma {:induction false} CallPut(q: string, p: nat, lit: string, e: nat)
    requires p + 17 < |q| && IsIdentStart(q[p]) && IdentEnd(q, p + 1) == p + 3 && NameOf(q[p..p + 3]).NowName?
    requires MatchCall(q, p + 3) == Here((), p + 4)
    requires LiteralStart(q, p + 4) == Here((), p + 17) && TakeQuoted(q, p + 17) == Here(lit, e)
    ensures TakeFunction(q, p) == Here(CallInterval(lit), e)
  {
  }

  /** A call of now() with an interval literal is found wherever it stands. */
  lemma {:induction false} CallFound(q: string, p: nat, lit: string)
    requires At(q, p, CALL) && At(q, p + 18, lit + "'") && forall i :: 0 <= i < |lit| ==> lit[i] != '\''
    ensures IsIdentStart(q[p]) && TakeFunction(q, p) == Here(CallInterval(lit), p + 18 + |lit|)
  {
    NowFound(q, p);
    IntervalFound(q, p);
    LiteralFound(q, p + 17, lit);
    CallPut(q, p, lit, p + 18 + |lit|);
  }

  lemma {:induction false} CallOutside(q: string, i: nat, call: Call, e: nat, nargs: nat)
    requires i < |q| && IsIdentStart(q[i]) && TakeFunction(q, i) == Here(call, e)
    ensures Outside(q, i, nargs) == (Expr(call), e + 1)
  {
    assert TakePlaceholder(q, i, nargs).NotHere?;
  }

  lemma {:induction false} OutsideToken(q: string, i: nat, t: Token, next: nat, nargs: nat)
    requires i < |q| && q[i] != '\'' && Outside(q, i, nargs) == (t, next)
    ensures Tokens(q, i, false, nargs) == More(t, Tokens(q, next, false, nargs))
  {
  }

  lemma {:induction false} CallToken(q: string, i: nat, call: Call, e: nat, nargs: nat)
    requires i < |q| && IsIdentStart(q[i]) && TakeFunction(q, i) == Here(call, e)
    ensures Tokens(q, i, false, nargs) == More(Expr(call), Tokens(q, e + 1, false, nargs))
  {
    CallOutside(q, i, call, e, nargs);
    OutsideToken(q, i, Expr(call), e + 1, nargs);
  }

  lemma {:induction false} LastToken(q: string, i: nat, nargs: nat)
    requires i + 1 == |q| && q[i] == ')'
    ensures Tokens(q, i, false, nargs) == More(Plain(')'), End)
  {
    PlainToken(q, i, nargs);
  }

  lemma {:induction false} TwoTokens(q: string, call: Call, e: nat, nargs: nat)
    requires 1 < |q| == e + 2 && q[e + 1] == ')' && IsIdentStart(q[1]) && TakeFunction(q, 1) == Here(call, e)
    ensures Tokens(q, 1, false, nargs) == More(Expr(call), More(Plain(')'), End))
  {
    CallToken(q, 1, call, e, nargs);
    LastToken(q, e + 1, nargs);
  }

  lemma {:induction false} ThreeTokens(q: string, call: Call, e: nat, nargs: nat)
    requires 1 < |q| == e + 2 && q[0] == '(' && q[e + 1] == ')' && IsIdentStart(q[1]) && TakeFunction(q, 1) == Here(call, e)
    ensures Tokens(q, 0, false, nargs) == More(Plain('('), More(Expr(call), More(Plain(')'), End)))
  {
    PlainToken(q, 0, nargs);
    TwoTokens(q, call, e, nargs);
  }

  /** The generated interval expression is read as a parenthesis, the call with its literal, and a parenthesis. */
  lemma {:induction false} IntervalTokens(q: string, lit: string, nargs: nat)
    requires q == BEFORE + (lit + "')") && forall i :: 0 <= i < |lit| ==> lit[i] != '\''
    ensures Tokens(q, 0, false, nargs) == More(Plain('('), More(Expr(CallInterval(lit)), More(Plain(')'), End)))
  {
    assert lit + "')" == (lit + "'") + ")";
    assert At(q, 0, "(" + CALL);
    AtParts(q, 0, "(", CALL);
    assert At(q, 19, lit + "'");
    CallFound(q, 1, lit);
    assert q[20 + |lit|] == ')';
    ThreeTokens(q, CallInterval(lit), 19 + |lit|, nargs);
  }

  // ------------------------------------------------------------------ commutation

  /** Nowhere do the letters n and c stand around a single space, so there is no ON CONFLICT. */
  predicate NoConflict(q: string)
  {
    forall k :: 0 < k < |q| - 1 && q[k] == ' ' ==> LowerChar(q[k - 1]) != 'n' || LowerChar(q[k + 1]) != 'c'
  }

  lemma {:induction false} NoClauseAt(q: string, j: nat)
    requires NoConflict(q)
    ensures !At(Lower(q), j, ON_CONFLICT)
  {
    if j + 3 < |q| {
      assert ON_CONFLICT[1] == 'n' && ON_CONFLICT[2] == ' ' && ON_CONFLICT[3] == 'c';
      assert Lower(q)[j + 1] != ON_CONFLICT[1] || Lower(q)[j + 2] != ON_CONFLICT[2] || Lower(q)[j + 3] != ON_CONFLICT[3] by {
        if q[j + 2] == ' ' {
          assert LowerChar(q[j + 2 - 1]) != 'n' || LowerChar(q[j + 2 + 1]) != 'c';
        }
      }
    }
  }

  lemma {:induction false} NoClause(d: Dialect, q: string)
    requires NoConflict(q)
    ensures Prepared(d, q) == q
  {
    var r := IndexOf(Lower(q), ON_CONFLICT, 0);
    if r.Here? {
      NoClauseAt(q, r.end);
    }
  }

  lemma {:induction false} WithoutArguments(d: Dialect, q: string, args: seq<Arg>, ts: TokenList)
    requires d != Postgres && NoConflict(q) && ts == Tokens(q, 0, false, |args|) && EmitArgs(ts, args) == []
    ensures Rewritten(d, q, args) == (Emit(d, ts), args)
  {
    NoClause(d, q);
  }

  lemma {:induction false} EmitLast(d: Dialect, t: Token, args: seq<Arg>)
    requires !t.Param?
    ensures InRange(More(t, End), |args|) && Emit(d, More(t, End)) == EmitOne(d, t) && EmitArgs(More(t, End), args) == []
  {
    EmitCons(d, t, End, args);
    assert EmitOne(d, t) + "" == EmitOne(d, t);
  }

  lemma {:induction false} EmitThree(d: Dialect, call: Call, args: seq<Arg>)
    ensures var ts := More(Plain('('), More(Expr(call), More(Plain(')'), End)));
      InRange(ts, |args|) && Emit(d, ts) == "(" + (ExprOf(d, call) + ")") && EmitArgs(ts, args) == []
  {
    var last := More(Plain(')'), End);
    EmitLast(d, Plain(')'), args);
    EmitCons(d, Expr(call), last, args);
    EmitCons(d, Plain('('), More(Expr(call), last), args);
  }

  lemma {:induction false} ExpressionFree(lit: string)
    requires NoConflict(lit)
    ensures NoConflict(BEFORE + (lit + "')"))
  {
    var q := BEFORE + (lit + "')");
    forall k | 0 < k < |q| - 1 && q[k] == ' ' ensures LowerChar(q[k - 1]) != 'n' || LowerChar(q[k + 1]) != 'c' {
      if k < 18 {
        assert q[k] == BEFORE[k] && q[k - 1] == BEFORE[k - 1];
      } else if 19 < k < 19 + |lit| - 1 {
        assert q[k] == lit[k - 19] && q[k - 1] == lit[k - 20] && q[k + 1] == lit[k - 18];
      } else if k == 19 {
        assert q[k - 1] == BEFORE[18];
      } else if k == 19 + |lit| - 1 {
        assert q[k + 1] == '\'';
      }
    }
  }

  /** Rewriting the PostgreSQL expression for an interval from now gives the dialect's, in its parentheses. */
  lemma {:induction false} LiteralCommutes(d: Dialect, lit: string, args: seq<Arg>)
    requires d != Postgres && NoneOf(lit, '\'') && NoConflict(lit)
    ensures Rewritten(d, BEFORE + (lit + "')"), args) == ("(" + (AddInterval(d, Now(d), lit) + ")"), args)
  {
    var q := BEFORE + (lit + "')");
    ExpressionFree(lit);
    IntervalTokens(q, lit, |args|);
    EmitThree(d, CallInterval(lit), args);
    WithoutArguments(d, q, args, More(Plain('('), More(Expr(CallInterval(lit)), More(Plain(')'), End))));
  }

  /** Two words around a single space are two fields. */
  lemma {:induction false} TwoWords(s: string, j: nat, k: nat)
    requires j <= k && k + 2 < |s| && !IsSpace(s[k]) && s[k + 1] == ' ' && !IsSpace(s[k + 2])
    ensures |Fields(s, j)| >= 2
    decreases k - j
  {
    if IsSpace(s[j]) {
      TwoWords(s, j + 1, k);
    } else {
      var e := FieldEnd(s, j + 1);
      FieldStopsAt(s, j + 1, k + 1);
      if e <= k {
        TwoWords(s, e, k);
      } else {
        assert Fields(s, k + 1) == Fields(s, k + 2);
      }
    }
  }

  lemma {:induction false} FieldStopsAt(s: string, j: nat, m: nat)
    requires j <= m < |s| && IsSpace(s[m])
    ensures FieldEnd(s, j) <= m
    decreases m - j
  {
    if j < m {
      FieldStopsAt(s, j + 1, m);
    }
  }

  lemma {:induction false} UnitFree(lit: string)
    ensures NoConflict(ParseInterval(lit).1)
  {
    var unit := ParseInterval(lit).1;
    UnitKinds(lit);
    if !NoSpaces(unit) {
      forall k | 0 < k < |unit| - 1 && unit[k] == ' ' ensures LowerChar(unit[k - 1]) != 'n' || LowerChar(unit[k + 1]) != 'c' {
        assert unit[k] == LowerChar(lit[k]) && unit[k - 1] == LowerChar(lit[k - 1]) && unit[k + 1] == LowerChar(lit[k + 1]);
        if LowerChar(unit[k - 1]) == 'n' && LowerChar(unit[k + 1]) == 'c' {
          TwoWords(lit, 0, k - 1);
        }
      }
    }
  }

  /** The rendering of an interval holds no quote and no keyword. */
  lemma {:induction false} AmountText(lit: string)
    requires NoneOf(lit, '\'')
    ensures var (amount, unit) := ParseInterval(lit); NoneOf(Amount(amount, unit), '\'') && NoConflict(Amount(amount, unit))
  {
    var (amount, unit) := ParseInterval(lit);
    UnitNone(lit);
    AmountNone(amount, unit, '\'');
    UnitFree(lit);
    AmountFree(amount, unit);
  }

  lemma {:induction false} AmountFree(amount: int, unit: string)
    requires NoConflict(unit)
    ensures NoConflict(Amount(amount, unit))
  {
    var n, a := |RenderInt(amount)|, Amount(amount, unit);
    assert forall i :: 0 <= i < n ==> IsDigit(a[i]) || a[i] == '-';
    forall k | 0 < k < |a| - 1 && a[k] == ' ' ensures LowerChar(a[k - 1]) != 'n' || LowerChar(a[k + 1]) != 'c' {
      if k > n + 1 {
        assert a[k] == unit[k - n - 1] && a[k - 1] == unit[k - n - 2] && a[k + 1] == unit[k - n];
      }
    }
  }

  lemma {:induction false} PostgresText(lit: string, amount: int, unit: string)
    requires ParseInterval(lit) == (amount, unit)
    ensures AddInterval(Postgres, Now(Postgres), lit) == BEFORE + (Amount(amount, unit) + "')")
  {
    var rest := Amount(amount, unit) + "')";
    SqlRewrite.Assoc("(" + Now(Postgres) + " + interval ", "'", rest);
    assert ("(" + Now(Postgres) + " + interval ") + "'" == BEFORE;
  }

  lemma {:induction false} OtherSize(d: Dialect, a: string, b: string)
    requires Size(ParseInterval(a)) != Size(ParseInterval(b))
    ensures |AddInterval(d, Now(d), a)| != |AddInterval(d, Now(d), b)|
  {
  }

  /**
   For every interval text without a quote: rewriting what AddInterval generates
   for PostgreSQL gives what it generates for the dialect, in parentheses, with
   the arguments unchanged, if and only if the unit is one word that does not
   end in s.
   */
  lemma {:induction false} IntervalCommutesIff(d: Dialect, lit: string, args: seq<Arg>)
    requires d != Postgres && NoneOf(lit, '\'')
    ensures Rewritten(d, AddInterval(Postgres, Now(Postgres), lit), args)
         == ("(" + (AddInterval(d, Now(d), lit) + ")"), args)
      <==> IsUnit(ParseInterval(lit).1)
  {
    var (amount, unit) := ParseInterval(lit);
    var again := Amount(amount, unit);
    PostgresText(lit, amount, unit);
    AmountText(lit);
    LiteralCommutes(d, again, args);
    SameExprIff(d, lit, again);
    WrapSame(AddInterval(d, Now(d), again), AddInterval(d, Now(d), lit));
  }

  lemma {:induction false} SameExprIff(d: Dialect, lit: string, again: string)
    requires again == Amount(ParseInterval(lit).0, ParseInterval(lit).1)
    ensures AddInterval(d, Now(d), again) == AddInterval(d, Now(d), lit) <==> IsUnit(ParseInterval(lit).1)
  {
    ReadBackIff(lit);
    if IsUnit(ParseInterval(lit).1) {
      SameInterval(d, lit, again);
    } else {
      OtherSize(d, again, lit);
    }
  }

  lemma {:induction false} WrapSame(x: string, y: string)
    ensures "(" + (x + ")") == "(" + (y + ")") <==> x == y
  {
    var a, b := "(" + (x + ")"), "(" + (y + ")");
    if a == b {
      assert x == a[1..|a| - 1] && y == b[1..|b| - 1];
    }
  }

  lemma {:induction false} SameInterval(d: Dialect, a: string, b: string)
    requires ParseInterval(a) == ParseInterval(b)
    ensures AddInterval(d, Now(d), a) == AddInterval(d, Now(d), b)
  {
  }

  // ------------------------------------------------- the calls without an interval

  lemma {:induction false} CallTokens(q: string, word: string, call: Call, nargs: nat)
    requires IsIdent(word) && IsIdentStart(word[0]) && q == word + "()" && NameOf(word) == (if call.CallNow? then NowName else UUIDName)
    requires !call.CallInterval?
    ensures Tokens(q, 0, false, nargs) == More(Expr(call), End)
  {
    var j := |word|;
    forall k | 1 <= k < j ensures IsIdentPart(q[k]) {
      assert q[k] == word[k];
    }
    IdentEndIs(q, 1, j);
    assert q[0..j] == word && q[0] == word[0] && q[j] == '(' && q[j + 1] == ')';
    assert MatchCall(q, j) == Here((), j + 1);
    CallToken(q, 0, call, j + 1, nargs);
    assert Tokens(q, |q|, false, nargs) == End;
  }

  lemma {:induction false} WordAlone(q: string, word: string)
    requires IsIdent(word) && q == word + "()"
    ensures NoConflict(q)
  {
    forall k | 0 < k < |q| ensures q[k] != ' ' {
      assert k < |word| ==> q[k] == word[k];
    }
  }

  lemma {:induction false} OneCall(d: Dialect, q: string, word: string, call: Call, args: seq<Arg>, ts: TokenList)
    requires d != Postgres && IsIdent(word) && IsIdentStart(word[0]) && q == word + "()" && !call.CallInterval?
    requires NameOf(word) == (if call.CallNow? then NowName else UUIDName) && ts == More(Expr(call), End)
    requires InRange(ts, |args|) && EmitArgs(ts, args) == []
    ensures Rewritten(d, q, args) == (Emit(d, ts), args)
  {
    WordAlone(q, word);
    CallTokens(q, word, call, |args|);
    WithoutArguments(d, q, args, ts);
  }

  lemma {:induction false} NowWord(word: string)
    requires word == "now"
    ensures IsIdent(word) && IsIdentStart(word[0]) && NameOf(word) == NowName && Now(Postgres) == word + "()"
  {
    assert Lower(word) == "now";
  }

  lemma {:induction false} UUIDWord(word: string)
    requires word == "gen_random_uuid"
    ensures IsIdent(word) && IsIdentStart(word[0]) && NameOf(word) == UUIDName && RandomUUIDExpr(Postgres) == word + "()"
  {
    assert Lower(word) == "gen_random_uuid";
  }

  lemma {:induction false} NowEmitted(d: Dialect, args: seq<Arg>)
    ensures var ts := More(Expr(CallNow), End); InRange(ts, |args|) && Emit(d, ts) == Now(d) && EmitArgs(ts, args) == []
  {
    EmitLast(d, Expr(CallNow), args);
  }

  lemma {:induction false} UUIDEmitted(d: Dialect, args: seq<Arg>)
    ensures var ts := More(Expr(CallUUID), End); InRange(ts, |args|) && Emit(d, ts) == RandomUUIDExpr(d) && EmitArgs(ts, args) == []
  {
    EmitLast(d, Expr(CallUUID), args);
  }

  /** Rewriting the PostgreSQL expression for the current time gives the dialect's. */
  lemma {:induction false} NowCommutes(d: Dialect, args: seq<Arg>)
    requires d != Postgres
    ensures Rewritten(d, Now(Postgres), args) == (Now(d), args)
  {
    var word := "now";
    NowWord(word);
    NowEmitted(d, args);
    OneCall(d, Now(Postgres), word, CallNow, args, More(Expr(CallNow), End));
  }

  /** Rewriting the PostgreSQL expression for a random identifier gives the dialect's. */
  lemma {:induction false} RandomUUIDCommutes(d: Dialect, args: seq<Arg>)
    requires d != Postgres
    ensures Rewritten(d, RandomUUIDExpr(Postgres), args) == (RandomUUIDExpr(d), args)
  {
    var word := "gen_random_uuid";
    UUIDWord(word);
    UUIDEmitted(d, args);
    OneCall(d, RandomUUIDExpr(Postgres), word, CallUUID, args, More(Expr(CallUUID), End));
  }
}
