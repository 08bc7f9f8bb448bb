/**
 The IN-list generator of db/query.go, and the proof that rewriting the list
 generated for PostgreSQL gives the list generated for the target dialect,
 whatever the column expression, as long as that expression itself holds nothing
 to rewrite.
 */
module SqlInLists {
  import opened Decimal
  import opened SqlScan
  import opened SqlRewrite
  import opened SqlMeaning
  import opened SqlUpsert
  import opened SqlQuery

  function Placeholders(d: Dialect, n: nat): (ph: seq<string>)
  {
    seq(n, i requires 0 <= i < n => Placeholder(d, i + 1))
  }

  /** InList, whose arguments are the values themselves. */
  function InListText(d: Dialect, column: string, n: nat): (s: string)
  {
    if n == 0 then "1 = 0" else (column + " IN (") + (JoinFrom(Placeholders(d, n), 0) + ")")
  }

  method InList(d: Dialect, column: string, values: seq<Arg>) returns (text: string, args: seq<Arg>)
    ensures text == InListText(d, column, |values|) && args == values
  {
    if values == [] {
      return "1 = 0", [];
    }
    var ph: seq<string> := [];
    args := [];
    var i := 0;
    while i < |values|
      invariant 0 <= i <= |values| && args == values[..i] && ph == Placeholders(d, i)
    {
      ph, args, i := ph + [Placeholder(d, i + 1)], args + [values[i]], i + 1;
    }
    text := (column + " IN (") + (JoinFrom(ph, 0) + ")");
  }

  // -------------------------------------------------------- reading a placeholder

  lemma {:induction false} DigitsEndIs(q: string, j: nat, e: nat)
    requires j <= e <= |q| && (forall k :: j <= k < e ==> IsDigit(q[k])) && (e < |q| ==> !IsDigit(q[e]))
    ensures DigitsEnd(q, j) == e
    decreases e - j
  {
    if j < e {
      DigitsEndIs(q, j + 1, e);
    }
  }

  /** A rendered placeholder reads back as its number. */
  lemma {:induction false} MarkTaken(q: string, i: nat, k: nat, nargs: nat)
    requires 1 <= k <= nargs && At(q, i, "$" + Itoa(k))
    requires var e := i + 1 + |Itoa(k)|; e < |q| ==> !IsDigit(q[e])
    ensures i < |q| && TakePlaceholder(q, i, nargs) == Here(k, i + |Itoa(k)|)
  {
    var digits := Itoa(k);
    var e := i + 1 + |digits|;
    AtChar(q, i, "$" + digits, 0);
    forall j | 0 <= j < |digits| ensures q[i + 1 + j] == digits[j] {
      AtChar(q, i, "$" + digits, j + 1);
      assert q[i + (j + 1)] == ("$" + digits)[j + 1];
    }
    assert q[i + 1..e] == digits;
    assert forall j :: i + 1 <= j < e ==> q[j] == digits[j - i - 1];
    DigitsEndIs(q, i + 1, e);
    AtoiItoa(k);
  }

  lemma {:induction false} MarkRun(q: string, i: nat, e: nat, k: nat, nargs: nat)
    requires 1 <= k <= nargs && At(q, i, "$" + Itoa(k)) && e == i + 1 + |Itoa(k)| && (e < |q| ==> !IsDigit(q[e]))
    ensures e <= |q| && Tokens(q, i, false, nargs) == More(Param(k), Tokens(q, e, false, nargs))
  {
    MarkTaken(q, i, k, nargs);
    AtChar(q, i, "$" + Itoa(k), 0);
    TokensNext(q, i, false, nargs);
  }

  // ------------------------------------------------- rewriting a generated list

  /** The list from placeholder k on, with the closing parenthesis. */
  function Listed(d: Dialect, n: nat, k: nat): (s: string)
    requires k <= n
  {
    JoinFrom(Placeholders(d, n), k) + ")"
  }

  lemma {:induction false} ListedNext(d: Dialect, n: nat, k: nat)
    requires k < n
    ensures Listed(d, n, k) == Sep(k) + (Placeholder(d, k + 1) + Listed(d, n, k + 1))
  {
    SqlRewrite.Assoc(Sep(k) + Placeholder(d, k + 1), JoinFrom(Placeholders(d, n), k + 1), ")");
    SqlRewrite.Assoc(Sep(k), Placeholder(d, k + 1), Listed(d, n, k + 1));
  }

  lemma {:induction false} ListedOpens(d: Dialect, n: nat, k: nat)
    requires 0 < k <= n
    ensures Listed(d, n, k) != "" && !IsDigit(Listed(d, n, k)[0])
  {
    if k < n {
      ListedNext(d, n, k);
    }
  }

  /** A separator, read one character at a time. */
  function SepTokens(k: nat, more: TokenList): (ts: TokenList)
  {
    if k == 0 then more else More(Plain(','), More(Plain(' '), more))
  }

  /** The tokens of a list from placeholder k on. */
  function ListTokens(n: nat, k: nat): (ts: TokenList)
    requires k <= n
    decreases n - k
  {
    if k == n then More(Plain(')'), End) else SepTokens(k, More(Param(k + 1), ListTokens(n, k + 1)))
  }

  /** Where the separator, the placeholder and the rest of a list stand. */
  lemma {:induction false} ItemPlaces(q: string, i: nat, k: nat, n: nat) returns (m: nat, e: nat)
    requires k < n && At(q, i, Listed(Postgres, n, k))
    ensures At(q, i, Sep(k)) && m == i + |Sep(k)|
    ensures At(q, m, "$" + Itoa(k + 1)) && e == m + 1 + |Itoa(k + 1)|
    ensures At(q, e, Listed(Postgres, n, k + 1)) && e < |q| && !IsDigit(q[e])
    ensures e + |Listed(Postgres, n, k + 1)| == i + |Listed(Postgres, n, k)|
  {
    var mark, rest := Placeholder(Postgres, k + 1), Listed(Postgres, n, k + 1);
    m := i + |Sep(k)|;
    e := m + |mark|;
    ListedNext(Postgres, n, k);
    AtParts(q, i, Sep(k), mark + rest);
    AtParts(q, m, mark, rest);
    ListedOpens(Postgres, n, k + 1);
    AtChar(q, e, rest, 0);
  }

  lemma {:induction false} SepPlain(q: string, i: nat, k: nat, nargs: nat, rest: TokenList)
    requires At(q, i, Sep(k)) && rest == Tokens(q, i + |Sep(k)|, false, nargs)
    ensures Tokens(q, i, false, nargs) == SepTokens(k, rest)
  {
    if k > 0 {
      AtChar(q, i, ", ", 0);
      AtChar(q, i, ", ", 1);
      assert q[i + 0] == ',' && q[i + 1] == ' ';
      PlainToken(q, i, nargs);
      PlainToken(q, i + 1, nargs);
    }
  }

  /** The list from placeholder k on is read as its separators and placeholders. */
  lemma {:induction false} ListRun(q: string, i: nat, k: nat, n: nat)
    requires k <= n && At(q, i, Listed(Postgres, n, k)) && i + |Listed(Postgres, n, k)| == |q|
    ensures Tokens(q, i, false, n) == ListTokens(n, k)
    decreases n - k
  {
    if k == n {
      AtChar(q, i, Listed(Postgres, n, k), 0);
      PlainToken(q, i, n);
    } else {
      var m, e := ItemPlaces(q, i, k, n);
      ListRun(q, e, k + 1, n);
      var rest := More(Param(k + 1), ListTokens(n, k + 1));
      assert rest == Tokens(q, m, false, n) by {
        MarkRun(q, m, e, k + 1, n);
      }
      SepPlain(q, i, k, n, rest);
    }
  }

  lemma {:induction false} SepEmits(d: Dialect, k: nat, more: TokenList, args: seq<Arg>)
    requires InRange(more, |args|)
    ensures InRange(SepTokens(k, more), |args|)
    ensures Emit(d, SepTokens(k, more)) == Sep(k) + Emit(d, more) && EmitArgs(SepTokens(k, more), args) == EmitArgs(more, args)
  {
    if k == 0 {
      assert Sep(k) + Emit(d, more) == Emit(d, more);
    } else {
      EmitCons(d, Plain(' '), more, args);
      EmitCons(d, Plain(','), More(Plain(' '), more), args);
      SqlRewrite.Assoc(",", " ", Emit(d, more));
    }
  }

  /** Such a list writes marks and takes the arguments in order. */
  lemma {:induction false} ListEmits(d: Dialect, k: nat, args: seq<Arg>)
    requires d != Postgres && k <= |args|
    ensures var ts := ListTokens(|args|, k);
      InRange(ts, |args|) && Emit(d, ts) == Listed(d, |args|, k) && EmitArgs(ts, args) == args[k..]
    decreases |args| - k
  {
    var n := |args|;
    if k == n {
      assert Emit(d, More(Plain(')'), End)) == ")" + Emit(d, End);
    } else {
      assert args[k..] == [args[k]] + args[k + 1..];
      ListEmits(d, k + 1, args);
      ListedNext(d, n, k);
      var item := More(Param(k + 1), ListTokens(n, k + 1));
      assert Emit(d, item) == "?" + Listed(d, n, k + 1) && EmitArgs(item, args) == args[k..];
      SepEmits(d, k, item, args);
    }
  }

  // ---------------------------------------------------------- the column expression

  /** Text that a list can follow: its quotes are closed and it holds nothing to rewrite. */
  ghost predicate ColumnText(c: string, nargs: nat)
  {
    AllInert(c, nargs) && !Odd(c, |c|) && IndexOf(Lower(c), ON_CONFLICT, 0).NotHere?
  }

  /** Text after the column: a space and a letter. */
  predicate Follows(q: string, c: string)
  {
    |q| > |c| + 1 && q[..|c|] == c && q[|c|] == ' ' && q[|c| + 1] == 'I'
  }

  lemma {:induction false} SlicePrefix(q: string, c: string, i: nat, j: nat)
    requires Follows(q, c) && i <= j <= |c|
    ensures q[i..j] == c[i..j]
  {
    forall k | i <= k < j ensures q[k] == c[k] {
      assert q[..|c|][k] == c[k];
    }
  }

  lemma {:induction false} OddPrefix(q: string, c: string, i: nat)
    requires Follows(q, c) && i <= |c|
    ensures Odd(q, i) == Odd(c, i)
  {
    if i > 0 {
      OddPrefix(q, c, i - 1);
      assert q[i - 1] == c[i - 1];
    }
  }

  lemma {:induction false} DigitsPrefix(q: string, c: string, j: nat)
    requires Follows(q, c) && j <= |c|
    ensures DigitsEnd(q, j) == DigitsEnd(c, j)
    decreases |c| - j
  {
    if j < |c| {
      assert q[j] == c[j];
      DigitsPrefix(q, c, j + 1);
    }
  }

  lemma {:induction false} IdentPrefix(q: string, c: string, j: nat)
    requires Follows(q, c) && j <= |c|
    ensures IdentEnd(q, j) == IdentEnd(c, j)
    decreases |c| - j
  {
    if j < |c| {
      assert q[j] == c[j];
      IdentPrefix(q, c, j + 1);
    }
  }

  lemma {:induction false} SpacePrefix(q: string, c: string, j: nat)
    requires Follows(q, c) && j <= |c|
    ensures SpaceEnd(q, j) == if SpaceEnd(c, j) < |c| then SpaceEnd(c, j) else |c| + 1
    decreases |c| - j
  {
    if j < |c| {
      assert q[j] == c[j];
      SpacePrefix(q, c, j + 1);
    } else {
      assert SpaceEnd(q, |c| + 1) == |c| + 1;
    }
  }

  lemma {:induction false} CallPrefix(q: string, c: string, from: nat)
    requires Follows(q, c) && from <= |c| && MatchCall(c, from).NotHere?
    ensures MatchCall(q, from).NotHere?
  {
    SpacePrefix(q, c, from);
    var i := SpaceEnd(c, from);
    if i < |c| && c[i] == '(' {
      assert q[i] == c[i];
      SpacePrefix(q, c, i + 1);
      var j := SpaceEnd(c, i + 1);
      if j < |c| {
        assert q[j] == c[j];
      }
    }
  }

  lemma {:induction false} OutsidePrefix(q: string, c: string, i: nat, nargs: nat)
    requires Follows(q, c) && i < |c| && Outside(c, i, nargs) == (Plain(c[i]), i + 1)
    ensures Outside(q, i, nargs) == (Plain(q[i]), i + 1)
  {
    assert q[i] == c[i];
    DigitsPrefix(q, c, i + 1);
    SlicePrefix(q, c, i + 1, DigitsEnd(c, i + 1));
    assert i + 1 < |c| ==> q[i + 1] == c[i + 1];
    assert TakePlaceholder(q, i, nargs).NotHere?;
    FunctionPrefix(q, c, i);
  }

  lemma {:induction false} FunctionPrefix(q: string, c: string, i: nat)
    requires Follows(q, c) && i < |c| && TakeFunction(c, i).NotHere?
    ensures TakeFunction(q, i).NotHere?
  {
    assert q[i] == c[i];
    IdentPrefix(q, c, i + 1);
    var j := IdentEnd(c, i + 1);
    SlicePrefix(q, c, i, j);
    if IsIdentStart(c[i]) {
      if MatchCall(c, j).NotHere? {
        CallPrefix(q, c, j);
      } else {
        assert NameOf(q[i..j]).OtherName?;
      }
    }
  }

  // ----------------------------------------------------------------- the whole list

  ghost predicate InertTo(q: string, e: nat, nargs: nat)
  {
    e <= |q| && forall k :: 0 <= k < e ==> Inert(q, k, nargs)
  }

  /** An inert token before e does not run over e, unless a quote stands there. */
  lemma {:induction false} InertStep(d: Dialect, q: string, i: nat, e: nat, nargs: nat)
    requires i < e < |q| && q[e] != '\'' && InertTo(q, e, nargs)
    ensures var s := TokenAt(q, i, Odd(q, i), nargs);
      s.next <= e && s.inQuote == Odd(q, s.next) && !s.token.Param? && EmitOne(d, s.token) == q[i..s.next]
  {
    assert Inert(q, i, nargs);
    InertToken(d, q, i, nargs);
  }

  lemma {:induction false} SliceJoin(q: string, i: nat, m: nat, e: nat)
    requires i <= m <= e <= |q|
    ensures q[i..m] + q[m..e] == q[i..e]
  {
  }

  lemma {:induction false} EmitMore(d: Dialect, ts: TokenList, a: string, b: string, rest: TokenList, args: seq<Arg>)
    requires ts.More? && !ts.first.Param? && EmitOne(d, ts.first) == a && InRange(ts, |args|) && InRange(rest, |args|)
    requires Emit(d, ts.rest) == b + Emit(d, rest) && EmitArgs(ts.rest, args) == EmitArgs(rest, args)
    ensures Emit(d, ts) == (a + b) + Emit(d, rest) && EmitArgs(ts, args) == EmitArgs(rest, args)
  {
    SqlRewrite.Assoc(a, b, Emit(d, rest));
    assert EmitArgs(ts, args) == ArgsOne(ts.first, args) + EmitArgs(ts.rest, args);
  }

  /** Inert text up to e is emitted as it stands, and the rest follows. */
  lemma {:induction false} InertPrefix(d: Dialect, q: string, i: nat, e: nat, args: seq<Arg>, ts: TokenList, rest: TokenList)
    requires i <= e < |q| && q[e] != '\'' && InertTo(q, e, |args|)
    requires ts == Tokens(q, i, Odd(q, i), |args|) && rest == Tokens(q, e, Odd(q, e), |args|)
    ensures Emit(d, ts) == q[i..e] + Emit(d, rest) && EmitArgs(ts, args) == EmitArgs(rest, args)
    decreases e - i
  {
    if i == e {
      assert q[i..e] == "";
    } else {
      var m := TokenAt(q, i, Odd(q, i), |args|).next;
      InertStep(d, q, i, e, |args|);
      TokensNext(q, i, Odd(q, i), |args|);
      InertPrefix(d, q, m, e, args, ts.rest, rest);
      EmitMore(d, ts, q[i..m], q[m..e], rest, args);
      SliceJoin(q, i, m, e);
    }
  }

  lemma {:induction false} WordChars(q: string, p: nat)
    requires At(q, p, " IN ($")
    ensures q[p] == ' ' && q[p + 1] == 'I' && q[p + 2] == 'N' && q[p + 3] == ' ' && q[p + 4] == '(' && q[p + 5] == '$'
  {
    AtChar(q, p, " IN ($", 0);
    AtChar(q, p, " IN ($", 1);
    AtChar(q, p, " IN ($", 2);
    AtChar(q, p, " IN ($", 3);
    AtChar(q, p, " IN ($", 4);
    AtChar(q, p, " IN ($", 5);
  }

  /** A letter of the word IN before the list does not start a call. */
  lemma {:induction false} WordNoCall(q: string, i: nat, p: nat)
    requires At(q, p, " IN ($") && (i == p + 1 || i == p + 2)
    ensures TakeFunction(q, i).NotHere?
  {
    WordChars(q, p);
    IdentEndIs(q, i + 1, p + 3);
    assert SpaceEnd(q, p + 3) == p + 4 && SpaceEnd(q, p + 5) == p + 5;
    assert MatchCall(q, p + 3).NotHere?;
  }

  lemma {:induction false} WordInert(q: string, p: nat, nargs: nat, k: nat)
    requires At(q, p, " IN ($") && k < 5
    ensures Outside(q, p + k, nargs) == (Plain(q[p + k]), p + k + 1)
  {
    WordChars(q, p);
    if k == 1 || k == 2 {
      WordNoCall(q, p + k, p);
    }
  }

  lemma {:induction false} HeadInert(q: string, c: string, nargs: nat, k: nat)
    requires ColumnText(c, nargs) && Follows(q, c) && At(q, |c|, " IN ($") && k < |c| + 5
    ensures Inert(q, k, nargs)
  {
    if k < |c| {
      assert Inert(c, k, nargs);
      OddPrefix(q, c, k);
      if !Odd(c, k) {
        OutsidePrefix(q, c, k, nargs);
      }
    } else {
      WordInert(q, |c|, nargs, k - |c|);
    }
  }

  lemma {:induction false} HeadQuoting(q: string, c: string)
    requires Follows(q, c) && !Odd(c, |c|) && At(q, |c|, " IN ($")
    ensures !Odd(q, |c| + 5)
  {
    OddPrefix(q, c, |c|);
    forall k | |c| <= k < |c| + 5 ensures q[k] != '\'' {
      AtChar(q, |c|, " IN ($", k - |c|);
      assert q[|c| + (k - |c|)] == " IN ($"[k - |c|];
    }
    OddSame(q, |c|, |c| + 5);
  }

  // -------------------------------------------------------------- no upsert keyword

  predicate ListChar(c: char)
  {
    c == '$' || c == ',' || c == ' ' || c == ')' || IsDigit(c)
  }

  lemma {:induction false} ListedChars(n: nat, k: nat)
    requires k <= n
    ensures forall i :: 0 <= i < |Listed(Postgres, n, k)| ==> ListChar(Listed(Postgres, n, k)[i])
    decreases n - k
  {
    if k < n {
      ListedChars(n, k + 1);
      ListedNext(Postgres, n, k);
    }
  }

  /** What follows the column holds no letter o, and no space before a letter c. */
  lemma {:induction false} NoKeyword(q: string, c: string, list: string, j: nat)
    requires Follows(q, c) && q == (c + " IN (") + list && IndexOf(Lower(c), ON_CONFLICT, 0).NotHere?
    requires forall i :: 0 <= i < |list| ==> ListChar(list[i])
    ensures !At(Lower(q), j, ON_CONFLICT)
  {
    if At(Lower(q), j, ON_CONFLICT) {
      if j + |ON_CONFLICT| <= |c| {
        KeywordInColumn(q, c, j);
      } else if j < |c| {
        NoStraddling(q, c, j);
      } else {
        AtChar(Lower(q), j, ON_CONFLICT, 0);
        assert LowerChar(q[j]) == 'o';
        NoLetterO(q, c, list, j);
      }
    }
  }

  lemma {:induction false} NoLetterO(q: string, c: string, list: string, j: nat)
    requires q == (c + " IN (") + list && |c| <= j < |q|
    requires forall i :: 0 <= i < |list| ==> ListChar(list[i])
    ensures LowerChar(q[j]) != 'o'
  {
    if j < |c| + 5 {
      assert q[j] == " IN ("[j - |c|];
    } else {
      assert q[j] == list[j - |c| - 5];
    }
  }

  lemma {:induction false} KeywordInColumn(q: string, c: string, j: nat)
    requires Follows(q, c) && At(Lower(q), j, ON_CONFLICT) && j + |ON_CONFLICT| <= |c|
    ensures IndexOf(Lower(c), ON_CONFLICT, 0).Here?
  {
    forall m | 0 <= m < |ON_CONFLICT| ensures Lower(c)[j + m] == ON_CONFLICT[m] {
      AtChar(Lower(q), j, ON_CONFLICT, m);
      assert q[j + m] == c[j + m];
    }
    assert At(Lower(c), j, ON_CONFLICT);
  }

  lemma {:induction false} NoStraddling(q: string, c: string, j: nat)
    requires Follows(q, c) && j < |c| < j + |ON_CONFLICT|
    ensures !At(Lower(q), j, ON_CONFLICT)
  {
    var m: nat := |c| - j;
    if m == 2 {
      assert j + 3 < |q| ==> Lower(q)[j + 3] != ON_CONFLICT[3];
    } else {
      assert Lower(q)[j + m] == ' ' != ON_CONFLICT[m];
    }
  }

  lemma {:induction false} ListPrepared(d: Dialect, q: string, c: string, n: nat)
    requires Follows(q, c) && q == (c + " IN (") + Listed(Postgres, n, 0) && IndexOf(Lower(c), ON_CONFLICT, 0).NotHere?
    ensures Prepared(d, q) == q
  {
    ListedChars(n, 0);
    var r := IndexOf(Lower(q), ON_CONFLICT, 0);
    if r.Here? {
      NoKeyword(q, c, Listed(Postgres, n, 0), r.end);
    }
  }

  // -------------------------------------------------------------------- commutation

  lemma {:induction false} ListPlaces(q: string, c: string, n: nat)
    requires q == (c + " IN (") + Listed(Postgres, n, 0) && n > 0
    ensures Follows(q, c) && At(q, |c|, " IN ($") && q[|c| + 5] == '$'
    ensures At(q, |c| + 5, Listed(Postgres, n, 0)) && |c| + 5 + |Listed(Postgres, n, 0)| == |q|
  {
    ListedNext(Postgres, n, 0);
    assert Listed(Postgres, n, 0)[0] == '$';
  }

  lemma {:induction false} FullListTokens(d: Dialect, q: string, c: string, values: seq<Arg>)
    requires d != Postgres && values != [] && ColumnText(c, |values|) && q == (c + " IN (") + Listed(Postgres, |values|, 0)
    ensures var ts := Tokens(q, 0, false, |values|);
      Emit(d, ts) == (c + " IN (") + Listed(d, |values|, 0) && EmitArgs(ts, values) == values
  {
    var n, e := |values|, |c| + 5;
    ListPlaces(q, c, n);
    forall k | 0 <= k < e ensures Inert(q, k, n) {
      HeadInert(q, c, n, k);
    }
    assert InertTo(q, e, n);
    HeadQuoting(q, c);
    ListRun(q, e, 0, n);
    ListEmits(d, 0, values);
    InertPrefix(d, q, 0, e, values, Tokens(q, 0, false, n), ListTokens(n, 0));
    assert q[0..e] == c + " IN (";
    assert values[0..] == values;
  }

  lemma {:induction false} FullList(d: Dialect, c: string, values: seq<Arg>)
    requires d != Postgres && ColumnText(c, |values|) && values != []
    ensures Rewritten(d, InListText(Postgres, c, |values|), values) == (InListText(d, c, |values|), values)
  {
    var q := (c + " IN (") + Listed(Postgres, |values|, 0);
    ListPlaces(q, c, |values|);
    ListPrepared(d, q, c, |values|);
    FullListTokens(d, q, c, values);
  }

  lemma {:induction false} EmptyList(d: Dialect, q: string)
    requires d != Postgres && q == "1 = 0"
    ensures Rewritten(d, q, []) == (q, [])
  {
    forall k | 0 <= k < |q| ensures Inert(q, k, 0) {
      assert q[k] != '$' && !IsIdentStart(q[k]);
    }
    assert Prepared(d, q) == q;
    PassedThrough(d, q, []);
  }

  /**
   Rewriting the PostgreSQL list gives the list generated for the dialect, with
   the same arguments, for every column expression that holds nothing to rewrite.
   */
  lemma {:induction false} InListCommutes(d: Dialect, column: string, values: seq<Arg>)
    requires ColumnText(column, |values|)
    ensures Rewritten(d, InListText(Postgres, column, |values|), values) == (InListText(d, column, |values|), values)
  {
    if d != Postgres {
      if values == [] {
        EmptyList(d, "1 = 0");
      } else {
        FullList(d, column, values);
      }
    }
  }

  /** Names, possibly qualified, are such expressions. */
  lemma {:induction false} NamesAreColumns(c: string, nargs: nat)
    requires forall i :: 0 <= i < |c| ==> IsIdentPart(c[i]) || c[i] == '.' || c[i] == '"'
    ensures ColumnText(c, nargs)
  {
    OddSame(c, 0, |c|);
    forall i | 0 <= i < |c| ensures Inert(c, i, nargs) {
      var j := IdentEnd(c, i + 1);
      assert MatchCall(c, j).NotHere?;
    }
    forall j: nat ensures !At(Lower(c), j, ON_CONFLICT) {
      assert j + |ON_CONFLICT| <= |c| ==> Lower(c)[j + 2] != ON_CONFLICT[2];
    }
  }
}
