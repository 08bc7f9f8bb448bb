/**
 Rewrite as a whole and the upsert translator with its loops, both from
 db/query.go, and what a rewritten query means: what the query handed to the
 loop meant.  For SQLite that is the source query; for MySQL it is the source
 query if the upsert translator leaves it alone.
 */
module SqlQuery {
  import opened SqlScan
  import opened SqlRewrite
  import opened SqlMeaning
  import opened SqlUpsert

  // --------------------------------------------------------------- whole Rewrite

  /** The query the loop of Rewrite reads. */
  function Prepared(d: Dialect, q: string): (r: string)
  {
    if d == MySQL then TranslateUpsert(q) else q
  }

  function Rewritten(d: Dialect, q: string, args: seq<Arg>): (r: (string, seq<Arg>))
  {
    if d == Postgres then (q, args)
    else
      var ts := Tokens(Prepared(d, q), 0, false, |args|);
      var out := EmitArgs(ts, args);
      (Emit(d, ts), if out == [] then args else out)
  }

  method Rewrite(d: Dialect, query: string, args: seq<Arg>) returns (text: string, out: seq<Arg>)
    ensures (text, out) == Rewritten(d, query, args)
    ensures d == Postgres ==> text == query && out == args
  {
    if d == Postgres {
      return query, args;
    }
    var q := query;
    if d == MySQL {
      q := TranslateMySQLUpsert(query);
    }
    var usedDollar;
    text, out, usedDollar := RewriteLoop(d, q, args);
    if !usedDollar {
      return text, args;
    }
  }

  // ------------------------------------------------------- the upsert translator

  method ReadFirstColumn(s: string) returns (c: string)
    ensures c == FirstColumn(s)
  {
    var p := IndexOf(s, "(", 0);
    if p.NotHere? {
      return "";
    }
    var rest := s[p.end + 1..];
    var end := 0;
    while end < |rest| && rest[end] != ',' && rest[end] != ')'
      invariant 0 <= end <= |rest| && ColumnEnd(rest, end) == ColumnEnd(rest, 0)
    {
      end := end + 1;
    }
    return TrimNameQuotes(TrimSpace(rest[..end]));
  }

  method ReadParens(rest: string) returns (k: nat)
    requires rest != ""
    ensures k == ParenEnd(rest, 1, 1)
  {
    var depth: nat := 1;
    k := 1;
    while k < |rest| && depth > 0
      invariant 1 <= k <= |rest| && ParenEnd(rest, k, depth) == ParenEnd(rest, 1, 1)
    {
      if rest[k] == '(' {
        depth := depth + 1;
      } else if rest[k] == ')' {
        depth := depth - 1;
      }
      k := k + 1;
    }
  }

  method TranslateMySQLUpsert(query: string) returns (r: string)
    ensures r == TranslateUpsert(query)
  {
    var idx := IndexOf(Lower(query), ON_CONFLICT, 0);
    if idx.NotHere? {
      return query;
    }
    var head := query[..idx.end];
    var rest := TrimLeft(query[idx.end + |ON_CONFLICT|..]);
    var col := ReadFirstColumn(head);
    if rest != "" && rest[0] == '(' {
      var k := ReadParens(rest);
      var c := ReadFirstColumn(rest[..k]);
      if c != "" {
        col := c;
      }
      rest := TrimLeft(rest[k..]);
    }
    return Action(query, head, rest, col);
  }

  // -------------------------------------------------------------- source meaning

  /**
   What stands at a position of a `$n` query, and where the next thing stands:
   outside quotes (an even number of them before) a placeholder that names an
   argument is that value and a call is the dialect's expression; all else
   stands for itself.
   */
  function MeaningAt(d: Dialect, q: string, i: nat, args: seq<Arg>): (r: (seq<Piece>, nat))
    requires i < |q|
    ensures i < r.1 <= |q|
  {
    var (t, next) := Outside(q, i, |args|);
    if Odd(q, i) then ([Ch(q[i])], i + 1) else (PiecesOf(d, t, args), next)
  }

  /** What a `$n` query means with its arguments, read off its text from position i on. */
  function Meaning(d: Dialect, q: string, i: nat, args: seq<Arg>): (ps: seq<Piece>)
    requires i <= |q|
    decreases |q| - i
  {
    if i == |q| then []
    else
      var (ps, next) := MeaningAt(d, q, i, args);
      ps + Meaning(d, q, next, args)
  }

  lemma {:induction false} OneChar(c: char)
    ensures Chars([c]) == [Ch(c)]
  {
    assert Chars([c]) == [Ch(c)] + Chars([c][1..]);
  }

  lemma {:induction false} QuoteAt(d: Dialect, q: string, i: nat, args: seq<Arg>)
    requires i < |q| && q[i] == '\''
    ensures MeaningAt(d, q, i, args) == ([Ch('\'')], i + 1)
  {
    OneChar('\'');
  }

  lemma {:induction false} TwoQuotes(rest: seq<Piece>)
    ensures [Ch('\'')] + ([Ch('\'')] + rest) == Chars("''") + rest
  {
    OneChar('\'');
    assert "''"[1..] == "'";
  }

  lemma {:induction false} EscapedMeaning(d: Dialect, q: string, i: nat, args: seq<Arg>)
    requires i + 1 < |q| && q[i] == '\'' && q[i + 1] == '\''
    ensures Meaning(d, q, i, args) == Chars("''") + Meaning(d, q, i + 2, args)
  {
    QuoteAt(d, q, i, args);
    QuoteAt(d, q, i + 1, args);
    TwoQuotes(Meaning(d, q, i + 2, args));
  }

  /** A token that is not an escaped quote is what stands where it was read. */
  lemma {:induction false} TokenMeaningAt(d: Dialect, q: string, i: nat, args: seq<Arg>)
    requires i < |q| && !TokenAt(q, i, Odd(q, i), |args|).token.Escaped?
    ensures var s := TokenAt(q, i, Odd(q, i), |args|);
      MeaningAt(d, q, i, args) == (PiecesOf(d, s.token, args), s.next)
  {
    OneChar(q[i]);
    if q[i] == '\'' {
      QuoteAt(d, q, i, args);
    }
  }

  /** One token means what the text it was read from means. */
  lemma {:induction false} TokenMeaning(d: Dialect, q: string, i: nat, args: seq<Arg>)
    requires i < |q|
    ensures var s := TokenAt(q, i, Odd(q, i), |args|);
      Meaning(d, q, i, args) == PiecesOf(d, s.token, args) + Meaning(d, q, s.next, args)
  {
    if TokenAt(q, i, Odd(q, i), |args|).token.Escaped? {
      EscapedMeaning(d, q, i, args);
    } else {
      TokenMeaningAt(d, q, i, args);
    }
  }

  /** The tokens of a query mean what its text means. */
  lemma {:induction false} TokensMeaning(d: Dialect, q: string, i: nat, args: seq<Arg>)
    requires i <= |q|
    ensures BindNumbered(d, Tokens(q, i, Odd(q, i), |args|), args) == Meaning(d, q, i, args)
    decreases |q| - i
  {
    if i < |q| {
      var s := TokenAt(q, i, Odd(q, i), |args|);
      TokenParity(q, i, |args|);
      TokensNext(q, i, Odd(q, i), |args|);
      TokensMeaning(d, q, s.next, args);
      TokenMeaning(d, q, i, args);
    }
  }

  /** The arguments of the caller come back when no placeholder took one. */
  function Spare(ts: TokenList, args: seq<Arg>): (extra: seq<Arg>)
    requires InRange(ts, |args|)
  {
    if EmitArgs(ts, args) == [] then args else []
  }

  /** A `?` outside quotes, the query's own or one out of an interval literal, stands before an argument is used up. */
  predicate ExposedIn(d: Dialect, q: string, args: seq<Arg>)
  {
    var ts := Tokens(q, 0, false, |args|);
    Exposed(d, ts, args, Spare(ts, args))
  }

  /**
   The rewritten text with its arguments, the k-th mark outside quotes standing
   for the k-th argument, means what the query handed to the loop meant with
   `$n`, if and only if no stray mark comes before an argument.  For SQLite that
   is the source query; for MySQL it is the query after the upsert translation.
   */
  lemma {:induction false} RewriteMeaningIff(d: Dialect, query: string, args: seq<Arg>)
    requires d != Postgres
    ensures var (text, out) := Rewritten(d, query, args);
      BindPositional(text, false, out) == Meaning(d, Prepared(d, query), 0, args) <==> !ExposedIn(d, Prepared(d, query), args)
  {
    var q := Prepared(d, query);
    var ts := Tokens(q, 0, false, |args|);
    TokensWellQuoted(d, q, 0, false, |args|);
    TokensMeaning(d, q, 0, args);
    BindsAlikeIff(d, ts, false, args, Spare(ts, args));
    assert EmitArgs(ts, args) + Spare(ts, args) == Rewritten(d, query, args).1;
  }

  /** For SQLite the absence of marks outside quotes is enough. */
  lemma {:induction false} SQLitePreservesMeaning(query: string, args: seq<Arg>)
    requires MarkFree(query)
    ensures var (text, out) := Rewritten(SQLite, query, args);
      BindPositional(text, false, out) == Meaning(SQLite, query, 0, args)
  {
    Unexposed(SQLite, query, 0, args, Spare(Tokens(query, 0, false, |args|), args));
    RewriteMeaningIff(SQLite, query, args);
  }

  /**
   For MySQL so is the absence of marks outside quotes and in the units of
   interval literals, for a query the upsert translator leaves alone.
   */
  lemma {:induction false} MySQLPreservesMeaning(query: string, args: seq<Arg>)
    requires MarkFree(query) && NoLeaks(query) && !Translates(query)
    ensures var (text, out) := Rewritten(MySQL, query, args);
      BindPositional(text, false, out) == Meaning(MySQL, query, 0, args)
  {
    LeftAlone(query);
    Unexposed(MySQL, query, 0, args, Spare(Tokens(query, 0, false, |args|), args));
    RewriteMeaningIff(MySQL, query, args);
  }

  // ------------------------------------------------------ queries passed through

  /** Nothing to translate at a position: a character inside quotes, or neither a placeholder nor a call. */
  predicate Inert(q: string, i: nat, nargs: nat)
    requires i < |q|
  {
    Odd(q, i) || Outside(q, i, nargs) == (Plain(q[i]), i + 1)
  }

  ghost predicate AllInert(q: string, nargs: nat)
  {
    forall k :: 0 <= k < |q| ==> Inert(q, k, nargs)
  }

  /** A token at an inert position stands for its own text. */
  lemma {:induction false} InertToken(d: Dialect, q: string, i: nat, nargs: nat)
    requires i < |q| && Inert(q, i, nargs)
    ensures var s := TokenAt(q, i, Odd(q, i), nargs);
      s.inQuote == Odd(q, s.next) && !s.token.Param? && EmitOne(d, s.token) == q[i..s.next]
  {
    var s := TokenAt(q, i, Odd(q, i), nargs);
    if s.next == i + 1 {
      assert q[i..i + 1] == [q[i]];
    } else {
      assert q[i..i + 2] == "''";
    }
  }

  lemma {:induction false} InertRun(d: Dialect, q: string, i: nat, args: seq<Arg>, ts: TokenList)
    requires i <= |q| && AllInert(q, |args|) && ts == Tokens(q, i, Odd(q, i), |args|)
    ensures Emit(d, ts) == q[i..] && EmitArgs(ts, args) == []
    decreases |q| - i
  {
    if i < |q| {
      var s := TokenAt(q, i, Odd(q, i), |args|);
      InertToken(d, q, i, |args|);
      TokensNext(q, i, Odd(q, i), |args|);
      InertRun(d, q, s.next, args, ts.rest);
      SliceNext(q, i, s.next);
    }
  }

  lemma {:induction false} SliceNext(q: string, i: nat, m: nat)
    requires i <= m <= |q|
    ensures q[i..] == q[i..m] + q[m..]
  {
  }

  /**
   A query with no placeholder and no call outside quotes comes back as it was,
   with its arguments; for MySQL, as the upsert translator made it.
   */
  lemma {:induction false} PassedThrough(d: Dialect, query: string, args: seq<Arg>)
    requires AllInert(Prepared(d, query), |args|)
    ensures Rewritten(d, query, args) == (Prepared(d, query), args)
  {
    var q := Prepared(d, query);
    if d != Postgres {
      InertRun(d, q, 0, args, Tokens(q, 0, false, |args|));
      assert q[0..] == q;
    }
  }

  /** No placeholder that names an argument stands outside quotes. */
  ghost predicate NoPlaceholders(q: string, nargs: nat)
  {
    forall k :: 0 <= k < |q| && !Odd(q, k) ==> TakePlaceholder(q, k, nargs).NotHere?
  }

  lemma {:induction false} NoParams(q: string, i: nat, args: seq<Arg>, ts: TokenList)
    requires i <= |q| && NoPlaceholders(q, |args|) && ts == Tokens(q, i, Odd(q, i), |args|)
    ensures EmitArgs(ts, args) == []
    decreases |q| - i
  {
    if i < |q| {
      var s := TokenAt(q, i, Odd(q, i), |args|);
      TokenParity(q, i, |args|);
      TokensNext(q, i, Odd(q, i), |args|);
      NoParams(q, s.next, args, ts.rest);
    }
  }

  /** A query without placeholders keeps its arguments. */
  lemma {:induction false} ArgumentsUnchanged(d: Dialect, query: string, args: seq<Arg>)
    requires NoPlaceholders(Prepared(d, query), |args|)
    ensures Rewritten(d, query, args).1 == args
  {
    if d != Postgres {
      NoParams(Prepared(d, query), 0, args, Tokens(Prepared(d, query), 0, false, |args|));
    }
  }

  /** Nothing of the query is a call to translate. */
  ghost predicate NoCalls(q: string)
  {
    forall k :: 0 <= k < |q| ==> TakeFunction(q, k).NotHere?
  }

  /** Then each position means the value of a placeholder outside quotes or its own character. */
  lemma {:induction false} PlainPiecesAt(d: Dialect, q: string, i: nat, args: seq<Arg>)
    requires i < |q| && TakeFunction(q, i).NotHere?
    ensures var p := TakePlaceholder(q, i, |args|);
      MeaningAt(d, q, i, args) ==
      if !Odd(q, i) && p.Here? then ([Val(args[p.value - 1])], p.end + 1) else ([Ch(q[i])], i + 1)
  {
    OneChar(q[i]);
  }

  /**
   The plain case for every positional dialect: no mark outside quotes, no call
   and no ON CONFLICT.  The marks of the result stand for the values where `$n`
   stood and every other character is the query's own.
   */
  lemma {:induction false} PlainQueryPreserved(d: Dialect, q: string, args: seq<Arg>)
    requires d != Postgres && MarkFree(q) && NoCalls(q) && IndexOf(Lower(q), ON_CONFLICT, 0).NotHere?
    ensures var (text, out) := Rewritten(d, q, args);
      BindPositional(text, false, out) == Meaning(d, q, 0, args)
  {
    if d == SQLite {
      SQLitePreservesMeaning(q, args);
    } else {
      MySQLPreservesMeaning(q, args);
    }
  }

  lemma {:induction false} PlainToken(q: string, i: nat, nargs: nat)
    requires i < |q| && q[i] != '\'' && q[i] != '$' && !IsIdentStart(q[i])
    ensures Tokens(q, i, false, nargs) == More(Plain(q[i]), Tokens(q, i + 1, false, nargs))
  {
    TokensNext(q, i, false, nargs);
  }

  lemma {:induction false} EmitCons(d: Dialect, t: Token, rest: TokenList, args: seq<Arg>)
    requires !t.Param? && InRange(rest, |args|)
    ensures InRange(More(t, rest), |args|) && Emit(d, More(t, rest)) == EmitOne(d, t) + Emit(d, rest)
    ensures EmitArgs(More(t, rest), args) == EmitArgs(rest, args)
  {
    var ts := More(t, rest);
    assert InRange(ts, |args|);
    assert EmitArgs(ts, args) == ArgsOne(ts.first, args) + EmitArgs(ts.rest, args);
  }
}
