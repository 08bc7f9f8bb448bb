/**
 The rewriter of db/query.go: `$n` placeholders become positional ones with the
 arguments laid out in order of appearance, and now(), now() + interval and
 gen_random_uuid() become the dialect's expressions, outside quoted literals.

 A query is read as tokens, one per iteration of the source's loop.  The
 meaning of a query with its arguments is the text with the values put in
 place: for the source by `$n`, for the result by counting the `?` marks.  The
 two agree exactly when no stray mark comes before an argument.
 */
module SqlRewrite {
  import opened Decimal
  import opened SqlScan

  type Arg(==)

  /** What one iteration of the loop finds. */
  datatype Token =
    | Quote                 // a quote that opens or closes a literal
    | Escaped               // a doubled quote inside a literal
    | Literal(c: char)      // a character inside a literal
    | Param(n: nat)         // an in-range $n
    | Expr(call: Call)      // a call to translate
    | Plain(c: char)        // anything else

  datatype TokenList = End | More(first: Token, rest: TokenList)

  datatype Step = Step(token: Token, next: nat, inQuote: bool)

  /** What stands at position i outside quotes: a placeholder, a call or a character. */
  function Outside(q: string, i: nat, nargs: nat): (r: (Token, nat))
    requires i < |q|
    ensures i < r.1 <= |q|
    ensures r.0.Param? ==> 1 <= r.0.n <= nargs
    ensures r.0.Param? || r.0.Expr? || r == (Plain(q[i]), i + 1)
  {
    var p := TakePlaceholder(q, i, nargs);
    if p.Here? then (Param(p.value), p.end + 1)
    else
      var f := TakeFunction(q, i);
      if f.Here? then (Expr(f.value), f.end + 1) else (Plain(q[i]), i + 1)
  }

  /** The token at position i and where the next one starts. */
  function TokenAt(q: string, i: nat, inQuote: bool, nargs: nat): (s: Step)
    requires i < |q|
    ensures i < s.next <= |q|
    ensures s.token.Param? ==> 1 <= s.token.n <= nargs
  {
    if q[i] == '\'' then
      if inQuote && i + 1 < |q| && q[i + 1] == '\'' then Step(Escaped, i + 2, inQuote) else Step(Quote, i + 1, !inQuote)
    else if inQuote then Step(Literal(q[i]), i + 1, inQuote)
    else
      var (t, next) := Outside(q, i, nargs);
      Step(t, next, inQuote)
  }

  /** Every placeholder names one of the arguments. */
  predicate InRange(ts: TokenList, nargs: nat)
  {
    ts.End? || ((ts.first.Param? ==> 1 <= ts.first.n <= nargs) && InRange(ts.rest, nargs))
  }

  function Tokens(q: string, i: nat, inQuote: bool, nargs: nat): (ts: TokenList)
    requires i <= |q|
    ensures InRange(ts, nargs)
    decreases |q| - i
  {
    if i == |q| then End
    else
      var s := TokenAt(q, i, inQuote, nargs);
      More(s.token, Tokens(q, s.next, s.inQuote, nargs))
  }

  // -------------------------------------------------------------- the rewriter

  /** Positional dialects write every placeholder the same way. */
  function Placeholder(d: Dialect, i: nat): (s: string)
  {
    if d == Postgres then "$" + Itoa(i) else "?"
  }

  function EmitOne(d: Dialect, t: Token): (s: string)
  {
    match t
    case Quote => "'"
    case Escaped => "''"
    case Literal(c) => [c]
    case Param(_) => "?"
    case Expr(call) => ExprOf(d, call)
    case Plain(c) => [c]
  }

  function Emit(d: Dialect, ts: TokenList): (s: string)
  {
    if ts.End? then "" else EmitOne(d, ts.first) + Emit(d, ts.rest)
  }

  /** The arguments in order of their placeholders. */
  function EmitArgs(ts: TokenList, args: seq<Arg>): (out: seq<Arg>)
    requires InRange(ts, |args|)
  {
    if ts.End? then []
    else ArgsOne(ts.first, args) + EmitArgs(ts.rest, args)
  }

  /** What a token adds to the text and to the arguments. */
  function ArgsOne(t: Token, args: seq<Arg>): (out: seq<Arg>)
    requires t.Param? ==> 1 <= t.n <= |args|
  {
    if t.Param? then [args[t.n - 1]] else []
  }

  /** The loop of Rewrite for a positional dialect. */
  method RewriteLoop(d: Dialect, q: string, args: seq<Arg>) returns (b: string, out: seq<Arg>, usedDollar: bool)
    requires d != Postgres
    ensures b == Emit(d, Tokens(q, 0, false, |args|))
    ensures out == EmitArgs(Tokens(q, 0, false, |args|), args)
    ensures usedDollar <==> out != []
  {
    b, out, usedDollar := "", [], false;
    var inQuote := false;
    var i := 0;
    ghost var all := Tokens(q, 0, false, |args|);
    ghost var left := all;
    EmittedStart(d, all, args);
    while i < |q|
      invariant 0 <= i <= |q| && left == Tokens(q, i, inQuote, |args|)
      invariant Emitted(d, all, left, b, out, args) && (usedDollar <==> out != [])
    {
      var step := ReadToken(q, i, inQuote, |args|);
      TokensNext(q, i, inQuote, |args|);
      b, out := WriteToken(d, step.token, args, b, out, all, left);
      i, inQuote, usedDollar := step.next, step.inQuote, usedDollar || step.token.Param?;
      left := left.rest;
    }
    EmittedEnd(d, all, b, out, args);
  }

  /** Appending a token to the builder and its argument to the output list. */
  method WriteToken(d: Dialect, t: Token, args: seq<Arg>, b: string, out: seq<Arg>,
                    ghost all: TokenList, ghost left: TokenList) returns (b': string, out': seq<Arg>)
    requires d != Postgres && left.More? && left.first == t && Emitted(d, all, left, b, out, args)
    ensures Emitted(d, all, left.rest, b', out', args)
    ensures if t.Param? then out' != [] else out' == out
  {
    EmittedNext(d, all, left, b, out, args);
    if t.Param? {
      return b + Placeholder(d, |out| + 1), out + [args[t.n - 1]];
    }
    assert out + [] == out;
    return b + EmitOne(d, t), out;
  }

  lemma {:induction false} EmittedStart(d: Dialect, all: TokenList, args: seq<Arg>)
    requires InRange(all, |args|)
    ensures Emitted(d, all, all, "", [], args)
  {
  }

  lemma {:induction false} EmittedEnd(d: Dialect, all: TokenList, b: string, out: seq<Arg>, args: seq<Arg>)
    requires Emitted(d, all, End, b, out, args)
    ensures b == Emit(d, all) && out == EmitArgs(all, args)
  {
  }

  lemma {:induction false} TokensNext(q: string, i: nat, inQuote: bool, nargs: nat)
    requires i < |q|
    ensures var s := TokenAt(q, i, inQuote, nargs);
      var ts := Tokens(q, i, inQuote, nargs);
      ts.More? && ts.first == s.token && ts.rest == Tokens(q, s.next, s.inQuote, nargs)
  {
  }

  /** The text and the arguments emitted so far, with what is left, make up the whole. */
  ghost predicate Emitted(d: Dialect, all: TokenList, left: TokenList, b: string, out: seq<Arg>, args: seq<Arg>)
  {
    && InRange(all, |args|) && InRange(left, |args|)
    && Emit(d, all) == b + Emit(d, left) && EmitArgs(all, args) == out + EmitArgs(left, args)
  }

  lemma {:induction false} EmittedNext(d: Dialect, all: TokenList, left: TokenList, b: string, out: seq<Arg>, args: seq<Arg>)
    requires left.More? && Emitted(d, all, left, b, out, args)
    ensures Emitted(d, all, left.rest, b + EmitOne(d, left.first), out + ArgsOne(left.first, args), args)
  {
    Assoc(b, EmitOne(d, left.first), Emit(d, left.rest));
    Assoc(out, ArgsOne(left.first, args), EmitArgs(left.rest, args));
  }

  lemma {:induction false} Assoc<T>(a: seq<T>, b: seq<T>, c: seq<T>)
    ensures a + (b + c) == a + b + c
  {
  }

  /** One iteration's case analysis. */
  method ReadToken(q: string, i: nat, inQuote: bool, nargs: nat) returns (s: Step)
    requires i < |q|
    ensures s == TokenAt(q, i, inQuote, nargs)
  {
    var c := q[i];
    if c == '\'' {
      if inQuote && i + 1 < |q| && q[i + 1] == '\'' {
        return Step(Escaped, i + 2, inQuote);
      }
      return Step(Quote, i + 1, !inQuote);
    }
    if inQuote {
      return Step(Literal(c), i + 1, inQuote);
    }
    var p := ReadPlaceholder(q, i, nargs);
    if p.Here? {
      return Step(Param(p.value), p.end + 1, inQuote);
    }
    var f := ReadFunction(q, i);
    if f.Here? {
      return Step(Expr(f.value), f.end + 1, inQuote);
    }
    return Step(Plain(c), i + 1, inQuote);
  }

  /** takePlaceholder with its digit loop. */
  method ReadPlaceholder(q: string, i: nat, nargs: nat) returns (r: Taken<nat>)
    requires i < |q|
    ensures r == TakePlaceholder(q, i, nargs)
  {
    if q[i] != '$' || i + 1 >= |q| || !IsDigit(q[i + 1]) {
      return NotHere;
    }
    var j := i + 1;
    while j < |q| && IsDigit(q[j])
      invariant i + 1 <= j <= |q| && DigitsEnd(q, j) == DigitsEnd(q, i + 1)
    {
      j := j + 1;
    }
    var n := Atoi(q[i + 1..j]);
    if n < 1 || n > nargs {
      return NotHere;
    }
    return Here(n, j - 1);
  }

  // ------------------------------------------------- the scanners as index loops

  method SkipSpace(q: string, from: nat) returns (i: nat)
    requires from <= |q|
    ensures i == SpaceEnd(q, from)
  {
    i := from;
    while i < |q| && q[i] == ' '
      invariant from <= i <= |q| && SpaceEnd(q, i) == SpaceEnd(q, from)
    {
      i := i + 1;
    }
  }

  method ReadQuoted(q: string, i: nat) returns (r: Taken<string>)
    requires i <= |q|
    ensures r == TakeQuoted(q, i)
  {
    if i >= |q| || q[i] != '\'' {
      return NotHere;
    }
    var j := i + 1;
    while j < |q| && q[j] != '\''
      invariant i + 1 <= j <= |q| && QuoteEnd(q, j) == QuoteEnd(q, i + 1)
    {
      j := j + 1;
    }
    if j >= |q| {
      return NotHere;
    }
    return Here(q[i + 1..j], j);
  }

  method ReadCall(q: string, from: nat) returns (r: Taken<()>)
    requires from <= |q|
    ensures r == MatchCall(q, from)
  {
    var i := SkipSpace(q, from);
    if i >= |q| || q[i] != '(' {
      return NotHere;
    }
    var j := SkipSpace(q, i + 1);
    if j >= |q| || q[j] != ')' {
      return NotHere;
    }
    return Here((), j);
  }

  method ReadAfterPlus(q: string, i: nat) returns (r: Taken<()>)
    requires i < |q|
    ensures r == AfterPlus(q, i)
  {
    var k := SkipSpace(q, i + 1);
    if !At(Lower(q), k, INTERVAL) {
      return NotHere;
    }
    var start := SkipSpace(q, k + |INTERVAL|);
    return Here((), start);
  }

  method ReadLiteralStart(q: string, from: nat) returns (r: Taken<()>)
    requires from < |q|
    ensures r == LiteralStart(q, from)
  {
    var i := SkipSpace(q, from + 1);
    if i >= |q| || q[i] != '+' {
      return NotHere;
    }
    r := ReadAfterPlus(q, i);
  }

  method ReadInterval(q: string, from: nat) returns (r: Taken<string>)
    requires from < |q|
    ensures r == TakeInterval(q, from)
  {
    var start := ReadLiteralStart(q, from);
    if start.NotHere? {
      return NotHere;
    }
    r := ReadQuoted(q, start.end);
  }

  method ReadIdent(q: string, i: nat) returns (j: nat)
    requires i < |q|
    ensures j == IdentEnd(q, i + 1)
  {
    j := i + 1;
    while j < |q| && IsIdentPart(q[j])
      invariant i + 1 <= j <= |q| && IdentEnd(q, j) == IdentEnd(q, i + 1)
    {
      j := j + 1;
    }
  }

  method ReadFunction(q: string, i: nat) returns (r: Taken<Call>)
    requires i < |q|
    ensures r == TakeFunction(q, i)
  {
    if !IsIdentStart(q[i]) {
      return NotHere;
    }
    var j := ReadIdent(q, i);
    var call := ReadCall(q, j);
    if call.NotHere? {
      return NotHere;
    }
    match NameOf(q[i..j])
    case NowName =>
      var t := ReadInterval(q, call.end);
      return if t.Here? then Here(CallInterval(t.value), t.end) else Here(CallNow, call.end);
    case UUIDName =>
      return Here(CallUUID, call.end);
    case OtherName =>
      return NotHere;
  }

  // ----------------------------------------------------------------- meaning

  /** A query with its values in place: characters and values. */
  datatype Piece = Ch(c: char) | Val(value: Arg)

  function Chars(s: string): (ps: seq<Piece>)
  {
    if s == [] then [] else [Ch(s[0])] + Chars(s[1..])
  }

  /** A token as text, with the value of a placeholder in its place. */
  function PiecesOf(d: Dialect, t: Token, args: seq<Arg>): (ps: seq<Piece>)
    requires t.Param? ==> 1 <= t.n <= |args|
  {
    if t.Param? then [Val(args[t.n - 1])] else Chars(EmitOne(d, t))
  }

  /** The source: each in-range `$n` outside quotes replaced by the n-th value, all else as emitted. */
  function BindNumbered(d: Dialect, ts: TokenList, args: seq<Arg>): (ps: seq<Piece>)
    requires InRange(ts, |args|)
  {
    if ts.End? then []
    else PiecesOf(d, ts.first, args) + BindNumbered(d, ts.rest, args)
  }

  /** A positional query: the k-th `?` outside quotes replaced by the k-th value. */
  function BindPositional(t: string, inQuote: bool, args: seq<Arg>): (ps: seq<Piece>)
    decreases |t|
  {
    if t == [] then []
    else if t[0] == '\'' then
      if inQuote && |t| > 1 && t[1] == '\'' then [Ch('\''), Ch('\'')] + BindPositional(t[2..], inQuote, args)
      else [Ch('\'')] + BindPositional(t[1..], !inQuote, args)
    else if inQuote then [Ch(t[0])] + BindPositional(t[1..], inQuote, args)
    else if t[0] == '?' && args != [] then [Val(args[0])] + BindPositional(t[1..], inQuote, args[1..])
    else [Ch(t[0])] + BindPositional(t[1..], inQuote, args)
  }

  /** Text that leaves the quoting as it found it and has no mark outside quotes. */
  predicate Neutral(t: string, inQuote: bool)
    decreases |t|
  {
    if t == [] then !inQuote
    else if t[0] == '\'' then
      if inQuote && |t| > 1 && t[1] == '\'' then Neutral(t[2..], inQuote)
      else if inQuote then |t| > 1 && Neutral(t[1..], false)
      else Neutral(t[1..], true)
    else (inQuote || t[0] != '?') && Neutral(t[1..], inQuote)
  }

  predicate Clean(t: string)
  {
    t != "" && t[0] != '\'' && Neutral(t, false)
  }

  lemma {:induction false} NeutralBinds(t: string, inQuote: bool, rest: string, args: seq<Arg>)
    requires Neutral(t, inQuote)
    ensures BindPositional(t + rest, inQuote, args) == Chars(t) + BindPositional(rest, false, args)
    decreases |t|
  {
    if t == [] {
      assert t + rest == rest;
    } else if t[0] == '\'' && inQuote && |t| > 1 && t[1] == '\'' {
      assert (t + rest)[2..] == t[2..] + rest;
      NeutralBinds(t[2..], inQuote, rest, args);
      assert Chars(t) == [Ch('\'')] + ([Ch('\'')] + Chars(t[2..])) by {
        assert t[1..][1..] == t[2..];
      }
    } else {
      assert (t + rest)[1..] == t[1..] + rest;
      NeutralBinds(t[1..], if t[0] == '\'' then !inQuote else inQuote, rest, args);
    }
  }

  lemma {:induction false} CharsAt(t: string, k: nat)
    ensures |Chars(t)| == |t| && (k < |t| ==> Chars(t)[k] == Ch(t[k]))
  {
    if t != [] {
      CharsAt(t[1..], if k > 0 then k - 1 else 0);
    }
  }

  /** A positional query has one piece per character, and only a mark can become a value. */
  lemma {:induction false} BindAt(t: string, inQuote: bool, args: seq<Arg>, k: nat)
    ensures |BindPositional(t, inQuote, args)| == |t|
    ensures k < |t| && t[k] != '?' ==> BindPositional(t, inQuote, args)[k] == Ch(t[k])
    decreases |t|
  {
    if t != [] {
      var k' := if k > 0 then k - 1 else 0;
      if t[0] == '\'' && inQuote && |t| > 1 && t[1] == '\'' {
        BindAt(t[2..], inQuote, args, if k > 1 then k - 2 else 0);
      } else if t[0] == '\'' {
        BindAt(t[1..], !inQuote, args, k');
      } else if !inQuote && t[0] == '?' && args != [] {
        BindAt(t[1..], inQuote, args[1..], k');
      } else {
        BindAt(t[1..], inQuote, args, k');
      }
    }
  }

  /** Without arguments every mark stands for itself. */
  lemma {:induction false} NoArgsBind(t: string, inQuote: bool)
    ensures BindPositional(t, inQuote, []) == Chars(t)
    decreases |t|
  {
    if t != [] {
      if t[0] == '\'' && inQuote && |t| > 1 && t[1] == '\'' {
        NoArgsBind(t[2..], inQuote);
        assert t[1..][1..] == t[2..];
        assert Chars(t) == [Ch('\'')] + ([Ch('\'')] + Chars(t[2..]));
      } else {
        NoArgsBind(t[1..], if t[0] == '\'' then !inQuote else inQuote);
      }
    }
  }

  // --------------------------------------------------------------- the theorem

  predicate NoneOf(t: string, c: char)
  {
    forall i :: 0 <= i < |t| ==> t[i] != c
  }

  /** Text of a translated call: it closes every quote it opens, or has none. */
  predicate Readable(t: string)
  {
    Clean(t) || (t != "" && NoneOf(t, '\''))
  }

  /** The token belongs on this side of a quote. */
  predicate Fits(d: Dialect, t: Token, inQuote: bool)
  {
    match t
    case Quote => true
    case Escaped => inQuote
    case Literal(c) => inQuote && c != '\''
    case Param(_) => !inQuote
    case Expr(call) => !inQuote && Readable(ExprOf(d, call))
    case Plain(c) => !inQuote && c != '\''
  }

  /** The token writes a mark outside quotes that is not its own placeholder. */
  predicate Stray(d: Dialect, t: Token)
  {
    match t
    case Expr(call) => !Clean(ExprOf(d, call))
    case Plain(c) => c == '?'
    case _ => false
  }

  /** A stray mark is written while an argument is still to come. */
  predicate Exposed(d: Dialect, ts: TokenList, args: seq<Arg>, extra: seq<Arg>)
    requires InRange(ts, |args|)
  {
    && ts.More?
    && ((Stray(d, ts.first) && EmitArgs(ts.rest, args) + extra != []) || Exposed(d, ts.rest, args, extra))
  }

  /** Tokens as the reader produces them: each on its side, and no quote right after a closing one. */
  ghost predicate WellQuoted(d: Dialect, ts: TokenList, inQuote: bool)
  {
    if ts.End? then true
    else
      && Fits(d, ts.first, inQuote)
      && (ts.first.Quote? && inQuote && ts.rest.More? ==> !ts.rest.first.Quote?)
      && WellQuoted(d, ts.rest, if ts.first.Quote? then !inQuote else inQuote)
  }

  lemma {:induction false} EmitOpens(d: Dialect, ts: TokenList, inQuote: bool)
    requires WellQuoted(d, ts, inQuote)
    ensures var e := Emit(d, ts);
      |e| > 0 && e[0] == '\'' ==> ts.first.Quote? || ts.first.Escaped?
    ensures ts.More? ==> Emit(d, ts) != ""
  {
  }

  /** A quote, literal character, clean expression or plain character reads back as it was emitted. */
  lemma {:induction false} TokenBinds(d: Dialect, t: Token, inQuote: bool, rest: string, args: seq<Arg>)
    requires !t.Param? && Fits(d, t, inQuote) && !Stray(d, t)
    requires t.Quote? && inQuote ==> rest == "" || rest[0] != '\''
    ensures BindPositional(EmitOne(d, t) + rest, inQuote, args)
         == Chars(EmitOne(d, t)) + BindPositional(rest, if t.Quote? then !inQuote else inQuote, args)
  {
    var e := EmitOne(d, t) + rest;
    match t {
      case Expr(call) => NeutralBinds(ExprOf(d, call), false, rest, args);
      case Escaped =>
        assert e[2..] == rest;
        assert Chars("''") == [Ch('\'')] + ([Ch('\'')] + Chars("''"[1..][1..]));
      case Quote =>
        assert e[1..] == rest;
        assert Chars("'") == [Ch('\'')] + Chars("'"[1..]);
      case Literal(c) =>
        assert e[1..] == rest;
        assert Chars([c]) == [Ch(c)] + Chars([c][1..]);
      case Plain(c) =>
        assert e[1..] == rest;
        assert Chars([c]) == [Ch(c)] + Chars([c][1..]);
    }
  }

  /** A mark takes the next argument. */
  lemma {:induction false} MarkBinds(rest: string, x: Arg, args: seq<Arg>)
    ensures BindPositional("?" + rest, false, [x] + args) == [Val(x)] + BindPositional(rest, false, args)
  {
    assert ("?" + rest)[1..] == rest;
    assert ([x] + args)[1..] == args;
  }

  /** A token that is not stray reads back as itself, and the rest by itself. */
  lemma {:induction false} HeadBinds(d: Dialect, t: Token, inQuote: bool, e: string, head: seq<Arg>, later: seq<Arg>, args: seq<Arg>)
    requires Fits(d, t, inQuote) && !Stray(d, t) && (t.Param? ==> 1 <= t.n <= |args|) && head == ArgsOne(t, args) + later
    requires t.Quote? && inQuote ==> e == "" || e[0] != '\''
    ensures BindPositional(EmitOne(d, t) + e, inQuote, head)
         == PiecesOf(d, t, args) + BindPositional(e, if t.Quote? then !inQuote else inQuote, later)
  {
    if t.Param? {
      MarkBinds(e, args[t.n - 1], later);
    } else {
      assert head == later;
      TokenBinds(d, t, inQuote, e, later);
    }
  }

  lemma {:induction false} Cancel<T>(a: seq<T>, b: seq<T>, c: seq<T>)
    ensures a + b == a + c <==> b == c
  {
    if a + b == a + c {
      assert b == (a + b)[|a|..] && c == (a + c)[|a|..];
    }
  }

  /** The first mark of quote-free text takes an argument, if there is one. */
  lemma {:induction false} FirstMark(t: string, rest: string, args: seq<Arg>) returns (p: nat)
    requires NoneOf(t, '\'') && !NoneOf(t, '?') && args != []
    ensures p < |t| && t[p] == '?' && |BindPositional(t + rest, false, args)| > p
    ensures BindPositional(t + rest, false, args)[p] == Val(args[0])
  {
    assert (t + rest)[1..] == t[1..] + rest;
    if t[0] == '?' {
      p := 0;
    } else {
      p := FirstMark(t[1..], rest, args);
      p := p + 1;
    }
  }

  lemma {:induction false} PlainNeutral(a: string, inQuote: bool, b: string)
    requires NoneOf(a, '\'') && (inQuote || NoneOf(a, '?')) && Neutral(b, inQuote)
    ensures Neutral(a + b, inQuote)
    decreases |a|
  {
    if a == [] {
      assert a + b == b;
    } else {
      assert (a + b)[1..] == a[1..] + b;
      PlainNeutral(a[1..], inQuote, b);
    }
  }

  lemma {:induction false} PlainClean(a: string)
    requires a != "" && NoneOf(a, '\'') && NoneOf(a, '?')
    ensures Clean(a)
  {
    PlainNeutral(a, false, "");
    assert a + "" == a;
  }

  /** The marks of a stray token are outside quotes. */
  lemma {:induction false} StrayText(d: Dialect, t: Token)
    requires Fits(d, t, false) && Stray(d, t)
    ensures NoneOf(EmitOne(d, t), '\'') && !NoneOf(EmitOne(d, t), '?')
  {
    if t.Expr? && NoneOf(EmitOne(d, t), '?') {
      PlainClean(EmitOne(d, t));
    } else if t.Plain? {
      assert [t.c][0] == '?';
    }
  }

  lemma {:induction false} StrayDiffers(d: Dialect, t: Token, rest: string, args: seq<Arg>, ps: seq<Piece>)
    requires Fits(d, t, false) && Stray(d, t) && args != []
    ensures BindPositional(EmitOne(d, t) + rest, false, args) != Chars(EmitOne(d, t)) + ps
  {
    StrayText(d, t);
    var p := FirstMark(EmitOne(d, t), rest, args);
    CharsAt(EmitOne(d, t), p);
  }

  /** With no argument to come, nothing is exposed and everything stands for itself. */
  lemma {:induction false} NothingLeft(d: Dialect, ts: TokenList, args: seq<Arg>, extra: seq<Arg>)
    requires InRange(ts, |args|) && EmitArgs(ts, args) == [] && extra == []
    ensures !Exposed(d, ts, args, extra) && BindNumbered(d, ts, args) == Chars(Emit(d, ts))
  {
    if ts.More? {
      NothingLeft(d, ts.rest, args, extra);
      CharsConcat(EmitOne(d, ts.first), Emit(d, ts.rest));
    }
  }

  lemma {:induction false} CharsConcat(a: string, b: string)
    ensures Chars(a + b) == Chars(a) + Chars(b)
  {
    if a == [] {
      assert a + b == b;
    } else {
      assert (a + b)[1..] == a[1..] + b;
      CharsConcat(a[1..], b);
    }
  }

  /** One step of the theorem below. */
  lemma {:induction false} TokenBindsIff(d: Dialect, ts: TokenList, inQuote: bool, args: seq<Arg>, extra: seq<Arg>, e: string, later: seq<Arg>,
                                         ps: seq<Piece>)
    requires ts.More? && Fits(d, ts.first, inQuote) && (ts.first.Param? ==> 1 <= ts.first.n <= |args|) && later != []
    requires ts.first.Quote? && inQuote ==> e == "" || e[0] != '\''
    ensures BindPositional(EmitOne(d, ts.first) + e, inQuote, ArgsOne(ts.first, args) + later) == PiecesOf(d, ts.first, args) + ps
      <==> !Stray(d, ts.first) && BindPositional(e, if ts.first.Quote? then !inQuote else inQuote, later) == ps
  {
    var t := ts.first;
    if Stray(d, t) {
      assert ArgsOne(t, args) + later == later;
      StrayDiffers(d, t, e, later, ps);
    } else {
      HeadBinds(d, t, inQuote, e, ArgsOne(t, args) + later, later, args);
      Cancel(PiecesOf(d, t, args), BindPositional(e, if t.Quote? then !inQuote else inQuote, later), ps);
    }
  }

  /**
   The rewritten query with its arguments in order means what the tokens meant
   if and only if no stray mark is written while an argument is still to come.
   */
  lemma {:induction false} BindsAlikeIff(d: Dialect, ts: TokenList, inQuote: bool, args: seq<Arg>, extra: seq<Arg>)
    requires WellQuoted(d, ts, inQuote) && InRange(ts, |args|)
    ensures BindPositional(Emit(d, ts), inQuote, EmitArgs(ts, args) + extra) == BindNumbered(d, ts, args)
      <==> !Exposed(d, ts, args, extra)
    decreases ts
  {
    if EmitArgs(ts, args) + extra == [] {
      NothingLeft(d, ts, args, extra);
      NoArgsBind(Emit(d, ts), inQuote);
    } else if ts.More? {
      var t, rest := ts.first, ts.rest;
      var inside := if t.Quote? then !inQuote else inQuote;
      BindsAlikeIff(d, rest, inside, args, extra);
      EmitOpens(d, rest, inside);
      var later := EmitArgs(rest, args) + extra;
      Assoc(ArgsOne(t, args), EmitArgs(rest, args), extra);
      if later == [] {
        LastParam(d, ts, inQuote, args, extra);
      } else {
        TokenBindsIff(d, ts, inQuote, args, extra, Emit(d, rest), later, BindNumbered(d, rest, args));
      }
    }
  }

  /** The placeholder that takes the last argument: nothing after it can go wrong. */
  lemma {:induction false} LastParam(d: Dialect, ts: TokenList, inQuote: bool, args: seq<Arg>, extra: seq<Arg>)
    requires ts.More? && ts.first.Param? && Fits(d, ts.first, inQuote) && InRange(ts, |args|)
    requires EmitArgs(ts.rest, args) + extra == []
    ensures BindPositional(Emit(d, ts), inQuote, EmitArgs(ts, args) + extra) == BindNumbered(d, ts, args)
    ensures !Exposed(d, ts, args, extra)
  {
    var rest := ts.rest;
    NothingLeft(d, rest, args, extra);
    NoArgsBind(Emit(d, rest), inQuote);
    HeadBinds(d, ts.first, inQuote, Emit(d, rest), EmitArgs(ts, args) + extra, [], args);
  }
}
