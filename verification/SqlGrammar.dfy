/**
 The grammar behind the scanners of db/query.go: exactly which text is a
 placeholder, a call or an interval, told without the scanners, and what becomes
 of calls whose names only end in a translated one.
 */
module SqlGrammar {
  import opened Decimal
  import opened SqlScan
  import opened SqlRewrite
  import opened SqlMeaning
  import opened SqlUpsert
  import opened SqlQuery
  import opened SqlCalls

  // ----------------------------------------------------------------- placeholders

  /** A dollar sign at i and all the digits after it, up to e, which make the number n. */
  ghost predicate MarkAt(q: string, i: nat, n: nat, e: nat)
  {
    && i < e < |q| && q[i] == '$' && AllDigits(q[i + 1..e + 1]) && (e + 1 < |q| ==> !IsDigit(q[e + 1]))
    && Atoi(q[i + 1..e + 1]) == n
  }

  lemma {:induction false} DigitsEndIs(q: string, j: nat, e: nat)
    requires j <= e <= |q| && (forall k :: j <= k < e ==> IsDigit(q[k])) && (e < |q| ==> !IsDigit(q[e]))
    ensures DigitsEnd(q, j) == e
    decreases e - j
  {
    if j < e {
      DigitsEndIs(q, j + 1, e);
    }
  }

  /** A placeholder is taken if and only if it is one and its number is that of an argument. */
  lemma {:induction false} PlaceholderIff(q: string, i: nat, nargs: nat, n: nat, e: nat)
    requires i < |q|
    ensures TakePlaceholder(q, i, nargs) == Here(n, e) <==> MarkAt(q, i, n, e) && 1 <= n <= nargs
  {
    if MarkAt(q, i, n, e) {
      forall k | i + 1 <= k < e + 1 ensures IsDigit(q[k]) {
        assert q[k] == q[i + 1..e + 1][k - i - 1];
      }
      DigitsEndIs(q, i + 1, e + 1);
    }
  }

  // ------------------------------------------------------------------------ calls

  /** From a to b there are spaces and at b there is none. */
  predicate Spaces(q: string, a: nat, b: nat)
  {
    a <= b <= |q| && (forall k :: a <= k < b ==> q[k] == ' ') && (b < |q| ==> q[b] != ' ')
  }

  lemma {:induction false} SpaceEndIff(q: string, a: nat, b: nat)
    requires a <= |q|
    ensures SpaceEnd(q, a) == b <==> Spaces(q, a, b)
  {
  }

  /** Parentheses with nothing but spaces before and between them; the closing one is at e. */
  ghost predicate EmptyCall(q: string, j: nat, e: nat)
  {
    exists o: nat :: Spaces(q, j, o) && o < |q| && q[o] == '(' && Spaces(q, o + 1, e) && e < |q| && q[e] == ')'
  }

  lemma {:induction false} EmptyCallIff(q: string, j: nat, e: nat)
    requires j <= |q|
    ensures MatchCall(q, j) == Here((), e) <==> EmptyCall(q, j, e)
  {
    var o := SpaceEnd(q, j);
    SpaceEndIff(q, j, o);
    if o < |q| {
      SpaceEndIff(q, o + 1, SpaceEnd(q, o + 1));
    }
    if EmptyCall(q, j, e) {
      var p: nat :| Spaces(q, j, p) && p < |q| && q[p] == '(' && Spaces(q, p + 1, e) && e < |q| && q[e] == ')';
      SpaceEndIff(q, j, p);
      SpaceEndIff(q, p + 1, e);
    }
  }

  /** A plus sign, the word interval in any letter case and an opening quote, with spaces allowed around them. */
  ghost predicate IntervalOpens(q: string, from: nat, plus: nat, k: nat, o: nat)
  {
    && Spaces(q, from + 1, plus) && plus < |q| && q[plus] == '+' && Spaces(q, plus + 1, k)
    && k + 8 <= |q| && Lower(q[k..k + 8]) == "interval" && Spaces(q, k + 8, o) && o < |q| && q[o] == '\''
  }

  /** A literal between the quotes at o and e. */
  predicate LiteralBetween(q: string, o: nat, e: nat, lit: string)
  {
    o < e < |q| && q[o] == '\'' && q[e] == '\'' && NoneOf(lit, '\'') && q[o + 1..e] == lit
  }

  ghost predicate IntervalAt(q: string, from: nat, lit: string, e: nat)
  {
    exists plus: nat, k: nat, o: nat :: IntervalOpens(q, from, plus, k, o) && LiteralBetween(q, o, e, lit)
  }

  lemma {:induction false} WordIff(q: string, k: nat)
    ensures At(Lower(q), k, INTERVAL) <==> k + 8 <= |q| && Lower(q[k..k + 8]) == "interval"
  {
    if k + 8 <= |q| {
      var w := Lower(q[k..k + 8]);
      assert forall m :: 0 <= m < 8 ==> w[m] == Lower(q)[k + m];
      if At(Lower(q), k, INTERVAL) {
        assert w == INTERVAL;
      }
    }
  }

  lemma {:induction false} QuotedIff(q: string, o: nat, e: nat, lit: string)
    requires o <= |q|
    ensures TakeQuoted(q, o) == Here(lit, e) <==> LiteralBetween(q, o, e, lit)
  {
    if LiteralBetween(q, o, e, lit) {
      forall m | o + 1 <= m < e ensures q[m] != '\'' {
        assert q[m] == lit[m - o - 1];
      }
      QuoteEndIs(q, o + 1, e);
    }
  }

  lemma {:induction false} OpensFound(q: string, from: nat, plus: nat, k: nat, o: nat)
    requires from < |q| && IntervalOpens(q, from, plus, k, o)
    ensures LiteralStart(q, from) == Here((), o)
  {
    SpaceEndIff(q, from + 1, plus);
    WordFound(q, plus, k, o);
  }

  lemma {:induction false} WordFound(q: string, plus: nat, k: nat, o: nat)
    requires plus < |q| && Spaces(q, plus + 1, k) && k + 8 <= |q| && Lower(q[k..k + 8]) == "interval" && Spaces(q, k + 8, o)
    ensures AfterPlus(q, plus) == Here((), o)
  {
    SpaceEndIff(q, plus + 1, k);
    WordIff(q, k);
    SpaceEndIff(q, k + 8, o);
    assert |INTERVAL| == 8;
  }

  lemma {:induction false} FoundOpens(q: string, from: nat) returns (plus: nat, k: nat)
    requires from < |q| && LiteralStart(q, from).Here?
    ensures var o := LiteralStart(q, from).end;
      o < |q| && q[o] == '\'' ==> IntervalOpens(q, from, plus, k, o)
  {
    plus, k := StartPlaces(q, from);
    SpaceEndIff(q, from + 1, plus);
    SpaceEndIff(q, plus + 1, k);
    WordIff(q, k);
    SpaceEndIff(q, k + 8, LiteralStart(q, from).end);
  }

  lemma {:induction false} IntervalIff(q: string, from: nat, lit: string, e: nat)
    requires from < |q|
    ensures TakeInterval(q, from) == Here(lit, e) <==> IntervalAt(q, from, lit, e)
  {
    if TakeInterval(q, from) == Here(lit, e) {
      var o := LiteralStart(q, from).end;
      var plus, k := FoundOpens(q, from);
      QuotedIff(q, o, e, lit);
    }
    if plus: nat, k: nat, o: nat :| IntervalOpens(q, from, plus, k, o) && LiteralBetween(q, o, e, lit) {
      OpensFound(q, from, plus, k, o);
      QuotedIff(q, o, e, lit);
    }
  }

  /** An identifier from i to j: a letter or an underscore, then letters, digits and underscores, as many as there are. */
  predicate NameAt(q: string, i: nat, j: nat)
  {
    i < j <= |q| && Letter(q[i]) && (forall k :: i < k < j ==> LetterOrDigit(q[k])) && (j < |q| ==> !LetterOrDigit(q[j]))
  }

  predicate Letter(c: char)
  {
    'a' <= c <= 'z' || 'A' <= c <= 'Z' || c == '_'
  }

  predicate LetterOrDigit(c: char)
  {
    Letter(c) || '0' <= c <= '9'
  }

  lemma {:induction false} NameIff(q: string, i: nat, j: nat)
    requires i < |q| && IsIdentStart(q[i])
    ensures IdentEnd(q, i + 1) == j <==> NameAt(q, i, j)
  {
    if NameAt(q, i, j) {
      IdentEndIs(q, i + 1, j);
    }
  }

  /** What is called at i, with its parentheses closed at p and the text ending at e. */
  ghost predicate Calls(q: string, word: string, p: nat, c: Call, e: nat)
  {
    match c
    case CallNow => word == "now" && e == p && forall lit, z :: !IntervalAt(q, p, lit, z)
    case CallInterval(lit) => word == "now" && IntervalAt(q, p, lit, e)
    case CallUUID => word == "gen_random_uuid" && e == p
  }

  /** The call c stands from i to e: now() with an interval after it if there is one, or gen_random_uuid(), in any letter case. */
  ghost predicate CallAt(q: string, i: nat, c: Call, e: nat)
  {
    exists j: nat, p: nat :: NameAt(q, i, j) && EmptyCall(q, j, p) && Calls(q, Lower(q[i..j]), p, c, e)
  }

  /** A call is taken if and only if it stands there. */
  lemma {:induction false} CallIff(q: string, i: nat, c: Call, e: nat)
    requires i < |q|
    ensures TakeFunction(q, i) == Here(c, e) <==> CallAt(q, i, c, e)
  {
    if TakeFunction(q, i) == Here(c, e) {
      TakenStands(q, i, c, e);
    }
    if CallAt(q, i, c, e) {
      StandingTaken(q, i, c, e);
    }
  }

  lemma {:induction false} NoInterval(q: string, p: nat)
    requires p < |q|
    ensures TakeInterval(q, p).NotHere? <==> forall lit, z :: !IntervalAt(q, p, lit, z)
  {
    if TakeInterval(q, p).Here? {
      IntervalIff(q, p, TakeInterval(q, p).value, TakeInterval(q, p).end);
    } else {
      forall lit, z ensures !IntervalAt(q, p, lit, z) {
        IntervalIff(q, p, lit, z);
      }
    }
  }

  lemma {:induction false} TakenStands(q: string, i: nat, c: Call, e: nat)
    requires i < |q| && TakeFunction(q, i) == Here(c, e)
    ensures CallAt(q, i, c, e)
  {
    var j := IdentEnd(q, i + 1);
    var p := MatchCall(q, j).end;
    NameIff(q, i, j);
    EmptyCallIff(q, j, p);
    CallsIff(q, i, j, p, c, e);
  }

  lemma {:induction false} StandingTaken(q: string, i: nat, c: Call, e: nat)
    requires i < |q| && CallAt(q, i, c, e)
    ensures TakeFunction(q, i) == Here(c, e)
  {
    var j: nat, p: nat :| NameAt(q, i, j) && EmptyCall(q, j, p) && Calls(q, Lower(q[i..j]), p, c, e);
    NameIff(q, i, j);
    EmptyCallIff(q, j, p);
    CallsIff(q, i, j, p, c, e);
  }

  lemma {:induction false} CallsIff(q: string, i: nat, j: nat, p: nat, c: Call, e: nat)
    requires i < j <= p < |q| && IsIdentStart(q[i]) && IdentEnd(q, i + 1) == j && MatchCall(q, j) == Here((), p)
    ensures TakeFunction(q, i) == Here(c, e) <==> Calls(q, Lower(q[i..j]), p, c, e)
  {
    NoInterval(q, p);
    if c.CallInterval? {
      IntervalIff(q, p, c.literal, e);
    }
    NamesApart(q[i..j]);
  }

  lemma {:induction false} NamesApart(word: string)
    ensures Lower(word) == "gen_random_uuid" ==> Lower(word) != "now"
  {
  }

  // --------------------------------------------------- names that end in another

  /** The name ends in the given word, in any letter case. */
  predicate EndsIn(name: string, word: string)
  {
    |word| <= |name| && Lower(name[|name| - |word|..]) == word
  }

  /** At position k of the name starts a name that is translated. */
  predicate StartsCall(name: string, k: nat)
    requires k < |name|
  {
    IsIdentStart(name[k]) && !NameOf(name[k..]).OtherName?
  }

  lemma {:induction false} EndsInLetter(name: string, word: string)
    requires EndsIn(name, word) && word != "" && 'a' <= word[0] <= 'z'
    ensures |name| - |word| < |name| && IsIdentStart(name[|name| - |word|])
  {
    var k := |name| - |word|;
    assert Lower(name[k..])[0] == LowerChar(name[k]) == word[0];
  }

  lemma {:induction false} StartsCallIff(name: string, k: nat)
    requires k < |name|
    ensures NameOf(name[k..]).NowName? <==> EndsIn(name, "now") && k == |name| - 3
    ensures NameOf(name[k..]).UUIDName? <==> EndsIn(name, "gen_random_uuid") && k == |name| - 15
  {
    assert |Lower(name[k..])| == |name| - k;
    assert |"gen_random_uuid"| == 15;
    NamesApart(name[k..]);
  }

  lemma {:induction false} NotBothEnds(name: string)
    requires EndsIn(name, "now")
    ensures !EndsIn(name, "gen_random_uuid")
  {
    var n := |name|;
    assert Lower(name[n - 3..])[2] == LowerChar(name[n - 1]) == 'w';
    if n >= 15 {
      assert Lower(name[n - 15..])[14] == LowerChar(name[n - 1]);
      assert "gen_random_uuid"[14] == 'd';
    }
  }

  lemma {:induction false} NamePlaces(q: string, name: string, i: nat)
    requires IsIdent(name) && q == name + "()" && i < |name|
    ensures q[i] == name[i] && q[i..|name|] == name[i..] && MatchCall(q, |name|) == Here((), |name| + 1)
    ensures IdentEnd(q, i + 1) == |name| && TakeInterval(q, |name| + 1).NotHere?
  {
    var j := |name|;
    forall k | i + 1 <= k < j ensures IsIdentPart(q[k]) {
      assert q[k] == name[k];
    }
    assert q[j] == '(' && q[j + 1] == ')';
    IdentEndIs(q, i + 1, j);
  }

  /** What stands at a position of the name followed by an empty call. */
  lemma {:induction false} NameToken(q: string, name: string, i: nat, nargs: nat)
    requires IsIdent(name) && q == name + "()" && i < |name|
    ensures Outside(q, i, nargs)
         == if !StartsCall(name, i) then (Plain(name[i]), i + 1)
            else (Expr(if NameOf(name[i..]).NowName? then CallNow else CallUUID), |q|)
  {
    NamePlaces(q, name, i);
    assert IsIdentPart(name[i]);
    assert TakePlaceholder(q, i, nargs).NotHere?;
  }

  lemma {:induction false} NameRun(d: Dialect, q: string, name: string, i: nat, k: nat, args: seq<Arg>, ts: TokenList, rest: TokenList)
    requires IsIdent(name) && q == name + "()" && i <= k <= |name| && (forall m :: i <= m < k ==> !StartsCall(name, m))
    requires ts == Tokens(q, i, false, |args|) && rest == Tokens(q, k, false, |args|)
    ensures Emit(d, ts) == name[i..k] + Emit(d, rest) && EmitArgs(ts, args) == EmitArgs(rest, args)
    decreases k - i
  {
    if i == k {
      assert name[i..k] == "";
    } else {
      var more := Tokens(q, i + 1, false, |args|);
      NameStep(q, name, i, |args|);
      NameRun(d, q, name, i + 1, k, args, more, rest);
      PlainFirst(d, name, i, k, more, Emit(d, rest), args);
    }
  }

  lemma {:induction false} NameStep(q: string, name: string, i: nat, nargs: nat)
    requires IsIdent(name) && q == name + "()" && i < |name| && !StartsCall(name, i)
    ensures Tokens(q, i, false, nargs) == More(Plain(name[i]), Tokens(q, i + 1, false, nargs))
  {
    NameToken(q, name, i, nargs);
    NamePlaces(q, name, i);
    assert IsIdentPart(name[i]);
    OutsideToken(q, i, Plain(name[i]), i + 1, nargs);
  }

  lemma {:induction false} PlainFirst(d: Dialect, name: string, i: nat, k: nat, more: TokenList, rest: string, args: seq<Arg>)
    requires i < k <= |name| && InRange(more, |args|) && Emit(d, more) == name[i + 1..k] + rest
    ensures var ts := More(Plain(name[i]), more);
      InRange(ts, |args|) && Emit(d, ts) == name[i..k] + rest && EmitArgs(ts, args) == EmitArgs(more, args)
  {
    EmitCons(d, Plain(name[i]), more, args);
    SqlRewrite.Assoc([name[i]], name[i + 1..k], rest);
    assert [name[i]] + name[i + 1..k] == name[i..k];
  }

  lemma {:induction false} NameFree(q: string, name: string)
    requires IsIdent(name) && q == name + "()"
    ensures NoConflict(q)
  {
    forall k | 0 < k < |q| ensures q[k] != ' ' {
      assert k < |name| ==> q[k] == name[k];
      assert k < |name| ==> IsIdentPart(name[k]);
    }
  }

  lemma {:induction false} CallLast(d: Dialect, q: string, name: string, k: nat, call: Call, args: seq<Arg>)
    requires d != Postgres && IsIdent(name) && q == name + "()" && k < |name| && StartsCall(name, k)
    requires call == if NameOf(name[k..]).NowName? then CallNow else CallUUID
    requires forall m :: 0 <= m < k ==> !StartsCall(name, m)
    ensures Rewritten(d, q, args) == (name[..k] + ExprOf(d, call), args)
  {
    NameThenCall(d, q, name, k, call, args, ExprOf(d, call), Tokens(q, 0, false, |args|));
    NameFree(q, name);
    WithoutArguments(d, q, args, Tokens(q, 0, false, |args|));
  }

  lemma {:induction false} NameThenCall(d: Dialect, q: string, name: string, k: nat, call: Call, args: seq<Arg>, expr: string, ts: TokenList)
    requires IsIdent(name) && q == name + "()" && k < |name| && StartsCall(name, k) && expr == ExprOf(d, call)
    requires call == if NameOf(name[k..]).NowName? then CallNow else CallUUID
    requires (forall m :: 0 <= m < k ==> !StartsCall(name, m)) && ts == Tokens(q, 0, false, |args|)
    ensures Emit(d, ts) == name[..k] + expr && EmitArgs(ts, args) == []
  {
    CallStep(q, name, k, call, |args|);
    EmitLast(d, Expr(call), args);
    NameRun(d, q, name, 0, k, args, ts, More(Expr(call), End));
    assert name[0..k] == name[..k];
  }

  lemma {:induction false} CallStep(q: string, name: string, k: nat, call: Call, nargs: nat)
    requires IsIdent(name) && q == name + "()" && k < |name| && StartsCall(name, k)
    requires call == if NameOf(name[k..]).NowName? then CallNow else CallUUID
    ensures Tokens(q, k, false, nargs) == More(Expr(call), End)
  {
    NameToken(q, name, k, nargs);
    NamePlaces(q, name, k);
    assert IsIdentPart(name[k]);
    OutsideToken(q, k, Expr(call), |q|, nargs);
    assert Tokens(q, |q|, false, nargs) == End;
  }

  lemma {:induction false} Parens(d: Dialect, q: string, name: string, args: seq<Arg>, rest: TokenList)
    requires IsIdent(name) && q == name + "()" && rest == Tokens(q, |name|, false, |args|)
    ensures Emit(d, rest) == "()" && EmitArgs(rest, args) == []
  {
    var n := |name|;
    assert q[n] == '(' && q[n + 1] == ')';
    PlainToken(q, n, |args|);
    LastToken(q, n + 1, |args|);
    EmitLast(d, Plain(')'), args);
    EmitCons(d, Plain('('), More(Plain(')'), End), args);
  }

  lemma {:induction false} NoCallLast(d: Dialect, q: string, name: string, args: seq<Arg>)
    requires d != Postgres && IsIdent(name) && q == name + "()" && forall m :: 0 <= m < |name| ==> !StartsCall(name, m)
    ensures Rewritten(d, q, args) == (q, args)
  {
    var ts, rest := Tokens(q, 0, false, |args|), Tokens(q, |name|, false, |args|);
    Parens(d, q, name, args, rest);
    NameRun(d, q, name, 0, |name|, args, ts, rest);
    NameFree(q, name);
    WithoutArguments(d, q, args, ts);
    assert name[0..|name|] == name;
  }

  /**
   What becomes of a call without arguments, for every name: it comes back as it
   was if and only if the name does not end in now or gen_random_uuid, in any
   letter case; otherwise that end is replaced by the dialect's expression, also
   when it is only the end of a longer name.
   */
  lemma {:induction false} NamedCall(d: Dialect, name: string, args: seq<Arg>)
    requires d != Postgres && IsIdent(name)
    ensures EndsIn(name, "now") ==> Rewritten(d, name + "()", args) == (name[..|name| - 3] + Now(d), args)
    ensures EndsIn(name, "gen_random_uuid") ==>
      Rewritten(d, name + "()", args) == (name[..|name| - 15] + RandomUUIDExpr(d), args)
    ensures !EndsIn(name, "now") && !EndsIn(name, "gen_random_uuid") ==> Rewritten(d, name + "()", args) == (name + "()", args)
  {
    var q := name + "()";
    forall m | 0 <= m < |name| ensures StartsCall(name, m) ==>
      (EndsIn(name, "now") && m == |name| - 3) || (EndsIn(name, "gen_random_uuid") && m == |name| - 15) {
      StartsCallIff(name, m);
    }
    if EndsIn(name, "now") {
      NotBothEnds(name);
      EndsInLetter(name, "now");
      StartsCallIff(name, |name| - 3);
      CallLast(d, q, name, |name| - 3, CallNow, args);
    } else if EndsIn(name, "gen_random_uuid") {
      EndsInLetter(name, "gen_random_uuid");
      StartsCallIff(name, |name| - 15);
      CallLast(d, q, name, |name| - 15, CallUUID, args);
    } else {
      NoCallLast(d, q, name, args);
    }
  }

  // ----------------------------------------------------------------- numbers and words

  /** A decimal number, with or without a sign, is read exactly when it fits 64 bits. */
  lemma {:induction false} NumberReads(n: nat)
    ensures ParseInt(Itoa(n)) == if n <= MAX_INT64 then Here(n as int, |Itoa(n)|) else NotHere
    ensures ParseInt("+" + Itoa(n)) == if n <= MAX_INT64 then Here(n as int, |Itoa(n)| + 1) else NotHere
    ensures ParseInt("-" + Itoa(n)) == if n <= MAX_INT64 + 1 then Here(-(n as int), |Itoa(n)| + 1) else NotHere
  {
    NoSignedDigits(Itoa(n), n);
    UnsignedReads(n, Itoa(n));
    SignedReads(n, Itoa(n), "+");
    SignedReads(n, Itoa(n), "-");
  }

  lemma {:induction false} UnsignedReads(n: nat, digits: string)
    requires digits != "" && AllDigits(digits) && Atoi(digits) == n
    ensures ParseInt(digits) == if n <= MAX_INT64 then Here(n as int, |digits|) else NotHere
  {
    assert IsDigit(digits[0]);
  }

  lemma {:induction false} SignedReads(n: nat, digits: string, sign: string)
    requires digits != "" && AllDigits(digits) && Atoi(digits) == n && (sign == "+" || sign == "-")
    ensures var v: int := if sign == "-" then -(n as int) else n;
      ParseInt(sign + digits) == if -MAX_INT64 - 1 <= v <= MAX_INT64 then Here(v, |digits| + 1) else NotHere
  {
    var s := sign + digits;
    assert s[0] == sign[0] && s[1..] == digits;
  }

  /** The characters from j on that are not white space. */
  function Visible(s: string, j: nat): (r: string)
    requires j <= |s|
    decreases |s| - j
  {
    if j == |s| then "" else (if IsSpace(s[j]) then "" else [s[j]]) + Visible(s, j + 1)
  }

  function Flat(fs: seq<string>): (s: string)
  {
    if fs == [] then "" else fs[0] + Flat(fs[1..])
  }

  lemma {:induction false} VisibleRun(s: string, j: nat, e: nat)
    requires j <= e <= |s| && forall k :: j <= k < e ==> !IsSpace(s[k])
    ensures Visible(s, j) == s[j..e] + Visible(s, e)
    decreases e - j
  {
    if j == e {
      assert s[j..e] == "";
    } else {
      VisibleRun(s, j + 1, e);
      SqlRewrite.Assoc([s[j]], s[j + 1..e], Visible(s, e));
      assert [s[j]] + s[j + 1..e] == s[j..e];
    }
  }

  /** The words of a text are all of it but the white space, in order, each of them free of it. */
  lemma {:induction false} FieldsAreWords(s: string, j: nat)
    requires j <= |s|
    ensures Flat(Fields(s, j)) == Visible(s, j)
    ensures forall k :: 0 <= k < |Fields(s, j)| ==> Fields(s, j)[k] != "" && NoSpaces(Fields(s, j)[k])
    decreases |s| - j
  {
    if j < |s| {
      if IsSpace(s[j]) {
        FieldsAreWords(s, j + 1);
        assert "" + Visible(s, j + 1) == Visible(s, j + 1);
      } else {
        var e := FieldEnd(s, j + 1);
        FieldsAreWords(s, e);
        NextWord(s, j, e, Fields(s, e));
      }
    }
  }

  lemma {:induction false} NextWord(s: string, j: nat, e: nat, fs: seq<string>)
    requires j < |s| && !IsSpace(s[j]) && e == FieldEnd(s, j + 1) && Flat(fs) == Visible(s, e)
    ensures s[j..e] != "" && NoSpaces(s[j..e]) && Flat([s[j..e]] + fs) == Visible(s, j)
  {
    FieldNoSpaces(s, j + 1);
    VisibleRun(s, j, e);
    WordFirst(s[j..e], fs);
  }

  lemma {:induction false} WordFirst(w: string, fs: seq<string>)
    ensures Flat([w] + fs) == w + Flat(fs)
  {
    assert ([w] + fs)[1..] == fs;
  }
}
