/**
 What the expressions of db/query.go mean to the database that gets them: a
 small reader of each dialect's expressions for the current time, a random
 identifier and the time some interval away.  The generated texts are read back
 as what the call stands for.
 */
module SqlReading {
  import opened Decimal
  import opened Options
  import opened SqlScan
  import opened SqlRewrite
  import opened SqlMeaning
  import opened SqlUpsert
  import opened SqlQuery
  import opened SqlCalls

  // ------------------------------------------------------------------- the reader

  /** An amount, which may carry one sign, a space and a unit in any letter case. */
  datatype Span = Span(amount: int, unit: string)

  function ReadSpan(text: string): (r: Option<Span>)
  {
    var j := if text != "" && (text[0] == '+' || text[0] == '-') then 1 else 0;
    var e := DigitsEnd(text, j);
    if e == j || e >= |text| || text[e] != ' ' then None
    else
      var n: int := Atoi(text[j..e]);
      Some(Span(if text[0] == '-' then -n else n, Lower(text[e + 1..])))
  }

  /** How a dialect writes base plus interval: the texts before the base, between the two, and after the interval. */
  datatype Form = Form(open: string, sep: string, close: string)

  function FormOf(d: Dialect): (f: Form)
    ensures f.sep != ""
  {
    match d
    case MySQL => Form("DATE_ADD(", ", INTERVAL ", ")")
    case SQLite => Form("datetime(", ", '", "')")
    case Postgres => Form("(", " + interval '", "')")
  }

  function UpTo(s: string, c: char, j: nat): (e: nat)
    requires j <= |s|
    ensures j <= e <= |s|
    decreases |s| - j
  {
    if j < |s| && s[j] != c then UpTo(s, c, j + 1) else j
  }

  datatype Sum = Sum(base: string, span: Span)

  /** Reads base plus interval; the base ends where the separator's first character first stands, and no quote is inside. */
  function ReadForm(f: Form, text: string): (r: Option<Sum>)
    requires f.sep != ""
  {
    if !At(text, 0, f.open) then None
    else
      var k := UpTo(text, f.sep[0], |f.open|);
      var from, to := k + |f.sep|, |text| - |f.close|;
      if !At(text, k, f.sep) || to < from || text[to..] != f.close || '\'' in text[from..to] then None
      else
        match ReadSpan(text[from..to])
        case None => None
        case Some(span) => Some(Sum(text[|f.open|..k], span))
  }

  function ReadSum(d: Dialect, text: string): (r: Option<Sum>)
  {
    ReadForm(FormOf(d), text)
  }

  predicate SameWord(a: string, b: string)
  {
    Lower(a) == Lower(b)
  }

  /** The words for the current time, and for a random identifier, in any letter case. */
  predicate IsTime(d: Dialect, word: string)
  {
    match d
    case MySQL => SameWord(word, "NOW()") || SameWord(word, "CURRENT_TIMESTAMP") || SameWord(word, "CURRENT_TIMESTAMP()")
    case SQLite => SameWord(word, "CURRENT_TIMESTAMP")
    case Postgres => SameWord(word, "now()") || SameWord(word, "CURRENT_TIMESTAMP")
  }

  predicate IsId(d: Dialect, word: string)
  {
    match d
    case MySQL => SameWord(word, "UUID()") || SameWord(word, "(UUID())")
    case SQLite => SameWord(word, "lower(hex(randomblob(16)))") || SameWord(word, "(lower(hex(randomblob(16))))")
    case Postgres => SameWord(word, "gen_random_uuid()")
  }

  datatype Term = CurrentTime | RandomId | TimePlus(amount: int, unit: string) | Unread

  /** What an expression means to the dialect's database. */
  function ReadTerm(d: Dialect, text: string): (t: Term)
  {
    match ReadSum(d, text)
    case Some(s) => if IsTime(d, s.base) then TimePlus(s.span.amount, s.span.unit) else Unread
    case None => if IsTime(d, text) then CurrentTime else if IsId(d, text) then RandomId else Unread
  }

  /** What a call of the query means. */
  function TermOf(c: Call): (t: Term)
  {
    match c
    case CallNow => CurrentTime
    case CallUUID => RandomId
    case CallInterval(lit) => var (amount, unit) := ParseInterval(lit); TimePlus(amount, unit)
  }

  // ------------------------------------------------------------- reading a span

  lemma {:induction false} DigitsEndIs(s: string, j: nat, e: nat)
    requires j <= e < |s| && (forall k :: j <= k < e ==> IsDigit(s[k])) && !IsDigit(s[e])
    ensures DigitsEnd(s, j) == e
  {
  }

  lemma {:induction false} DigitsPlaced(s: string, sign: string, digits: string, unit: string)
    requires s == sign + (digits + (" " + unit)) && AllDigits(digits)
    ensures var j, e := |sign|, |sign| + |digits|;
      && s[..j] == sign && s[j..e] == digits && s[e] == ' ' && s[e + 1..] == unit
      && forall k :: j <= k < e ==> IsDigit(s[k])
  {
    var j, e := |sign|, |sign| + |digits|;
    forall k | j <= k < e ensures IsDigit(s[k]) {
      assert s[k] == digits[k - j];
    }
  }

  lemma {:induction false} DigitsSpan(s: string, sign: string, digits: string, unit: string)
    requires s == sign + (digits + (" " + unit)) && (sign == "" || sign == "+" || sign == "-")
    requires digits != "" && AllDigits(digits)
    ensures ReadSpan(s) == Some(Span(if sign == "-" then -(Atoi(digits) as int) else Atoi(digits), Lower(unit)))
  {
    DigitsPlaced(s, sign, digits, unit);
    SpanPlaced(s, |sign|, |sign| + |digits|, digits, unit);
    assert sign != "" ==> s[0] == s[..|sign|][0];
  }

  lemma {:induction false} SpanPlaced(s: string, j: nat, e: nat, digits: string, unit: string)
    requires j <= 1 && j < e < |s| && (forall k :: j <= k < e ==> IsDigit(s[k])) && s[e] == ' '
    requires j == 1 ==> s[0] == '+' || s[0] == '-'
    requires s[j..e] == digits && s[e + 1..] == unit && AllDigits(digits)
    ensures ReadSpan(s) == Some(Span(if s[0] == '-' then -(Atoi(digits) as int) else Atoi(digits), Lower(unit)))
  {
    DigitsEndIs(s, j, e);
    assert j == 0 ==> IsDigit(s[0]);
  }

  lemma {:induction false} NumberSpan(n: nat, digits: string, sign: string, unit: string)
    requires digits == Itoa(n) && (sign == "" || sign == "+" || sign == "-")
    ensures ReadSpan(sign + (digits + (" " + unit))) == Some(Span(if sign == "-" then -(n as int) else n, Lower(unit)))
  {
    AtoiItoa(n);
    DigitsSpan(sign + (digits + (" " + unit)), sign, digits, unit);
  }

  /** The rendering of an amount and a unit reads as the two, the unit in lower case. */
  lemma {:induction false} AmountSpan(amount: int, unit: string)
    ensures ReadSpan(Amount(amount, unit)) == Some(Span(amount, Lower(unit)))
  {
    var tail := " " + unit;
    if amount < 0 {
      SqlRewrite.Assoc("-", Itoa(-amount), tail);
      NumberSpan(-amount, Itoa(-amount), "-", unit);
    } else {
      assert "" + (Itoa(amount) + tail) == Itoa(amount) + tail;
      NumberSpan(amount, Itoa(amount), "", unit);
    }
  }

  /** With a plus sign in front it still does, unless the amount has a sign of its own: then it cannot be read. */
  lemma {:induction false} SignedSpan(amount: int, unit: string)
    ensures ReadSpan("+" + Amount(amount, unit)) == if amount < 0 then None else Some(Span(amount, Lower(unit)))
  {
    if amount < 0 {
      assert ("+" + Amount(amount, unit))[1] == '-';
    } else {
      NumberSpan(amount, Itoa(amount), "+", unit);
    }
  }

  lemma {:induction false} LowerUpper(s: string)
    ensures Lower(Upper(s)) == Lower(s)
  {
  }

  // -------------------------------------------------------------- reading a sum

  lemma {:induction false} UpToIs(s: string, c: char, j: nat, e: nat)
    requires j <= e < |s| && (forall k :: j <= k < e ==> s[k] != c) && s[e] == c
    ensures UpTo(s, c, j) == e
    decreases e - j
  {
    if j < e {
      UpToIs(s, c, j + 1, e);
    }
  }

  /** A text made of the dialect's form reads as its base and its span. */
  lemma {:induction false} SumRead(f: Form, text: string, base: string, inner: string)
    requires f.sep != "" && text == f.open + (base + (f.sep + (inner + f.close))) && NoneOf(base, f.sep[0])
    requires NoneOf(inner, '\'')
    ensures ReadForm(f, text) == match ReadSpan(inner) case None => None case Some(span) => Some(Sum(base, span))
  {
    BaseEnds(f.open, base, f.sep, inner + f.close, text);
    SumParts(f, text, base, inner);
  }

  lemma {:induction false} BaseEnds(open: string, base: string, sep: string, rest: string, text: string)
    requires sep != "" && text == open + (base + (sep + rest)) && NoneOf(base, sep[0])
    ensures At(text, 0, open) && UpTo(text, sep[0], |open|) == |open| + |base| && At(text, |open| + |base|, sep)
  {
    var k := |open| + |base|;
    forall m | |open| <= m < k ensures text[m] != sep[0] {
      assert text[m] == base[m - |open|];
    }
    forall m | 0 <= m < |sep| ensures text[k + m] == sep[m] {
      assert (base + (sep + rest))[|base| + m] == (sep + rest)[m];
    }
    assert text[k + 0] == sep[0];
    UpToIs(text, sep[0], |open|, k);
  }

  lemma {:induction false} SumParts(f: Form, text: string, base: string, inner: string)
    requires text == f.open + (base + (f.sep + (inner + f.close))) && NoneOf(inner, '\'')
    ensures var k := |f.open| + |base|;
      var from, to := k + |f.sep|, |text| - |f.close|;
      && from <= to && text[|f.open|..k] == base && text[to..] == f.close && text[from..to] == inner && '\'' !in text[from..to]
  {
    var k := |f.open| + |base|;
    var from, to := k + |f.sep|, |text| - |f.close|;
    assert text[from..to] == inner;
  }

  /** The text between the form's parts that a dialect writes for an amount and a unit. */
  function Inner(d: Dialect, amount: int, unit: string): (s: string)
  {
    match d
    case MySQL => Amount(amount, Upper(unit))
    case SQLite => "+" + Amount(amount, unit)
    case Postgres => Amount(amount, unit)
  }

  lemma {:induction false} Written(d: Dialect, base: string, lit: string, amount: int, unit: string, inner: string)
    requires ParseInterval(lit) == (amount, unit) && inner == Inner(d, amount, unit)
    ensures var f := FormOf(d); AddInterval(d, base, lit) == f.open + (base + (f.sep + (inner + f.close)))
  {
    WrittenOut(d, base, lit, amount, unit, inner);
    match d {
      case MySQL => Regrouped("DATE_ADD(", base, ", INTERVAL ", inner + ")");
      case SQLite =>
        RegroupedQuote("datetime(", base, ", ", inner + "')");
        assert ", " + "'" == ", '";
      case Postgres =>
        RegroupedQuote("(", base, " + interval ", inner + "')");
        assert " + interval " + "'" == " + interval '";
    }
  }

  lemma {:induction false} WrittenOut(d: Dialect, base: string, lit: string, amount: int, unit: string, inner: string)
    requires ParseInterval(lit) == (amount, unit) && inner == Inner(d, amount, unit)
    ensures d == MySQL ==> AddInterval(d, base, lit) == ("DATE_ADD(" + base + ", INTERVAL ") + (inner + ")")
    ensures d == SQLite ==> AddInterval(d, base, lit) == ("datetime(" + base + ", ") + ("'" + (inner + "')"))
    ensures d == Postgres ==> AddInterval(d, base, lit) == ("(" + base + " + interval ") + ("'" + (inner + "')"))
  {
  }

  lemma {:induction false} Regrouped(open: string, base: string, sep: string, rest: string)
    ensures (open + base + sep) + rest == open + (base + (sep + rest))
  {
    SqlRewrite.Assoc(open + base, sep, rest);
    SqlRewrite.Assoc(open, base, sep + rest);
  }

  lemma {:induction false} RegroupedQuote(open: string, base: string, sep: string, rest: string)
    ensures (open + base + sep) + ("'" + rest) == open + (base + ((sep + "'") + rest))
  {
    Regrouped(open, base, sep, "'" + rest);
    SqlRewrite.Assoc(sep, "'", rest);
  }

  lemma {:induction false} InnerRead(d: Dialect, amount: int, unit: string)
    requires NoneOf(unit, '\'')
    ensures NoneOf(Inner(d, amount, unit), '\'')
    ensures ReadSpan(Inner(d, amount, unit)) == if d == SQLite && amount < 0 then None else Some(Span(amount, Lower(unit)))
  {
    AmountNone(amount, unit, '\'');
    LowerNone(unit);
    match d {
      case MySQL =>
        AmountNone(amount, Upper(unit), '\'');
        AmountSpan(amount, Upper(unit));
        LowerUpper(unit);
      case SQLite => SignedSpan(amount, unit);
      case Postgres => AmountSpan(amount, unit);
    }
  }

  /**
   What AddInterval writes, for every base without the first character of the
   dialect's separator and every interval text without a quote: the database
   reads the base, the interval's own amount and its unit; SQLite, which gets a
   plus sign in front of the amount, cannot read a negative one.
   */
  lemma {:induction false} IntervalReads(d: Dialect, base: string, lit: string)
    requires NoneOf(base, FormOf(d).sep[0]) && NoneOf(lit, '\'')
    ensures var (amount, unit) := ParseInterval(lit);
      ReadSum(d, AddInterval(d, base, lit)) == if d == SQLite && amount < 0 then None else Some(Sum(base, Span(amount, unit)))
  {
    var (amount, unit) := ParseInterval(lit);
    UnitNone(lit);
    ParsedInterval(lit);
    InnerRead(d, amount, unit);
    Written(d, base, lit, amount, unit, Inner(d, amount, unit));
    SumRead(FormOf(d), AddInterval(d, base, lit), base, Inner(d, amount, unit));
  }

  // --------------------------------------------------------------- reading a call

  lemma {:induction false} TimeReads(d: Dialect)
    ensures ReadTerm(d, Now(d)) == CurrentTime && IsTime(d, Now(d)) && NoneOf(Now(d), FormOf(d).sep[0])
  {
    NoSumHere(d, Now(d));
  }

  lemma {:induction false} IdReads(d: Dialect)
    ensures ReadTerm(d, RandomUUIDExpr(d)) == RandomId
  {
    NoSumHere(d, RandomUUIDExpr(d));
    NotTime(d);
  }

  /** A text that is too short for the dialect's form, or starts with another letter, is no sum. */
  lemma {:induction false} NoSumHere(d: Dialect, text: string)
    requires |text| < |FormOf(d).open| || text[0] != FormOf(d).open[0]
    ensures ReadSum(d, text) == None
  {
    assert text != "" ==> text[0] == text[0 + 0];
  }

  lemma {:induction false} OtherWord(a: string, b: string)
    requires |a| != |b| || (a != "" && LowerChar(a[0]) != LowerChar(b[0]))
    ensures !SameWord(a, b)
  {
    assert |Lower(a)| == |a| && |Lower(b)| == |b|;
    if a != "" && b != "" {
      assert Lower(a)[0] == LowerChar(a[0]) && Lower(b)[0] == LowerChar(b[0]);
    }
  }

  lemma {:induction false} NotTime(d: Dialect)
    ensures !IsTime(d, RandomUUIDExpr(d))
  {
    var id := RandomUUIDExpr(d);
    OtherWord(id, "NOW()");
    OtherWord(id, "now()");
    OtherWord(id, "CURRENT_TIMESTAMP");
    OtherWord(id, "CURRENT_TIMESTAMP()");
  }

  /** SQLite's interval expression is longer than every word. */
  lemma {:induction false} LongNoWord(text: string)
    requires |text| > 28
    ensures !IsTime(SQLite, text) && !IsId(SQLite, text)
  {
    OtherWord(text, "CURRENT_TIMESTAMP");
    OtherWord(text, "lower(hex(randomblob(16)))");
    OtherWord(text, "(lower(hex(randomblob(16))))");
  }

  /**
   For every dialect and every call with a literal without quotes: the database
   reads the generated expression as what the call means, if and only if it is
   not SQLite with a negative amount; that it cannot read.
   */
  lemma {:induction false} CallReadsIff(d: Dialect, c: Call)
    requires c.CallInterval? ==> NoneOf(c.literal, '\'')
    ensures ReadTerm(d, ExprOf(d, c)) == TermOf(c) <==> !(d == SQLite && c.CallInterval? && ParseInterval(c.literal).0 < 0)
    ensures ReadTerm(d, ExprOf(d, c)) == TermOf(c) || ReadTerm(d, ExprOf(d, c)) == Unread
  {
    match c {
      case CallNow => TimeReads(d);
      case CallUUID => IdReads(d);
      case CallInterval(lit) => SumReads(d, lit);
    }
  }

  lemma {:induction false} SumReads(d: Dialect, lit: string)
    requires NoneOf(lit, '\'')
    ensures var (amount, unit) := ParseInterval(lit);
      ReadTerm(d, AddInterval(d, Now(d), lit)) == if d == SQLite && amount < 0 then Unread else TimePlus(amount, unit)
  {
    TimeReads(d);
    IntervalReads(d, Now(d), lit);
    if d == SQLite {
      LongNoWord(AddInterval(d, Now(d), lit));
    }
  }

  /** Wherever a call stands in a query, the expression put in its place reads as the call, with the one exception. */
  lemma {:induction false} QueryCallReadsIff(d: Dialect, q: string, i: nat)
    requires i < |q| && TakeFunction(q, i).Here?
    ensures var c := TakeFunction(q, i).value;
      ReadTerm(d, ExprOf(d, c)) == TermOf(c) <==> !(d == SQLite && c.CallInterval? && ParseInterval(c.literal).0 < 0)
  {
    var c := TakeFunction(q, i).value;
    if c.CallInterval? {
      LiteralNone(q, i);
    }
    CallReadsIff(d, c);
  }

  // ------------------------------------------------------------- whole expressions

  /** A unit as it may be written: the word itself or its plural. */
  predicate WrittenUnit(word: string, unit: string)
  {
    IsUnit(Lower(word)) && (unit == word || unit == word + "s")
  }

  lemma {:induction false} UnitWord(word: string, unit: string)
    requires WrittenUnit(word, unit)
    ensures unit != "" && NoSpaces(unit) && TrimSuffixS(Lower(unit)) == Lower(word)
  {
    forall i | 0 <= i < |unit| ensures !IsSpace(unit[i]) {
      if i < |word| {
        assert unit[i] == word[i] && !IsSpace(Lower(word)[i]);
      }
    }
    if unit != word {
      assert Lower(unit)[..|word|] == Lower(word);
    }
  }

  /** A number, a space and a unit, singular or plural, in any letter case: what the literal says. */
  lemma {:induction false} LiteralSays(n: int, word: string, unit: string)
    requires -MAX_INT64 - 1 <= n <= MAX_INT64 && WrittenUnit(word, unit)
    ensures ParseInterval(Amount(n, unit)) == (n, Lower(word))
  {
    UnitWord(word, unit);
    RenderedNumber(n);
    TwoFields(RenderInt(n), unit);
  }

  /** A single word means one of its unit. */
  lemma {:induction false} WordSays(word: string, unit: string)
    requires WrittenUnit(word, unit)
    ensures ParseInterval(unit) == (1, Lower(word))
  {
    UnitWord(word, unit);
    LastField(unit, 0, unit);
  }

  lemma {:induction false} SaidFree(n: int, unit: string)
    requires NoSpaces(unit) && NoneOf(unit, '\'')
    ensures NoneOf(Amount(n, unit), '\'') && NoConflict(Amount(n, unit))
  {
    AmountNone(n, unit, '\'');
    AmountFree(n, unit);
  }

  lemma {:induction false} RewrittenLiteral(d: Dialect, n: int, word: string, unit: string, lit: string, args: seq<Arg>)
    requires d != Postgres && -MAX_INT64 - 1 <= n <= MAX_INT64
    requires WrittenUnit(word, unit) && NoneOf(unit, '\'') && lit == Amount(n, unit)
    ensures Rewritten(d, BEFORE + (lit + "')"), args) == ("(" + (AddInterval(d, Now(d), lit) + ")"), args)
    ensures ReadTerm(d, AddInterval(d, Now(d), lit)) == if d == SQLite && n < 0 then Unread else TimePlus(n, Lower(word))
  {
    UnitWord(word, unit);
    SaidFree(n, unit);
    LiteralCommutes(d, lit, args);
    LiteralSays(n, word, unit);
    CallReadsIff(d, CallInterval(lit));
  }

  /**
   Rewriting `(now() + interval 'N unit')`, with a unit in the singular or the
   plural: the target database reads the text between the parentheses as the
   current time plus N of that unit.  Only a negative N cannot be read by
   SQLite, which gets a plus sign in front of it.
   */
  lemma {:induction false} RewrittenIntervalReads(d: Dialect, n: int, word: string, unit: string, args: seq<Arg>, r: (string, seq<Arg>))
    requires d != Postgres && -MAX_INT64 - 1 <= n <= MAX_INT64 && WrittenUnit(word, unit) && NoneOf(unit, '\'')
    requires r == Rewritten(d, BEFORE + (Amount(n, unit) + "')"), args)
    ensures r.1 == args && |r.0| >= 2 && r.0[0] == '(' && r.0[|r.0| - 1] == ')'
    ensures ReadTerm(d, r.0[1..|r.0| - 1]) == if d == SQLite && n < 0 then Unread else TimePlus(n, Lower(word))
  {
    RewrittenLiteral(d, n, word, unit, Amount(n, unit), args);
    Parenthesised(AddInterval(d, Now(d), Amount(n, unit)), r.0);
  }

  lemma {:induction false} Parenthesised(t: string, text: string)
    requires text == "(" + (t + ")")
    ensures |text| >= 2 && text[0] == '(' && text[|text| - 1] == ')' && text[1..|text| - 1] == t
  {
  }

  /** The input: an interval of minus one day, which SQLite gets as `+-1 day`. */
  lemma {:induction false} NegativeUnread(args: seq<Arg>, word: string, unit: string, n: int)
    requires word == "day" && unit == "days" && n == -1
    ensures Rewritten(SQLite, BEFORE + (Amount(n, unit) + "')"), args).0
         == "(" + (("datetime(CURRENT_TIMESTAMP, '+" + Amount(n, word)) + "')") + ")"
    ensures ReadTerm(SQLite, ("datetime(CURRENT_TIMESTAMP, '+" + Amount(n, word)) + "')") == Unread
    ensures ReadTerm(MySQL, AddInterval(MySQL, Now(MySQL), Amount(n, unit))) == TimePlus(n, word)
  {
    assert word + "s" == unit && Lower(word) == word;
    assert WrittenUnit(word, unit);
    RewrittenLiteral(SQLite, n, word, unit, Amount(n, unit), args);
    RewrittenLiteral(MySQL, n, word, unit, Amount(n, unit), args);
    LiteralSays(n, word, unit);
    NegativeText(Amount(n, unit), n, word);
  }

  lemma {:induction false} NegativeText(lit: string, n: int, word: string)
    requires ParseInterval(lit) == (n, word)
    ensures AddInterval(SQLite, Now(SQLite), lit) == ("datetime(CURRENT_TIMESTAMP, '+" + Amount(n, word)) + "')"
  {
    var a := Amount(n, word);
    var before := "datetime(" + Now(SQLite) + ", ";
    SqlRewrite.Assoc("'", "+" + a, "')");
    SqlRewrite.Assoc(before, "'" + ("+" + a), "')");
    SqlRewrite.Assoc("'", "+", a);
    SqlRewrite.Assoc(before, "'" + "+", a);
    assert before + ("'" + "+") == "datetime(CURRENT_TIMESTAMP, '+";
  }
}
