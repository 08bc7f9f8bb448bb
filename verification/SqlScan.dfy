/**
 The scanners of db/query.go: placeholders, identifiers, empty calls, quoted
 literals and interval literals, at a position of a query.

 Each scanner is a function on positions; the methods are the index loops of
 the source, proved to compute it.  Text is ASCII.
 */
module SqlScan {
  import opened Decimal

  datatype Dialect = Postgres | MySQL | SQLite

  datatype Taken<+T> = NotHere | Here(value: T, end: nat)

  // ------------------------------------------------------------- characters

  predicate IsIdentStart(c: char)
  {
    c == '_' || 'a' <= c <= 'z' || 'A' <= c <= 'Z'
  }

  predicate IsIdentPart(c: char)
  {
    IsIdentStart(c) || IsDigit(c)
  }

  predicate IsSpace(c: char)
  {
    c == ' ' || c == '\t' || c == '\n' || c == '\r' || c == 11 as char || c == 12 as char
  }

  function LowerChar(c: char): (r: char)
  {
    if 'A' <= c <= 'Z' then c + 32 as char else c
  }

  function UpperChar(c: char): (r: char)
  {
    if 'a' <= c <= 'z' then c - 32 as char else c
  }

  function Lower(s: string): (r: string)
    ensures |r| == |s| && forall i :: 0 <= i < |s| ==> r[i] == LowerChar(s[i])
  {
    seq(|s|, i requires 0 <= i < |s| => LowerChar(s[i]))
  }

  function Upper(s: string): (r: string)
    ensures |r| == |s| && forall i :: 0 <= i < |s| ==> r[i] == UpperChar(s[i])
  {
    seq(|s|, i requires 0 <= i < |s| => UpperChar(s[i]))
  }

  /** Whether the pattern stands at position i. */
  predicate At(s: string, i: nat, pat: string)
  {
    i + |pat| <= |s| && forall k :: 0 <= k < |pat| ==> s[i + k] == pat[k]
  }

  // --------------------------------------------------------------- end of run

  function DigitsEnd(q: string, j: nat): (e: nat)
    requires j <= |q|
    ensures j <= e <= |q| && (forall k :: j <= k < e ==> IsDigit(q[k])) && (e < |q| ==> !IsDigit(q[e]))
    decreases |q| - j
  {
    if j < |q| && IsDigit(q[j]) then DigitsEnd(q, j + 1) else j
  }

  function IdentEnd(q: string, j: nat): (e: nat)
    requires j <= |q|
    ensures j <= e <= |q| && (forall k :: j <= k < e ==> IsIdentPart(q[k])) && (e < |q| ==> !IsIdentPart(q[e]))
    decreases |q| - j
  {
    if j < |q| && IsIdentPart(q[j]) then IdentEnd(q, j + 1) else j
  }

  function SpaceEnd(q: string, j: nat): (e: nat)
    requires j <= |q|
    ensures j <= e <= |q| && (forall k :: j <= k < e ==> q[k] == ' ') && (e < |q| ==> q[e] != ' ')
    decreases |q| - j
  {
    if j < |q| && q[j] == ' ' then SpaceEnd(q, j + 1) else j
  }

  function QuoteEnd(q: string, j: nat): (e: nat)
    requires j <= |q|
    ensures j <= e <= |q| && (forall k :: j <= k < e ==> q[k] != '\'') && (e < |q| ==> q[e] == '\'')
    decreases |q| - j
  {
    if j < |q| && q[j] != '\'' then QuoteEnd(q, j + 1) else j
  }

  // ----------------------------------------------------------------- scanners

  /** takePlaceholder: the number of a `$n` at i that names one of the arguments. */
  function TakePlaceholder(q: string, i: nat, nargs: nat): (r: Taken<nat>)
    requires i < |q|
    ensures r.Here? ==> i < r.end < |q| && 1 <= r.value <= nargs && q[i] == '$'
  {
    if q[i] != '$' || i + 1 >= |q| || !IsDigit(q[i + 1]) then NotHere
    else
      var j := DigitsEnd(q, i + 1);
      var n := Atoi(q[i + 1..j]);
      if n < 1 || n > nargs then NotHere else Here(n, j - 1)
  }

  /** matchCall: the closing parenthesis of an empty call after an identifier ending at `from`. */
  function MatchCall(q: string, from: nat): (r: Taken<()>)
    requires from <= |q|
    ensures r.Here? ==> from <= r.end < |q|
  {
    var i := SpaceEnd(q, from);
    if i >= |q| || q[i] != '(' then NotHere
    else
      var j := SpaceEnd(q, i + 1);
      if j >= |q| || q[j] != ')' then NotHere else Here((), j)
  }

  /** takeQuoted: the literal that opens at i and the position of its closing quote. */
  function TakeQuoted(q: string, i: nat): (r: Taken<string>)
    requires i <= |q|
    ensures r.Here? ==> i < r.end < |q| && (forall k :: 0 <= k < |r.value| ==> r.value[k] != '\'')
  {
    if i >= |q| || q[i] != '\'' then NotHere
    else
      var j := QuoteEnd(q, i + 1);
      if j >= |q| then NotHere else Here(q[i + 1..j], j)
  }

  // --------------------------------------------------------------- expressions

  function Now(d: Dialect): (s: string)
  {
    match d
    case MySQL => "NOW()"
    case SQLite => "CURRENT_TIMESTAMP"
    case Postgres => "now()"
  }

  function RandomUUIDExpr(d: Dialect): (s: string)
  {
    match d
    case MySQL => "(UUID())"
    case SQLite => "(lower(hex(randomblob(16))))"
    case Postgres => "gen_random_uuid()"
  }

  function FieldEnd(s: string, j: nat): (e: nat)
    requires j <= |s|
    ensures j <= e <= |s|
    decreases |s| - j
  {
    if j < |s| && !IsSpace(s[j]) then FieldEnd(s, j + 1) else j
  }

  /** strings.Fields from position j on. */
  function Fields(s: string, j: nat): (fs: seq<string>)
    requires j <= |s|
    ensures forall f, c :: f in fs && c in f ==> c in s
    decreases |s| - j
  {
    if j == |s| then []
    else if IsSpace(s[j]) then Fields(s, j + 1)
    else
      var e := FieldEnd(s, j + 1);
      [s[j..e]] + Fields(s, e)
  }

  const MAX_INT64: int := 0x7fff_ffff_ffff_ffff

  /** strconv.Atoi: an optional sign and digits, within 64 bits. */
  function ParseInt(s: string): (r: Taken<int>)
  {
    var signed := |s| > 0 && (s[0] == '+' || s[0] == '-');
    var digits := if signed then s[1..] else s;
    if digits == [] || !AllDigits(digits) then NotHere
    else
      var n: int := Atoi(digits);
      var v := if signed && s[0] == '-' then -n else n;
      if -MAX_INT64 - 1 <= v <= MAX_INT64 then Here(v, |s|) else NotHere
  }

  function TrimSuffixS(s: string): (r: string)
    ensures forall c :: c in r ==> c in s
  {
    if |s| > 0 && s[|s| - 1] == 's' then s[..|s| - 1] else s
  }

  /** parseInterval: an amount and a singular lower-case unit. */
  function ParseInterval(interval: string): (r: (int, string))
  {
    var fields := Fields(interval, 0);
    if |fields| < 2 then (1, TrimSuffixS(Lower(interval)))
    else
      var unit := TrimSuffixS(Lower(fields[|fields| - 1]));
      var n := ParseInt(fields[0]);
      if n.NotHere? then (1, unit) else (n.value, unit)
  }

  /** The %d rendering. */
  function RenderInt(n: int): (s: string)
  {
    if n < 0 then "-" + Itoa(-n) else Itoa(n)
  }

  /** The amount and the unit, as `%d %s`. */
  function Amount(amount: int, unit: string): (s: string)
  {
    RenderInt(amount) + (" " + unit)
  }

  function AddInterval(d: Dialect, base: string, interval: string): (s: string)
  {
    var (amount, unit) := ParseInterval(interval);
    match d
    case MySQL => ("DATE_ADD(" + base + ", INTERVAL ") + (Amount(amount, Upper(unit)) + ")")
    case SQLite => ("datetime(" + base + ", ") + ("'" + (("+" + Amount(amount, unit)) + "')"))
    case Postgres => ("(" + base + " + interval ") + ("'" + (Amount(amount, unit) + "')"))
  }

  const INTERVAL: string := "interval"

  /** Where a literal should open after the word interval, which follows a plus sign at i. */
  function AfterPlus(q: string, i: nat): (r: Taken<()>)
    requires i < |q|
    ensures r.Here? ==> i < r.end <= |q|
  {
    var k := SpaceEnd(q, i + 1);
    if !At(Lower(q), k, INTERVAL) then NotHere else Here((), SpaceEnd(q, k + |INTERVAL|))
  }

  /** Where the literal of `+ interval` should open, after a call that closes at `from`. */
  function LiteralStart(q: string, from: nat): (r: Taken<()>)
    requires from < |q|
    ensures r.Here? ==> from < r.end <= |q|
  {
    var i := SpaceEnd(q, from + 1);
    if i >= |q| || q[i] != '+' then NotHere else AfterPlus(q, i)
  }

  /** takeInterval: the literal of `+ interval 'N unit'` after a call of now() that closes at `from`. */
  function TakeInterval(q: string, from: nat): (r: Taken<string>)
    requires from < |q|
    ensures r.Here? ==> from < r.end < |q|
  {
    var start := LiteralStart(q, from);
    if start.NotHere? then NotHere else TakeQuoted(q, start.end)
  }

  /** The calls that are translated. */
  datatype Call = CallNow | CallUUID | CallInterval(literal: string)

  datatype Name = NowName | UUIDName | OtherName

  function NameOf(word: string): (n: Name)
  {
    var w := Lower(word);
    if w == "now" then NowName else if w == "gen_random_uuid" then UUIDName else OtherName
  }

  /** takeFunction: a call of now(), with or without an interval, or gen_random_uuid() at i, in any letter case. */
  function TakeFunction(q: string, i: nat): (r: Taken<Call>)
    requires i < |q|
    ensures r.Here? ==> i < r.end < |q| && IsIdentStart(q[i])
  {
    if !IsIdentStart(q[i]) then NotHere
    else
      var j := IdentEnd(q, i + 1);
      var call := MatchCall(q, j);
      if call.NotHere? then NotHere
      else
        match NameOf(q[i..j])
        case NowName =>
          var t := TakeInterval(q, call.end);
          if t.Here? then Here(CallInterval(t.value), t.end) else Here(CallNow, call.end)
        case UUIDName => Here(CallUUID, call.end)
        case OtherName => NotHere
  }

  /** The dialect's expression for a call. */
  function ExprOf(d: Dialect, c: Call): (s: string)
  {
    match c
    case CallNow => Now(d)
    case CallUUID => RandomUUIDExpr(d)
    case CallInterval(literal) => AddInterval(d, Now(d), literal)
  }
}
