/**
 ON CONFLICT and ON DUPLICATE KEY: the upsert translator of db/query.go, the
 per-dialect clause generator, and the proof that translating the generated
 PostgreSQL clause gives the generated MySQL clause.
 */
module SqlUpsert {
  import opened SqlScan

  const ON_CONFLICT: string := "on conflict"
  const EXCLUDED: string := "EXCLUDED."
  const DO_NOTHING: string := "DO NOTHING"
  const DO_UPDATE_SET: string := "DO UPDATE SET"
  const ON_DUPLICATE: string := "ON DUPLICATE KEY UPDATE "

  // ------------------------------------------------------------ string helpers

  /** strings.Index from position i on. */
  function IndexOf(s: string, pat: string, i: nat): (r: Taken<()>)
    ensures r.Here? ==> i <= r.end && At(s, r.end, pat)
    ensures r.NotHere? ==> forall j :: i <= j <= |s| ==> !At(s, j, pat)
    ensures r.Here? ==> forall j :: i <= j < r.end ==> !At(s, j, pat)
    decreases |s| - i
  {
    if i + |pat| > |s| then NotHere
    else if At(s, i, pat) then Here((), i)
    else IndexOf(s, pat, i + 1)
  }

  /** strings.TrimLeft(s, " ") */
  function TrimLeft(s: string): (r: string)
  {
    s[SpaceEnd(s, 0)..]
  }

  function TrimSpace(s: string): (r: string)
    decreases |s|
  {
    if s == "" then ""
    else if IsSpace(s[0]) then TrimSpace(s[1..])
    else if IsSpace(s[|s| - 1]) then TrimSpace(s[..|s| - 1])
    else s
  }

  predicate IsNameQuote(c: char)
  {
    c == '`' || c == '"'
  }

  function TrimNameQuotes(s: string): (r: string)
    decreases |s|
  {
    if s == "" then ""
    else if IsNameQuote(s[0]) then TrimNameQuotes(s[1..])
    else if IsNameQuote(s[|s| - 1]) then TrimNameQuotes(s[..|s| - 1])
    else s
  }

  /** The first comma or closing parenthesis from i on. */
  function ColumnEnd(s: string, i: nat): (e: nat)
    requires i <= |s|
    ensures i <= e <= |s|
    decreases |s| - i
  {
    if i < |s| && s[i] != ',' && s[i] != ')' then ColumnEnd(s, i + 1) else i
  }

  /** firstColumn: the first name inside the first parentheses. */
  function FirstColumn(s: string): (c: string)
  {
    var p := IndexOf(s, "(", 0);
    if p.NotHere? then ""
    else
      var rest := s[p.end + 1..];
      TrimNameQuotes(TrimSpace(rest[..ColumnEnd(rest, 0)]))
  }

  /** The position after the parenthesis that brings the depth to zero. */
  function ParenEnd(s: string, k: nat, depth: nat): (e: nat)
    requires k <= |s|
    ensures k <= e <= |s|
    decreases |s| - k
  {
    if k < |s| && depth > 0 then
      ParenEnd(s, k + 1, if s[k] == '(' then depth + 1 else if s[k] == ')' then depth - 1 else depth)
    else k
  }

  /** The matches of the EXCLUDED.name pattern, leftmost and longest, and the characters between them. */
  datatype Found = Done | Copied(c: char, more: Found) | Match(name: string, more: Found)

  function FindExcluded(s: string): (r: Found)
    decreases |s|
  {
    if s == "" then Done
    else if At(s, 0, EXCLUDED) && |EXCLUDED| < |s| && IsIdentPart(s[|EXCLUDED|]) then
      var e := IdentEnd(s, |EXCLUDED|);
      Match(s[|EXCLUDED|..e], FindExcluded(s[e..]))
    else Copied(s[0], FindExcluded(s[1..]))
  }

  /** The text with every match replaced by VALUES(name). */
  function Replaced(f: Found): (r: string)
  {
    match f
    case Done => ""
    case Copied(c, more) => [c] + Replaced(more)
    case Match(name, more) => ("VALUES(" + name + ")") + Replaced(more)
  }

  /** excludedRe.ReplaceAllString(s, "VALUES($1)") */
  function ReplaceExcluded(s: string): (r: string)
  {
    Replaced(FindExcluded(s))
  }

  // --------------------------------------------------------------- translation

  /** The part of an ON CONFLICT clause after an optional column list, and the column to use. */
  function Target(rest: string, col: string): (r: (string, string))
  {
    if rest == "" || rest[0] != '(' then (rest, col)
    else
      var k := ParenEnd(rest, 1, 1);
      var c := FirstColumn(rest[..k]);
      (TrimLeft(rest[k..]), if c != "" then c else col)
  }

  function Action(query: string, head: string, rest: string, col: string): (r: string)
  {
    if At(Upper(rest), 0, DO_NOTHING) then
      if col == "" then query else head + (ON_DUPLICATE + (col + " = " + col))
    else if At(Upper(rest), 0, DO_UPDATE_SET) then
      head + (ON_DUPLICATE + ReplaceExcluded(TrimSpace(rest[|DO_UPDATE_SET|..])))
    else query
  }

  /** translateMySQLUpsert */
  function TranslateUpsert(query: string): (r: string)
  {
    var idx := IndexOf(Lower(query), ON_CONFLICT, 0);
    if idx.NotHere? then query
    else
      var head := query[..idx.end];
      var (rest, col) := Target(TrimLeft(query[idx.end + |ON_CONFLICT|..]), FirstColumn(head));
      Action(query, head, rest, col)
  }

  /**
   When the translator changes a query: the first ON CONFLICT, wherever it
   stands, is followed after an optional column list by DO UPDATE SET, or by DO
   NOTHING with a column found.
   */
  predicate Translates(query: string)
  {
    var idx := IndexOf(Lower(query), ON_CONFLICT, 0);
    idx.Here? &&
    var (rest, col) := Target(TrimLeft(query[idx.end + |ON_CONFLICT|..]), FirstColumn(query[..idx.end]));
    (At(Upper(rest), 0, DO_NOTHING) && col != "") || At(Upper(rest), 0, DO_UPDATE_SET)
  }

  lemma {:induction false} NotBoth(rest: string)
    requires At(rest, 0, DO_NOTHING)
    ensures !At(rest, 0, DO_UPDATE_SET)
  {
    assert rest[0 + 3] == DO_NOTHING[3] != DO_UPDATE_SET[3];
  }

  lemma {:induction false} LeftAlone(query: string)
    requires !Translates(query)
    ensures TranslateUpsert(query) == query
  {
  }

  /** A translated query keeps what stands before the keyword and goes on with the other dialect's. */
  lemma {:induction false} TranslatedShape(query: string) returns (tail: string)
    requires Translates(query)
    ensures TranslateUpsert(query) == query[..IndexOf(Lower(query), ON_CONFLICT, 0).end] + (ON_DUPLICATE + tail)
  {
    var idx := IndexOf(Lower(query), ON_CONFLICT, 0).end;
    var (rest, col) := Target(TrimLeft(query[idx + |ON_CONFLICT|..]), FirstColumn(query[..idx]));
    tail := ActionShape(query, query[..idx], rest, col);
  }

  lemma {:induction false} ActionShape(query: string, head: string, rest: string, col: string) returns (tail: string)
    requires (At(Upper(rest), 0, DO_NOTHING) && col != "") || At(Upper(rest), 0, DO_UPDATE_SET)
    ensures Action(query, head, rest, col) == head + (ON_DUPLICATE + tail)
  {
    if At(Upper(rest), 0, DO_NOTHING) {
      NotBoth(Upper(rest));
      tail := col + " = " + col;
    } else {
      tail := ReplaceExcluded(TrimSpace(rest[|DO_UPDATE_SET|..]));
    }
  }

  // ----------------------------------------------------------------- generator

  predicate IsIdent(s: string)
  {
    s != "" && forall i :: 0 <= i < |s| ==> IsIdentPart(s[i])
  }

  predicate AllIdents(xs: seq<string>)
  {
    forall i :: 0 <= i < |xs| ==> IsIdent(xs[i])
  }

  /** The separator that strings.Join puts before element k. */
  function Sep(k: nat): (s: string)
  {
    if k == 0 then "" else ", "
  }

  /** strings.Join(xs, ", ") from element k on. */
  function JoinFrom(xs: seq<string>, k: nat): (s: string)
    requires k <= |xs|
    decreases |xs| - k
  {
    if k == |xs| then "" else (Sep(k) + xs[k]) + JoinFrom(xs, k + 1)
  }

  function Overwrite(d: Dialect, c: string): (s: string)
  {
    if d == MySQL then ("VALUES(" + c + ")") else EXCLUDED + c
  }

  /** The assignments of the columns to overwrite, joined, from column k on. */
  function SetsFrom(d: Dialect, updates: seq<string>, k: nat): (s: string)
    requires k <= |updates|
    decreases |updates| - k
  {
    if k == |updates| then ""
    else (Sep(k) + updates[k] + " = ") + (Overwrite(d, updates[k]) + SetsFrom(d, updates, k + 1))
  }

  /** What follows the column list of an ON CONFLICT clause. */
  function ConflictAction(updates: seq<string>): (s: string)
  {
    if updates == [] then DO_NOTHING else DO_UPDATE_SET + (" " + SetsFrom(Postgres, updates, 0))
  }

  function UpsertClause(d: Dialect, conflict: seq<string>, updates: seq<string>): (s: string)
    requires d == MySQL && updates == [] ==> conflict != []
  {
    if d == MySQL then
      if updates == [] then ON_DUPLICATE + (conflict[0] + " = " + conflict[0])
      else ON_DUPLICATE + SetsFrom(MySQL, updates, 0)
    else "ON CONFLICT" + (" " + ("(" + (JoinFrom(conflict, 0) + (")" + (" " + ConflictAction(updates))))))
  }

  // ------------------------------------------------------- finding the keyword

  /** The keyword does not overlap a shifted copy of itself. */
  lemma {:induction false} NoOverlap(k: nat)
    requires 0 < k < |ON_CONFLICT|
    ensures exists m :: 0 <= m < |ON_CONFLICT| - k && ON_CONFLICT[k + m] != ON_CONFLICT[m]
  {
    if k == 4 {
      assert ON_CONFLICT[4 + 2] != ON_CONFLICT[2];
    } else {
      assert ON_CONFLICT[k + 0] != ON_CONFLICT[0];
    }
  }

  lemma {:induction false} AtChar(s: string, j: nat, pat: string, m: nat)
    requires At(s, j, pat) && m < |pat|
    ensures j + m < |s| && s[j + m] == pat[m]
  {
  }

  lemma {:induction false} AtParts(q: string, i: nat, a: string, b: string)
    requires At(q, i, a + b)
    ensures At(q, i, a) && At(q, i + |a|, b)
  {
    forall k | 0 <= k < |a| ensures q[i + k] == a[k] {
      AtChar(q, i, a + b, k);
    }
    forall k | 0 <= k < |b| ensures q[i + |a| + k] == b[k] {
      AtChar(q, i, a + b, |a| + k);
      assert (a + b)[|a| + k] == b[k];
    }
  }

  lemma {:induction false} KeywordStands(head: string, rest: string)
    ensures At(Lower(head + ("ON CONFLICT" + rest)), |head|, ON_CONFLICT)
  {
    var q := head + ("ON CONFLICT" + rest);
    forall m | 0 <= m < |ON_CONFLICT| ensures Lower(q)[|head| + m] == ON_CONFLICT[m] {
      assert q[|head| + m] == "ON CONFLICT"[m];
    }
  }

  lemma {:induction false} AtInHead(head: string, tail: string, j: nat)
    requires At(Lower(head + tail), j, ON_CONFLICT) && j + |ON_CONFLICT| <= |head|
    ensures At(Lower(head), j, ON_CONFLICT)
  {
    forall k | 0 <= k < |ON_CONFLICT| ensures Lower(head)[j + k] == ON_CONFLICT[k] {
      assert Lower(head + tail)[j + k] == ON_CONFLICT[k];
    }
  }

  /** A keyword that starts in the head cannot run into the clause's own keyword. */
  lemma {:induction false} NoStraddle(head: string, rest: string, j: nat)
    requires j < |head| < j + |ON_CONFLICT|
    ensures !At(Lower(head + ("ON CONFLICT" + rest)), j, ON_CONFLICT)
  {
    var q := Lower(head + ("ON CONFLICT" + rest));
    var k: nat := |head| - j;
    NoOverlap(k);
    var m: nat :| 0 <= m < |ON_CONFLICT| - k && ON_CONFLICT[k + m] != ON_CONFLICT[m];
    KeywordStands(head, rest);
    AtChar(q, |head|, ON_CONFLICT, m);
    assert q[j + (k + m)] != ON_CONFLICT[k + m];
  }

  /** The translator finds the clause right after a head that has none. */
  lemma {:induction false} KeywordFound(head: string, rest: string)
    requires IndexOf(Lower(head), ON_CONFLICT, 0).NotHere?
    ensures IndexOf(Lower(head + ("ON CONFLICT" + rest)), ON_CONFLICT, 0).Here?
    ensures IndexOf(Lower(head + ("ON CONFLICT" + rest)), ON_CONFLICT, 0).end == |head|
  {
    var q := Lower(head + ("ON CONFLICT" + rest));
    KeywordStands(head, rest);
    forall j | 0 <= j < |head| ensures !At(q, j, ON_CONFLICT) {
      if j + |ON_CONFLICT| > |head| {
        NoStraddle(head, rest, j);
      } else if At(q, j, ON_CONFLICT) {
        AtInHead(head, "ON CONFLICT" + rest, j);
      }
    }
  }

  // -------------------------------------------------------- the column list

  /** A joined list of names holds neither parentheses nor dots. */
  lemma {:induction false} JoinChars(xs: seq<string>, k: nat)
    requires AllIdents(xs) && k <= |xs|
    ensures forall i :: 0 <= i < |JoinFrom(xs, k)| ==> JoinFrom(xs, k)[i] != '(' && JoinFrom(xs, k)[i] != ')'
    decreases |xs| - k
  {
    if k < |xs| {
      JoinChars(xs, k + 1);
      assert IsIdent(xs[k]);
    }
  }

  lemma {:induction false} ParenFound(s: string, n: nat, k: nat)
    requires k <= n < |s| && s[n] == ')' && forall i :: k <= i < n ==> s[i] != '(' && s[i] != ')'
    ensures ParenEnd(s, k, 1) == n + 1
    decreases n - k
  {
    if k < n {
      ParenFound(s, n, k + 1);
    }
  }

  lemma {:induction false} ColumnFound(s: string, n: nat, i: nat)
    requires i <= n < |s| && (s[n] == ',' || s[n] == ')') && forall m :: i <= m < n ==> s[m] != ',' && s[m] != ')'
    ensures ColumnEnd(s, i) == n
    decreases n - i
  {
    if i < n {
      ColumnFound(s, n, i + 1);
    }
  }

  lemma {:induction false} IdentUntrimmed(c: string)
    requires IsIdent(c)
    ensures TrimSpace(c) == c && TrimNameQuotes(c) == c
  {
    assert IsIdentPart(c[0]) && IsIdentPart(c[|c| - 1]);
  }

  lemma {:induction false} ParenIndex(s: string)
    requires s != "" && s[0] == '('
    ensures IndexOf(s, "(", 0).Here? && IndexOf(s, "(", 0).end == 0
  {
  }

  /** The first name of a column list, or nothing for an empty list. */
  lemma {:induction false} FirstOfList(xs: seq<string>)
    requires AllIdents(xs)
    ensures FirstColumn("(" + (JoinFrom(xs, 0) + ")")) == if xs == [] then "" else xs[0]
  {
    var s := "(" + (JoinFrom(xs, 0) + ")");
    ParenIndex(s);
    var rest := JoinFrom(xs, 0) + ")";
    assert s[1..] == rest;
    if xs == [] {
      assert rest == ")";
      ColumnFound(rest, 0, 0);
      assert rest[..0] == "";
    } else {
      var c := xs[0];
      assert IsIdent(c);
      assert Sep(0) + c == c;
      if |xs| == 1 {
        assert JoinFrom(xs, 1) == "";
        assert rest == c + ")";
      } else {
        assert JoinFrom(xs, 1) == (Sep(1) + xs[1]) + JoinFrom(xs, 2);
        assert rest[|c|] == ',';
      }
      assert rest[..|c|] == c;
      forall m | 0 <= m < |c| ensures rest[m] != ',' && rest[m] != ')' {
        assert rest[m] == c[m] && IsIdentPart(c[m]);
      }
      ColumnFound(rest, |c|, 0);
      IdentUntrimmed(c);
    }
  }

  lemma {:induction false} TrimOneSpace(s: string)
    requires s != "" && s[0] != ' '
    ensures TrimLeft(" " + s) == s && TrimLeft(s) == s
  {
    assert SpaceEnd(" " + s, 1) == 1;
    assert (" " + s)[1..] == s;
    assert s[0..] == s;
  }

  /** The generated column list is skipped and its first name becomes the column. */
  lemma {:induction false} ListTaken(xs: seq<string>, action: string, col: string)
    requires AllIdents(xs) && action != "" && action[0] != ' '
    ensures Target("(" + (JoinFrom(xs, 0) + (")" + (" " + action))), col)
         == (action, if xs == [] then col else xs[0])
  {
    var j := JoinFrom(xs, 0);
    var rest := "(" + (j + (")" + (" " + action)));
    ListEnd(j, " " + action, xs);
    FirstOfList(xs);
    TrimOneSpace(action);
    if xs != [] {
      assert IsIdent(xs[0]);
    }
  }

  lemma {:induction false} ListEnd(j: string, more: string, xs: seq<string>)
    requires AllIdents(xs) && j == JoinFrom(xs, 0)
    ensures var rest := "(" + (j + (")" + more));
      && ParenEnd(rest, 1, 1) == |j| + 2
      && rest[..|j| + 2] == "(" + (j + ")") && rest[|j| + 2..] == more
  {
    var rest := "(" + (j + (")" + more));
    JoinChars(xs, 0);
    forall i | 1 <= i < |j| + 1 ensures rest[i] != '(' && rest[i] != ')' {
      assert rest[i] == j[i - 1];
    }
    ParenFound(rest, |j| + 1, 1);
  }

  // ------------------------------------------------------------- assignments

  lemma {:induction false} Assoc(a: string, b: string, c: string)
    ensures a + (b + c) == a + b + c
  {
  }

  function CopyAll(t: string, more: Found): (f: Found)
  {
    if t == "" then more else Copied(t[0], CopyAll(t[1..], more))
  }

  lemma {:induction false} CopiedText(t: string, more: Found)
    ensures Replaced(CopyAll(t, more)) == t + Replaced(more)
  {
    if t != "" {
      CopiedText(t[1..], more);
      Assoc([t[0]], t[1..], Replaced(more));
      assert [t[0]] + t[1..] == t;
    }
  }

  lemma {:induction false} IdentEndIs(s: string, j: nat, e: nat)
    requires j <= e <= |s| && (forall k :: j <= k < e ==> IsIdentPart(s[k])) && (e < |s| ==> !IsIdentPart(s[e]))
    ensures IdentEnd(s, j) == e
    decreases e - j
  {
    if j < e {
      IdentEndIs(s, j + 1, e);
    }
  }

  predicate NoDot(t: string)
  {
    forall i :: 0 <= i < |t| ==> t[i] != '.'
  }

  /** Text without a dot is copied up to the next EXCLUDED. */
  lemma {:induction false} LeadCopied(lead: string, tail: string)
    requires NoDot(lead) && At(tail, 0, EXCLUDED)
    ensures FindExcluded(lead + tail) == CopyAll(lead, FindExcluded(tail))
    decreases |lead|
  {
    if lead == "" {
      assert lead + tail == tail;
    } else {
      NotAtLead(lead, tail);
      assert (lead + tail)[1..] == lead[1..] + tail;
      LeadCopied(lead[1..], tail);
    }
  }

  lemma {:induction false} NotAtLead(lead: string, tail: string)
    requires lead != "" && NoDot(lead) && At(tail, 0, EXCLUDED)
    ensures !At(lead + tail, 0, EXCLUDED)
  {
    var s := lead + tail;
    assert EXCLUDED[8] == '.' && forall k :: 0 <= k < 8 ==> EXCLUDED[k] != '.';
    if |lead| <= 8 {
      AtChar(tail, 0, EXCLUDED, 8 - |lead|);
    }
    assert s[0 + 8] != EXCLUDED[8];
  }

  /** One EXCLUDED.c is found with its whole name. */
  lemma {:induction false} ValueFound(c: string, rest: string)
    requires IsIdent(c) && Apart(rest)
    ensures FindExcluded((EXCLUDED + c) + rest) == Match(c, FindExcluded(rest))
  {
    var s := (EXCLUDED + c) + rest;
    var e := |EXCLUDED| + |c|;
    forall k | 0 <= k < |EXCLUDED| ensures s[0 + k] == EXCLUDED[k] {
    }
    forall k | |EXCLUDED| <= k < e ensures IsIdentPart(s[k]) {
      assert s[k] == c[k - |EXCLUDED|];
    }
    IdentEndIs(s, |EXCLUDED|, e);
    assert s[|EXCLUDED|..e] == c;
    assert s[e..] == rest;
  }

  /** Text that does not go on with a name. */
  predicate Apart(t: string)
  {
    t == "" || !IsIdentPart(t[0])
  }

  lemma {:induction false} SetsOpen(us: seq<string>, k: nat, tail: string)
    requires 0 < k <= |us| && Apart(tail)
    ensures Apart(SetsFrom(Postgres, us, k) + tail)
  {
    if k == |us| {
      assert SetsFrom(Postgres, us, k) + tail == tail;
    } else {
      assert SetsFrom(Postgres, us, k)[0] == ',';
    }
  }

  /** The text before a column's new value: separator, name and equals sign. */
  function Lead(us: seq<string>, k: nat): (t: string)
    requires k < |us|
  {
    Sep(k) + us[k] + " = "
  }

  lemma {:induction false} LeadNoDot(us: seq<string>, k: nat)
    requires AllIdents(us) && k < |us|
    ensures NoDot(Lead(us, k))
  {
    assert IsIdent(us[k]);
  }

  /** What the pattern finds in the generated assignments from column k on, and after them. */
  function FoundSets(us: seq<string>, k: nat, more: Found): (f: Found)
    requires k <= |us|
    decreases |us| - k
  {
    if k == |us| then more else CopyAll(Lead(us, k), Match(us[k], FoundSets(us, k + 1, more)))
  }

  /** What the pattern finds from each column on, one assignment after the other. */
  lemma {:induction false} ChainedSets(us: seq<string>, fs: seq<Found>, k: nat)
    requires k <= |us| && |fs| == |us| + 1
    requires forall i, j :: 0 <= i < |us| && j == i + 1 ==> fs[i] == CopyAll(Lead(us, i), Match(us[i], fs[j]))
    ensures fs[k] == FoundSets(us, k, fs[|us|])
    decreases |us| - k
  {
    if k < |us| {
      var j := k + 1;
      ChainedSets(us, fs, j);
    }
  }

  function FoundFrom(us: seq<string>, k: nat, tail: string): (f: Found)
    requires k <= |us|
  {
    FindExcluded(SetsFrom(Postgres, us, k) + tail)
  }

  lemma {:induction false} FindInSets(us: seq<string>, tail: string)
    requires AllIdents(us) && Apart(tail)
    ensures FoundFrom(us, 0, tail) == FoundSets(us, 0, FoundFrom(us, |us|, tail))
  {
    var fs := seq(|us| + 1, k requires 0 <= k <= |us| => FoundFrom(us, k, tail));
    forall i, j | 0 <= i < |us| && j == i + 1 ensures fs[i] == CopyAll(Lead(us, i), Match(us[i], fs[j])) {
      FindAssignment(us, i, tail, SetsFrom(Postgres, us, i) + tail, SetsFrom(Postgres, us, j) + tail, FoundFrom(us, j, tail));
    }
    ChainedSets(us, fs, 0);
  }

  lemma {:induction false} FindAssignment(us: seq<string>, k: nat, tail: string, text: string, rest: string, found: Found)
    requires AllIdents(us) && k < |us| && Apart(tail) && found == FindExcluded(rest)
    requires text == SetsFrom(Postgres, us, k) + tail && rest == SetsFrom(Postgres, us, k + 1) + tail
    ensures FindExcluded(text) == CopyAll(Lead(us, k), Match(us[k], found))
  {
    SetsOpen(us, k + 1, tail);
    SetsSplit(us, k, tail);
    FindValue(Lead(us, k), us[k], rest) by {
      assert IsIdent(us[k]);
      LeadNoDot(us, k);
    }
  }

  lemma {:induction false} SetsSplit(us: seq<string>, k: nat, tail: string)
    requires k < |us|
    ensures SetsFrom(Postgres, us, k) + tail == Lead(us, k) + ((EXCLUDED + us[k]) + (SetsFrom(Postgres, us, k + 1) + tail))
  {
    var value, rest := EXCLUDED + us[k], SetsFrom(Postgres, us, k + 1);
    Assoc(Lead(us, k), value + rest, tail);
    Assoc(value, rest, tail);
  }

  lemma {:induction false} FindValue(lead: string, c: string, rest: string)
    requires NoDot(lead) && IsIdent(c) && Apart(rest)
    ensures FindExcluded(lead + ((EXCLUDED + c) + rest)) == CopyAll(lead, Match(c, FindExcluded(rest)))
  {
    ValueFound(c, rest);
    forall m | 0 <= m < |EXCLUDED| ensures ((EXCLUDED + c) + rest)[0 + m] == EXCLUDED[m] {
    }
    LeadCopied(lead, (EXCLUDED + c) + rest);
  }

  lemma {:induction false} FoundReplaced(us: seq<string>, k: nat, more: Found)
    requires k <= |us|
    ensures Replaced(FoundSets(us, k, more)) == SetsFrom(MySQL, us, k) + Replaced(more)
    decreases |us| - k
  {
    if k < |us| {
      FoundReplaced(us, k + 1, more);
      CopiedText(Lead(us, k), Match(us[k], FoundSets(us, k + 1, more)));
      var value, rest := Overwrite(MySQL, us[k]), SetsFrom(MySQL, us, k + 1);
      Assoc(value, rest, Replaced(more));
      Assoc(Lead(us, k), value + rest, Replaced(more));
    }
  }

  /** Replacing in the generated assignments gives the other dialect's assignments, whatever follows them. */
  lemma {:induction false} ReplaceSets(us: seq<string>, tail: string)
    requires AllIdents(us) && Apart(tail)
    ensures ReplaceExcluded(SetsFrom(Postgres, us, 0) + tail) == SetsFrom(MySQL, us, 0) + ReplaceExcluded(tail)
  {
    FindInSets(us, tail);
    assert SetsFrom(Postgres, us, |us|) + tail == tail;
    FoundReplaced(us, 0, FindExcluded(tail));
  }

  // ------------------------------------------------------------- commutation

  lemma {:induction false} SetsUntrimmed(us: seq<string>)
    requires AllIdents(us) && us != []
    ensures var s := SetsFrom(Postgres, us, 0);
      EndsInText(s) && !IsSpace(s[0])
  {
    SetsLast(us, 0);
    assert IsIdent(us[0]) && IsIdentPart(us[0][0]);
    assert SetsFrom(Postgres, us, 0)[0] == Lead(us, 0)[0] == us[0][0];
  }

  predicate EndsInText(s: string)
  {
    s != "" && !IsSpace(s[|s| - 1])
  }

  lemma {:induction false} EndsAfter(a: string, b: string)
    requires EndsInText(b)
    ensures EndsInText(a + b)
  {
    assert (a + b)[|a + b| - 1] == b[|b| - 1];
  }

  lemma {:induction false} IdentEndsInText(c: string)
    requires IsIdent(c)
    ensures EndsInText(c)
  {
    assert IsIdentPart(c[|c| - 1]);
  }

  lemma {:induction false} SetsLast(us: seq<string>, k: nat)
    requires AllIdents(us) && k < |us|
    ensures EndsInText(SetsFrom(Postgres, us, k))
    decreases |us| - k
  {
    var value, rest := Overwrite(Postgres, us[k]), SetsFrom(Postgres, us, k + 1);
    if k + 1 < |us| {
      SetsLast(us, k + 1);
      EndsAfter(value, rest);
    } else {
      assert IsIdent(us[k]);
      IdentEndsInText(us[k]);
      EndsAfter(EXCLUDED, us[k]);
      assert rest == "" && value + rest == value;
    }
    EndsAfter(Lead(us, k), value + rest);
  }

  /** The text without the white space at its end. */
  function TrimEnd(t: string): (r: string)
  {
    if EndsInText(t) || t == "" then t else TrimEnd(t[..|t| - 1])
  }

  lemma {:induction false} TrimmedTail(s: string, tail: string)
    requires EndsInText(s) && !IsSpace(s[0])
    ensures TrimSpace(s + tail) == s + TrimEnd(tail)
    decreases |tail|
  {
    if tail == "" {
      assert s + tail == s;
    } else if !EndsInText(tail) {
      assert (s + tail)[..|s + tail| - 1] == s + tail[..|tail| - 1];
      TrimmedTail(s, tail[..|tail| - 1]);
    } else {
      EndsAfter(s, tail);
    }
  }

  lemma {:induction false} EndApart(tail: string)
    requires Apart(tail)
    ensures Apart(TrimEnd(tail))
  {
    if !EndsInText(tail) && tail != "" {
      EndApart(tail[..|tail| - 1]);
    }
  }

  lemma {:induction false} TrimmedSets(us: seq<string>, tail: string)
    requires AllIdents(us) && us != []
    ensures TrimSpace((" " + SetsFrom(Postgres, us, 0)) + tail) == SetsFrom(Postgres, us, 0) + TrimEnd(tail)
  {
    SetsUntrimmed(us);
    TrimmedBoth(SetsFrom(Postgres, us, 0), tail);
  }

  lemma {:induction false} TrimmedBoth(s: string, tail: string)
    requires EndsInText(s) && !IsSpace(s[0])
    ensures TrimSpace((" " + s) + tail) == s + TrimEnd(tail)
  {
    var t := (" " + s) + tail;
    assert t[0] == ' ' && t[1..] == s + tail;
    TrimmedTail(s, tail);
  }

  lemma {:induction false} ActionNothing(query: string, head: string, tail: string, col: string)
    requires col != ""
    ensures Action(query, head, DO_NOTHING + tail, col) == head + (ON_DUPLICATE + (col + " = " + col))
  {
    var rest := DO_NOTHING + tail;
    forall k | 0 <= k < |DO_NOTHING| ensures Upper(rest)[0 + k] == DO_NOTHING[k] {
      assert rest[k] == DO_NOTHING[k];
    }
  }

  lemma {:induction false} ActionUpdate(query: string, head: string, sets: string, col: string)
    ensures Action(query, head, DO_UPDATE_SET + sets, col) == head + (ON_DUPLICATE + ReplaceExcluded(TrimSpace(sets)))
  {
    var rest := DO_UPDATE_SET + sets;
    forall k | 0 <= k < |DO_UPDATE_SET| ensures Upper(rest)[0 + k] == DO_UPDATE_SET[k] {
      assert rest[k] == DO_UPDATE_SET[k];
    }
    assert Upper(rest)[3] == 'U' && DO_NOTHING[3] == 'N';
    assert !At(Upper(rest), 0, DO_NOTHING) by {
      assert Upper(rest)[0 + 3] != DO_NOTHING[3];
    }
    assert rest[|DO_UPDATE_SET|..] == sets;
  }

  /** What is left of the text after a clause: nothing after DO NOTHING, else that text with its pattern matches replaced. */
  function TailAfter(updates: seq<string>, tail: string): (r: string)
  {
    if updates == [] then "" else ReplaceExcluded(TrimEnd(tail))
  }

  lemma {:induction false} UpdateTaken(query: string, head: string, updates: seq<string>, tail: string, col: string)
    requires AllIdents(updates) && updates != [] && Apart(tail)
    ensures Action(query, head, ConflictAction(updates) + tail, col)
         == head + (ON_DUPLICATE + (SetsFrom(MySQL, updates, 0) + ReplaceExcluded(TrimEnd(tail))))
  {
    var sets := " " + SetsFrom(Postgres, updates, 0);
    Assoc(DO_UPDATE_SET, sets, tail);
    ActionUpdate(query, head, sets + tail, col);
    TrimmedSets(updates, tail);
    EndApart(tail);
    ReplaceSets(updates, TrimEnd(tail));
  }

  lemma {:induction false} ActionTaken(query: string, head: string, conflict: seq<string>, updates: seq<string>, tail: string, col: string)
    requires AllIdents(conflict) && AllIdents(updates) && (updates == [] ==> conflict != []) && Apart(tail)
    ensures Action(query, head, ConflictAction(updates) + tail, if conflict == [] then col else conflict[0])
         == head + (UpsertClause(MySQL, conflict, updates) + TailAfter(updates, tail))
  {
    if updates == [] {
      assert IsIdent(conflict[0]);
      ActionNothing(query, head, tail, conflict[0]);
      var clause := UpsertClause(MySQL, conflict, updates);
      assert clause + "" == clause;
    } else {
      UpdateTaken(query, head, updates, tail, if conflict == [] then col else conflict[0]);
      Assoc(ON_DUPLICATE, SetsFrom(MySQL, updates, 0), ReplaceExcluded(TrimEnd(tail)));
    }
  }

  /** What the translator takes apart: the head, and the text after the keyword. */
  lemma {:induction false} ClauseParts(head: string, list: string)
    requires IndexOf(Lower(head), ON_CONFLICT, 0).NotHere? && list != "" && list[0] != ' '
    ensures var query := head + ("ON CONFLICT" + (" " + list));
      && IndexOf(Lower(query), ON_CONFLICT, 0).Here? && IndexOf(Lower(query), ON_CONFLICT, 0).end == |head|
      && query[..|head|] == head && TrimLeft(query[|head| + |ON_CONFLICT|..]) == list
  {
    var query := head + ("ON CONFLICT" + (" " + list));
    KeywordFound(head, " " + list);
    assert query[|head| + |ON_CONFLICT|..] == " " + list;
    TrimOneSpace(list);
  }

  lemma {:induction false} Translated(query: string, head: string, list: string, action: string, col: string)
    requires IndexOf(Lower(query), ON_CONFLICT, 0).Here? && IndexOf(Lower(query), ON_CONFLICT, 0).end == |head|
    requires query[..|head|] == head && TrimLeft(query[|head| + |ON_CONFLICT|..]) == list
    requires Target(list, FirstColumn(head)) == (action, col)
    ensures TranslateUpsert(query) == Action(query, head, action, col)
  {
  }

  /** The column list and the action of a PostgreSQL clause, with what follows it. */
  function ListAndAction(conflict: seq<string>, action: string): (s: string)
  {
    "(" + (JoinFrom(conflict, 0) + (")" + (" " + action)))
  }

  lemma {:induction false} ClauseWithTail(conflict: seq<string>, updates: seq<string>, tail: string)
    ensures UpsertClause(Postgres, conflict, updates) + tail
         == "ON CONFLICT" + (" " + ListAndAction(conflict, ConflictAction(updates) + tail))
  {
    var action, join := ConflictAction(updates), JoinFrom(conflict, 0);
    Assoc("ON CONFLICT", " " + ListAndAction(conflict, action), tail);
    Assoc(" ", ListAndAction(conflict, action), tail);
    Assoc("(", join + (")" + (" " + action)), tail);
    Assoc(join, ")" + (" " + action), tail);
    Assoc(")", " " + action, tail);
    Assoc(" ", action, tail);
  }

  /**
   Translating a statement with the generated PostgreSQL clause gives the same
   statement with the generated MySQL clause.  Text after a DO NOTHING clause is
   dropped; text after a DO UPDATE SET clause stays, without its trailing white
   space and with its EXCLUDED names replaced.
   */
  lemma {:induction false} UpsertCommutes(head: string, conflict: seq<string>, updates: seq<string>, tail: string)
    requires AllIdents(conflict) && AllIdents(updates) && (updates == [] ==> conflict != []) && Apart(tail)
    requires IndexOf(Lower(head), ON_CONFLICT, 0).NotHere?
    ensures TranslateUpsert(head + (UpsertClause(Postgres, conflict, updates) + tail))
         == head + (UpsertClause(MySQL, conflict, updates) + TailAfter(updates, tail))
  {
    var action := ConflictAction(updates) + tail;
    var list := ListAndAction(conflict, action);
    var query := head + ("ON CONFLICT" + (" " + list));
    var col := if conflict == [] then FirstColumn(head) else conflict[0];
    ClauseWithTail(conflict, updates, tail);
    ClauseParts(head, list);
    ListTaken(conflict, action, FirstColumn(head));
    Translated(query, head, list, action, col);
    ActionTaken(query, head, conflict, updates, tail, FirstColumn(head));
  }

  // ---------------------------------------------------- the generator as a loop

  function Assignment(d: Dialect, c: string): (s: string)
  {
    c + " = " + Overwrite(d, c)
  }

  function Assignments(d: Dialect, updates: seq<string>, n: nat): (sets: seq<string>)
    requires n <= |updates|
  {
    seq(n, i requires 0 <= i < n => Assignment(d, updates[i]))
  }

  lemma {:induction false} JoinedAssignments(d: Dialect, updates: seq<string>, k: nat)
    requires k <= |updates|
    ensures JoinFrom(Assignments(d, updates, |updates|), k) == SetsFrom(d, updates, k)
    decreases |updates| - k
  {
    if k < |updates| {
      JoinedAssignments(d, updates, k + 1);
      Assoc(Sep(k), updates[k] + " = ", Overwrite(d, updates[k]));
      Assoc(Sep(k), updates[k], " = ");
      Assoc(Sep(k) + updates[k] + " = ", Overwrite(d, updates[k]), SetsFrom(d, updates, k + 1));
    }
  }

  method JoinAssignments(d: Dialect, updates: seq<string>) returns (s: string)
    ensures s == SetsFrom(d, updates, 0)
  {
    var sets: seq<string> := [];
    var i := 0;
    while i < |updates|
      invariant 0 <= i <= |updates| && sets == Assignments(d, updates, i)
    {
      sets, i := sets + [Assignment(d, updates[i])], i + 1;
    }
    JoinedAssignments(d, updates, 0);
    s := JoinFrom(sets, 0);
  }

  method WriteUpsertClause(d: Dialect, conflict: seq<string>, updates: seq<string>) returns (s: string)
    requires d == MySQL && updates == [] ==> conflict != []
    ensures s == UpsertClause(d, conflict, updates)
  {
    if d == MySQL {
      if updates == [] {
        return ON_DUPLICATE + (conflict[0] + " = " + conflict[0]);
      }
      var sets := JoinAssignments(MySQL, updates);
      return ON_DUPLICATE + sets;
    }
    var action := DO_NOTHING;
    if updates != [] {
      var sets := JoinAssignments(Postgres, updates);
      action := DO_UPDATE_SET + (" " + sets);
    }
    return "ON CONFLICT" + (" " + ("(" + (JoinFrom(conflict, 0) + (")" + (" " + action)))));
  }
}
