/**
 Queries whose quoted literals do not survive Rewrite of db/query.go for MySQL:
 a literal that holds ON CONFLICT DO NOTHING, and an interval literal whose unit
 holds a `?`, which is written bare and becomes a mark.
 */
module SqlLeaks {
  import opened Decimal
  import opened SqlScan
  import opened SqlRewrite
  import opened SqlMeaning
  import opened SqlUpsert
  import opened SqlQuery
  import opened SqlInLists
  import opened SqlCalls
  import opened SqlLiterals

  // ------------------------------------------------- literals that are destroyed

  lemma {:induction false} GuardMet(query: string, head: string, list: string, action: string, col: string)
    requires IndexOf(Lower(query), ON_CONFLICT, 0).Here? && IndexOf(Lower(query), ON_CONFLICT, 0).end == |head|
    requires query[..|head|] == head && TrimLeft(query[|head| + |ON_CONFLICT|..]) == list
    requires Target(list, FirstColumn(head)) == (action, col)
    requires (At(Upper(action), 0, DO_NOTHING) && col != "") || At(Upper(action), 0, DO_UPDATE_SET)
    ensures Translates(query)
  {
  }

  lemma {:induction false} NothingAt(tail: string)
    ensures At(Upper(DO_NOTHING + tail), 0, DO_NOTHING)
  {
    var list := DO_NOTHING + tail;
    forall k | 0 <= k < |DO_NOTHING| ensures Upper(list)[0 + k] == DO_NOTHING[k] {
      assert list[k] == DO_NOTHING[k];
    }
  }

  lemma {:induction false} NoList(rest: string, col: string)
    requires rest != "" && rest[0] != '('
    ensures Target(rest, col) == (rest, col)
  {
  }

  /**
   DO NOTHING without a column list, with a column found in the head, takes the
   rest of the statement away: all of it, be it the end of a literal.
   */
  lemma {:induction false} RestTaken(q: string, head: string, list: string, tail: string, col: string)
    requires IndexOf(Lower(head), ON_CONFLICT, 0).NotHere? && col == FirstColumn(head) && col != ""
    requires list == DO_NOTHING + tail && q == head + ("ON CONFLICT" + (" " + list))
    ensures Translates(q) && IndexOf(Lower(q), ON_CONFLICT, 0).Here? && IndexOf(Lower(q), ON_CONFLICT, 0).end == |head|
    ensures TranslateUpsert(q) == head + (ON_DUPLICATE + (col + " = " + col))
  {
    assert list[0] == DO_NOTHING[0] == 'D';
    ClauseParts(head, list);
    NoList(list, col);
    NothingAt(tail);
    Translated(q, head, list, list, col);
    GuardMet(q, head, list, list, col);
    ActionNothing(q, head, tail, col);
  }

  lemma {:induction false} SmallHead(head: string, col: string)
    requires head == "(a)'" && col == "a"
    ensures FirstColumn(head) == col && IndexOf(Lower(head), ON_CONFLICT, 0).NotHere?
    ensures |head| == 4 && head[0] == '(' && head[1] == 'a' && head[2] == ')' && head[3] == '\''
  {
    ParenIndex(head);
    var rest := head[1..];
    ColumnFound(rest, 1, 0);
    assert rest[..1] == "a";
    IdentUntrimmed("a");
  }

  lemma {:induction false} SmallQuoted(q: string, head: string)
    requires |head| == 4 && head[0] == '(' && head[1] == 'a' && head[2] == ')' && head[3] == '\''
    requires |q| > 4 && q[..4] == head
    ensures Odd(q, 4) && !InInterval(q, 4)
  {
    assert q[0] == head[0] && q[1] == head[1] && q[2] == head[2] && q[3] == head[3];
    OddSame(q, 0, 3);
    forall i, o | 0 <= i < o < 4 ensures !OpensInterval(q, i, o) {
      if i == 1 {
        assert IdentEnd(q, 2) == 2 && SpaceEnd(q, 2) == 2;
      }
    }
  }

  lemma {:induction false} SmallTranslated(q: string, head: string, tail: string, col: string)
    requires head == "(a)'" && col == "a" && q == head + ("ON CONFLICT" + (" " + (DO_NOTHING + tail)))
    ensures KeywordQuoted(q) && Odd(q, 4) && Translates(q) && TranslateUpsert(q) == head + (ON_DUPLICATE + (col + " = " + col))
  {
    SmallHead(head, col);
    RestTaken(q, head, DO_NOTHING + tail, tail, col);
    SmallQuoted(q, head);
  }

  /**
   A statement whose literal is ON CONFLICT DO NOTHING: the translator replaces
   the literal, drops its closing quote, and the meaning is lost whatever the
   arguments.
   */
  lemma {:induction false} ConflictLiteralDestroyed(q: string, args: seq<Arg>)
    requires q == "(a)'" + ("ON CONFLICT" + (" " + (DO_NOTHING + "'")))
    ensures Odd(q, 4) && TranslateUpsert(q) == "(a)'" + (ON_DUPLICATE + ("a" + " = " + "a"))
    ensures var (text, out) := Rewritten(MySQL, q, args);
      BindPositional(text, false, out) != Meaning(MySQL, q, 0, args)
  {
    SmallTranslated(q, "(a)'", "'", "a");
    LiteralDestroyed(q, args);
  }

  // ------------------------------------------------------- a mark out of a literal

  lemma {:induction false} AfterLiteral(q: string, i: nat)
    requires At(q, i, ", $1") && |q| == i + 4
    ensures Tokens(q, i, false, 1) == More(Plain(','), More(Plain(' '), More(Param(1), End)))
  {
    var digits := "1";
    assert digits == Itoa(1);
    AtChar(q, i, ", $1", 0);
    AtChar(q, i, ", $1", 1);
    AtChar(q, i, ", $1", 2);
    AtChar(q, i, ", $1", 3);
    assert q[i + 0] == ',' && q[i + 1] == ' ' && q[i + 2] == '$' && q[i + 3] == '1';
    PlainToken(q, i, 1);
    PlainToken(q, i + 1, 1);
    assert At(q, i + 2, "$" + digits);
    MarkRun(q, i + 2, i + 4, 1, 1);
    assert Tokens(q, i + 4, false, 1) == End;
  }

  lemma {:induction false} AtConcat(a: string, b: string)
    ensures At(a + b, 0, a) && At(a + b, |a|, b)
  {
  }

  lemma {:induction false} CallPlaces(q: string, lit: string, tail: string)
    requires q == CALL + ((lit + "'") + tail)
    ensures At(q, 0, CALL) && At(q, 18, lit + "'") && At(q, 19 + |lit|, tail) && |q| == 19 + |lit| + |tail|
  {
    AtConcat(CALL, (lit + "'") + tail);
    AtParts(q, 18, lit + "'", tail);
  }

  /** A query that starts with a call and its interval literal. */
  lemma {:induction false} CallFirst(q: string, lit: string, tail: string, nargs: nat)
    requires q == CALL + ((lit + "'") + tail) && NoneOf(lit, '\'')
    ensures 19 + |lit| <= |q|
    ensures Tokens(q, 0, false, nargs) == More(Expr(CallInterval(lit)), Tokens(q, 19 + |lit|, false, nargs))
  {
    CallPlaces(q, lit, tail);
    CallFound(q, 0, lit);
    CallToken(q, 0, CallInterval(lit), 18 + |lit|, nargs);
  }

  /** An interval literal and a placeholder after it. */
  lemma {:induction false} LeakTokens(q: string, lit: string)
    requires q == CALL + ((lit + "'") + ", $1") && NoneOf(lit, '\'')
    ensures Tokens(q, 0, false, 1)
         == More(Expr(CallInterval(lit)), More(Plain(','), More(Plain(' '), More(Param(1), End))))
  {
    CallFirst(q, lit, ", $1", 1);
    CallPlaces(q, lit, ", $1");
    AfterLiteral(q, 19 + |lit|);
  }

  /**
   A `?` in the unit of an interval literal comes out as a mark and takes the
   argument of the placeholder after it.
   */
  lemma {:induction false} LeakedMark(q: string, lit: string, x: Arg) returns (p: nat)
    requires q == CALL + ((lit + "'") + ", $1") && NoneOf(lit, '\'') && '?' in ParseInterval(lit).1
    requires IndexOf(Lower(q), ON_CONFLICT, 0).NotHere?
    ensures var (text, out) := Rewritten(MySQL, q, [x]);
      && text == AddInterval(MySQL, Now(MySQL), lit) + ", ?" && out == [x] && p < |text| && text[p] == '?'
      && p < |BindPositional(text, false, out)| && BindPositional(text, false, out)[p] == Val(x)
      && p < |Meaning(MySQL, q, 0, [x])| && Meaning(MySQL, q, 0, [x])[p] == Ch('?')
  {
    var first := Expr(CallInterval(lit));
    var rest := More(Plain(','), More(Plain(' '), More(Param(1), End)));
    var expr := AddInterval(MySQL, Now(MySQL), lit);
    LeakTokens(q, lit);
    TailEmits(rest, x);
    MySQLIntervalBare(lit);
    MySQLIntervalCleanIff(lit);
    StrayText(MySQL, first);
    p := FirstMark(expr, ", ?", [x]);
    TokensMeaning(MySQL, q, 0, [x]);
    CharsAt(expr, p);
  }

  lemma {:induction false} TailEmits(rest: TokenList, x: Arg)
    requires rest == More(Plain(','), More(Plain(' '), More(Param(1), End)))
    ensures Emit(MySQL, rest) == ", ?" && InRange(rest, 1) && EmitArgs(rest, [x]) == [x]
  {
    var last := More(Param(1), End);
    assert Emit(MySQL, last) == "?" + Emit(MySQL, End);
    assert EmitArgs(last, [x]) == [x] + EmitArgs(End, [x]);
    EmitCons(MySQL, Plain(' '), last, [x]);
    EmitCons(MySQL, Plain(','), More(Plain(' '), last), [x]);
  }

  lemma {:induction false} NoteClauseFree(q: string)
    requires q == CALL + (("5 ?" + "'") + ", $1")
    ensures IndexOf(Lower(q), ON_CONFLICT, 0).NotHere?
  {
    var tail := ("5 ?" + "'") + ", $1";
    forall k | 0 < k < |q| - 1 && q[k] == ' ' ensures LowerChar(q[k - 1]) != 'n' || LowerChar(q[k + 1]) != 'c' {
      if k < 18 {
        assert q[k] == CALL[k] && q[k - 1] == CALL[k - 1];
      } else {
        assert q[k] == tail[k - 18] && q[k + 1] == tail[k - 17];
      }
    }
    var r := IndexOf(Lower(q), ON_CONFLICT, 0);
    if r.Here? {
      NoClauseAt(q, r.end);
    }
  }

  /** At `now() + interval '5 ?', $1`: the value lands in the interval and the second mark is left over. */
  lemma {:induction false} FiveMarks(q: string, x: Arg) returns (p: nat)
    requires q == CALL + (("5 ?" + "'") + ", $1")
    ensures var (text, out) := Rewritten(MySQL, q, [x]);
      && p < |text| && text[p] == '?' && out == [x]
      && BindPositional(text, false, out) != Meaning(MySQL, q, 0, [x])
      && p < |BindPositional(text, false, out)| && BindPositional(text, false, out)[p] == Val(x)
  {
    assert RenderInt(5) == "5";
    var lit := "5 ?";
    assert lit == RenderInt(5) + (" " + "?");
    RenderedNumber(5);
    TwoFields(RenderInt(5), "?");
    assert TrimSuffixS(Lower("?")) == "?";
    NoteClauseFree(q);
    p := LeakedMark(q, lit, x);
  }

  // -------------------------------------------------- the keyword in an interval

  lemma {:induction false} LastFieldFrom(s: string, j: nat, m: nat, u: string)
    requires j <= m < |s| && s[m] == ' ' && s[m + 1..] == u && u != "" && NoSpaces(u)
    ensures var fs := Fields(s, j); fs != [] && fs[|fs| - 1] == u && (j < m && !IsSpace(s[j]) ==> |fs| >= 2)
    decreases m - j
  {
    if j == m {
      LastField(s, m + 1, u);
    } else if IsSpace(s[j]) {
      LastFieldFrom(s, j + 1, m, u);
    } else {
      var e := FieldEnd(s, j + 1);
      FieldStopsAt(s, j + 1, m);
      LastFieldFrom(s, e, m, u);
    }
  }

  lemma {:induction false} NoNumber(f: string)
    requires f != "" && !IsDigit(f[0]) && f[0] != '+' && f[0] != '-'
    ensures ParseInt(f).NotHere?
  {
  }

  /** A text that starts with a letter and ends in a word is one of that word. */
  lemma {:induction false} OneOf(s: string, pre: string, u: string)
    requires s == pre + (" " + u) && pre != "" && IsIdentStart(pre[0]) && u != "" && NoSpaces(u)
    ensures ParseInterval(s) == (1, TrimSuffixS(Lower(u)))
  {
    var m := |pre|;
    assert s[m + 1..] == u && s[0] == pre[0];
    LastFieldFrom(s, 0, m, u);
    var fs := Fields(s, 0);
    assert fs[0] == s[0..FieldEnd(s, 1)];
    NoNumber(fs[0]);
  }

  lemma {:induction false} NothingExcluded(t: string)
    requires NoDot(t)
    ensures ReplaceExcluded(t) == t
  {
    if t != "" {
      assert EXCLUDED[8] == '.';
      assert !At(t, 0, EXCLUDED) by {
        assert |t| > 8 ==> t[0 + 8] != EXCLUDED[8];
      }
      NothingExcluded(t[1..]);
      assert t == [t[0]] + t[1..];
    }
  }

  /** A single call means its expression, and its rewriting means that too unless a mark leaks. */
  lemma {:induction false} CallAlone(q: string, lit: string, args: seq<Arg>)
    requires q == CALL + ((lit + "'") + "") && NoneOf(lit, '\'') && '?' !in ParseInterval(lit).1
    ensures Meaning(MySQL, q, 0, args) == Chars(AddInterval(MySQL, Now(MySQL), lit)) && !ExposedIn(MySQL, q, args)
  {
    CallFirst(q, lit, "", |args|);
    assert 19 + |lit| == |q|;
    var ts := Tokens(q, 0, false, |args|);
    assert ts == More(Expr(CallInterval(lit)), End);
    MySQLIntervalCleanIff(lit);
    TokensMeaning(MySQL, q, 0, args);
    assert BindNumbered(MySQL, ts, args) == Chars(AddInterval(MySQL, Now(MySQL), lit)) + BindNumbered(MySQL, ts.rest, args);
    assert !Exposed(MySQL, ts.rest, args, Spare(ts, args));
  }

  lemma {:induction false} CallHead()
    ensures IndexOf(Lower(CALL), ON_CONFLICT, 0).NotHere?
  {
    assert NoConflict(CALL);
    var r := IndexOf(Lower(CALL), ON_CONFLICT, 0);
    if r.Here? {
      NoClauseAt(CALL, r.end);
    }
  }

  lemma {:induction false} UnitTrimmed(u: string)
    requires u != "" && NoSpaces(u)
    ensures TrimSpace(" " + (u + "'")) == u + "'"
  {
    assert (" " + (u + "'"))[1..] == u + "'";
    assert (u + "'")[0] == u[0] && (u + "'")[|u|] == '\'';
  }

  /** DO UPDATE SET without a column list: what follows is trimmed, its pattern matches replaced. */
  lemma {:induction false} UpdateKept(q: string, head: string, list: string, sets: string)
    requires IndexOf(Lower(head), ON_CONFLICT, 0).NotHere?
    requires list == DO_UPDATE_SET + sets && q == head + ("ON CONFLICT" + (" " + list))
    ensures Translates(q) && TranslateUpsert(q) == head + (ON_DUPLICATE + ReplaceExcluded(TrimSpace(sets)))
  {
    var col := FirstColumn(head);
    assert list[0] == DO_UPDATE_SET[0] == 'D';
    ClauseParts(head, list);
    NoList(list, col);
    Translated(q, head, list, list, col);
    UpdateAt(sets);
    GuardMet(q, head, list, list, col);
    ActionUpdate(q, head, sets, col);
  }

  /** The keyword in an interval literal is translated too. */
  lemma {:induction false} IntervalTranslated(q: string, head: string, u: string)
    requires u != "" && NoSpaces(u) && NoDot(u) && head == CALL
    requires q == head + ("ON CONFLICT" + (" " + (DO_UPDATE_SET + (" " + (u + "'")))))
    ensures Translates(q) && TranslateUpsert(q) == head + (ON_DUPLICATE + (u + "'"))
  {
    CallHead();
    UpdateKept(q, head, DO_UPDATE_SET + (" " + (u + "'")), " " + (u + "'"));
    UnitTrimmed(u);
    NothingExcluded(u + "'");
  }

  lemma {:induction false} LiteralSplit(head: string, key: string, u: string, lit: string)
    requires lit == key + (" " + u)
    ensures head + ((lit + "'") + "") == head + (key + (" " + (u + "'")))
  {
    SqlRewrite.Assoc(key, " " + u, "'");
    SqlRewrite.Assoc(" ", u, "'");
    assert (lit + "'") + "" == lit + "'";
  }

  lemma {:induction false} ConflictSplit(key: string, rest: string)
    requires key == "ON CONFLICT" + (" " + DO_UPDATE_SET)
    ensures "ON CONFLICT" + (" " + (DO_UPDATE_SET + rest)) == key + rest
    ensures NoneOf(key, '\'') && key != "" && IsIdentStart(key[0])
  {
    SqlRewrite.Assoc("ON CONFLICT", " " + DO_UPDATE_SET, rest);
    SqlRewrite.Assoc(" ", DO_UPDATE_SET, rest);
  }

  lemma {:induction false} DuplicateSplit(key: string, rest: string)
    requires key == "ON DUPLICATE KEY UPDATE"
    ensures ON_DUPLICATE + rest == key + (" " + rest)
    ensures NoneOf(key, '\'') && key != "" && IsIdentStart(key[0])
  {
    assert ON_DUPLICATE == key + " ";
    SqlRewrite.Assoc(key, " ", rest);
  }

  /** One call whose literal ends in the unit u, after some words, means one u from now. */
  lemma {:induction false} WordsThenUnit(q: string, key: string, u: string, args: seq<Arg>)
    requires q == CALL + (key + (" " + (u + "'"))) && key != "" && IsIdentStart(key[0]) && NoneOf(key, '\'')
    requires u != "" && NoSpaces(u) && NoneOf(u, '\'') && NoneOf(TrimSuffixS(Lower(u)), '?')
    ensures Meaning(MySQL, q, 0, args)
         == Chars(("DATE_ADD(" + Now(MySQL) + ", INTERVAL ") + (Amount(1, Upper(TrimSuffixS(Lower(u)))) + ")"))
    ensures !ExposedIn(MySQL, q, args)
  {
    var lit := key + (" " + u);
    LiteralSplit(CALL, key, u, lit);
    OneOf(lit, key, u);
    CallAlone(q, lit, args);
  }

  /**
   Why the interval literals are set apart: the keyword in the literal of a now()
   call is replaced, yet only the last word of the literal counts, and the
   meaning is what it was.
   */
  lemma {:induction false} IntervalKeywordPreserved(q: string, u: string, args: seq<Arg>)
    requires u != "" && NoSpaces(u) && NoDot(u) && NoneOf(u, '\'') && NoneOf(TrimSuffixS(Lower(u)), '?')
    requires q == CALL + ("ON CONFLICT" + (" " + (DO_UPDATE_SET + (" " + (u + "'")))))
    ensures Translates(q)
    ensures var (text, out) := Rewritten(MySQL, q, args);
      BindPositional(text, false, out) == Meaning(MySQL, q, 0, args)
  {
    var rest, r := " " + (u + "'"), TranslateUpsert(q);
    var before, after := "ON CONFLICT" + (" " + DO_UPDATE_SET), "ON DUPLICATE KEY UPDATE";
    IntervalTranslated(q, CALL, u);
    ConflictSplit(before, rest);
    DuplicateSplit(after, u + "'");
    WordsThenUnit(q, before, u, args);
    WordsThenUnit(r, after, u, args);
    RewriteMeaningIff(MySQL, q, args);
  }

  lemma {:induction false} UpdateAt(sets: string)
    ensures At(Upper(DO_UPDATE_SET + sets), 0, DO_UPDATE_SET)
  {
    var list := DO_UPDATE_SET + sets;
    forall k | 0 <= k < |DO_UPDATE_SET| ensures Upper(list)[0 + k] == DO_UPDATE_SET[k] {
      assert list[k] == DO_UPDATE_SET[k];
    }
  }
}
