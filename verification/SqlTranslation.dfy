/**
 The upsert translator of db/query.go on text it did not generate: letter case
 and spacing, quoted names, nested parentheses, and EXCLUDED names anywhere.
 */
module SqlTranslation {
  import opened SqlScan
  import opened SqlRewrite
  import opened SqlUpsert

  // ------------------------------------------------------------------- trimming

  /** Blanks, tabs, line ends and page breaks only. */
  predicate AllSpace(s: string)
  {
    forall i :: 0 <= i < |s| ==> s[i] == ' ' || 9 as char <= s[i] <= 13 as char
  }

  /** Backticks and double quotes only. */
  predicate AllNameQuotes(s: string)
  {
    forall i :: 0 <= i < |s| ==> s[i] == '`' || s[i] == '"'
  }

  lemma {:induction false} TrimmedRight(core: string, b: string)
    requires core != "" && !IsSpace(core[0]) && !IsSpace(core[|core| - 1]) && AllSpace(b)
    ensures TrimSpace(core + b) == core
  {
    var s := core + b;
    if b == "" {
      assert s == core;
    } else {
      assert s[|s| - 1] == b[|b| - 1] && s[..|s| - 1] == core + b[..|b| - 1];
      TrimmedRight(core, b[..|b| - 1]);
    }
  }

  /** White space around a text is taken off, and no more. */
  lemma {:induction false} TrimmedSpace(a: string, core: string, b: string)
    requires core != "" && !IsSpace(core[0]) && !IsSpace(core[|core| - 1]) && AllSpace(a) && AllSpace(b)
    ensures TrimSpace(a + (core + b)) == core
  {
    var s := a + (core + b);
    if a == "" {
      assert s == core + b;
      TrimmedRight(core, b);
    } else {
      assert s[0] == a[0] && s[1..] == a[1..] + (core + b);
      TrimmedSpace(a[1..], core, b);
    }
  }

  lemma {:induction false} UnquotedRight(core: string, b: string)
    requires core != "" && !IsNameQuote(core[0]) && !IsNameQuote(core[|core| - 1]) && AllNameQuotes(b)
    ensures TrimNameQuotes(core + b) == core
  {
    var s := core + b;
    if b == "" {
      assert s == core;
    } else {
      assert s[|s| - 1] == b[|b| - 1] && s[..|s| - 1] == core + b[..|b| - 1];
      UnquotedRight(core, b[..|b| - 1]);
    }
  }

  /** Backticks and double quotes around a name are taken off, and no more. */
  lemma {:induction false} UnquotedName(a: string, core: string, b: string)
    requires core != "" && !IsNameQuote(core[0]) && !IsNameQuote(core[|core| - 1]) && AllNameQuotes(a) && AllNameQuotes(b)
    ensures TrimNameQuotes(a + (core + b)) == core
  {
    var s := a + (core + b);
    if a == "" {
      assert s == core + b;
      UnquotedRight(core, b);
    } else {
      assert s[0] == a[0] && s[1..] == a[1..] + (core + b);
      UnquotedName(a[1..], core, b);
    }
  }

  /** The first column of a list: the text up to the first comma or parenthesis after the first opening one, bare. */
  lemma {:induction false} FirstColumnIs(s: string, before: string, a: string, name: string, b: string, rest: string)
    requires s == before + ("(" + ((a + (name + b)) + rest)) && NoneOf(before, '(')
    requires rest != "" && (rest[0] == ',' || rest[0] == ')') && IsIdent(name)
    requires (AllSpace(a) && AllSpace(b)) || (AllNameQuotes(a) && AllNameQuotes(b))
    ensures FirstColumn(s) == name
  {
    var inner := a + (name + b);
    ParenPlace(s, before, inner + rest);
    ColumnPlace(a, name, b, rest);
    assert IsIdentPart(name[0]) && IsIdentPart(name[|name| - 1]);
    if AllSpace(a) && AllSpace(b) {
      TrimmedSpace(a, name, b);
      IdentUntrimmed(name);
    } else {
      QuotesUntrimmed(a, name, b);
      UnquotedName(a, name, b);
    }
  }

  lemma {:induction false} QuotesUntrimmed(a: string, name: string, b: string)
    requires AllNameQuotes(a) && AllNameQuotes(b) && IsIdent(name)
    ensures TrimSpace(a + (name + b)) == a + (name + b)
  {
    var s := a + (name + b);
    assert IsIdentPart(name[0]) && IsIdentPart(name[|name| - 1]);
    assert s[0] == if a == "" then name[0] else a[0];
    assert s[|s| - 1] == if b == "" then name[|name| - 1] else b[|b| - 1];
    Untrimmed(s);
  }

  lemma {:induction false} Untrimmed(s: string)
    requires s != "" && !IsSpace(s[0]) && !IsSpace(s[|s| - 1])
    ensures TrimSpace(s) == s
  {
  }

  lemma {:induction false} ParenPlace(s: string, before: string, rest: string)
    requires s == before + ("(" + rest) && NoneOf(before, '(')
    ensures IndexOf(s, "(", 0).Here? && IndexOf(s, "(", 0).end == |before| && s[|before| + 1..] == rest
  {
    var n := |before|;
    assert s[n + 0] == "("[0];
    assert At(s, n, "(");
    forall j | 0 <= j < n ensures !At(s, j, "(") {
      assert s[j + 0] == before[j] != "("[0];
    }
  }

  lemma {:induction false} ColumnPlace(a: string, name: string, b: string, rest: string)
    requires rest != "" && (rest[0] == ',' || rest[0] == ')') && IsIdent(name)
    requires (AllSpace(a) && AllSpace(b)) || (AllNameQuotes(a) && AllNameQuotes(b))
    ensures var inner := a + (name + b);
      ColumnEnd(inner + rest, 0) == |inner| && (inner + rest)[..|inner|] == inner
  {
    var inner := a + (name + b);
    var s := inner + rest;
    forall m | 0 <= m < |inner| ensures s[m] != ',' && s[m] != ')' {
      if m < |a| {
        assert s[m] == a[m];
      } else if m < |a| + |name| {
        assert s[m] == name[m - |a|] && IsIdentPart(name[m - |a|]);
      } else {
        assert s[m] == b[m - |a| - |name|];
      }
    }
    assert s[|inner|] == rest[0];
    ColumnFound(s, |inner|, 0);
  }

  // ---------------------------------------------------------- matching parentheses

  /** Opening minus closing parentheses before position k. */
  function Balance(s: string, k: nat): (b: int)
    requires k <= |s|
  {
    if k == 0 then 0 else Balance(s, k - 1) + (if s[k - 1] == '(' then 1 else if s[k - 1] == ')' then -1 else 0)
  }

  lemma {:induction false} ParenScan(s: string, k: nat, depth: nat)
    requires k <= |s| && depth == Balance(s, k)
    ensures var e := ParenEnd(s, k, depth);
      && (forall m :: k <= m < e ==> Balance(s, m) > 0) && (Balance(s, e) == 0 || e == |s|)
    decreases |s| - k
  {
    if k < |s| && depth > 0 {
      ParenScan(s, k + 1, if s[k] == '(' then depth + 1 else if s[k] == ')' then depth - 1 else depth);
    }
  }

  /** The column list ends right after the parenthesis that closes the first one, however many are nested in between. */
  lemma {:induction false} ParenMatches(s: string)
    requires s != "" && s[0] == '('
    ensures var e := ParenEnd(s, 1, 1);
      && (forall m :: 1 <= m < e ==> Balance(s, m) > 0) && (Balance(s, e) == 0 || e == |s|)
  {
    assert Balance(s, 1) == Balance(s, 0) + 1;
    ParenScan(s, 1, 1);
  }

  // -------------------------------------------------------------- EXCLUDED names

  /** An EXCLUDED name stands at position k. */
  predicate NameStands(s: string, k: nat)
  {
    At(s, k, EXCLUDED) && k + 9 < |s| && IsIdentPart(s[k + 9])
  }

  lemma {:induction false} StandsLater(s: string, k: nat)
    requires s != ""
    ensures NameStands(s[1..], k) <==> NameStands(s, k + 1)
  {
    var t := s[1..];
    if At(t, k, EXCLUDED) {
      forall m | 0 <= m < |EXCLUDED| ensures s[k + 1 + m] == EXCLUDED[m] {
        assert t[k + m] == EXCLUDED[m];
      }
    }
    if At(s, k + 1, EXCLUDED) {
      forall m | 0 <= m < |EXCLUDED| ensures t[k + m] == EXCLUDED[m] {
        assert s[k + 1 + m] == EXCLUDED[m];
      }
    }
  }

  lemma {:induction false} NotFirst(s: string)
    requires s != "" && !NameStands(s, 0)
    ensures ReplaceExcluded(s) == [s[0]] + ReplaceExcluded(s[1..])
  {
    assert |EXCLUDED| == 9;
  }

  /** A text without such names is left alone. */
  lemma {:induction false} NothingReplaced(s: string)
    requires forall k :: 0 <= k < |s| ==> !NameStands(s, k)
    ensures ReplaceExcluded(s) == s
  {
    if s != "" {
      forall k | 0 <= k < |s[1..]| ensures !NameStands(s[1..], k) {
        StandsLater(s, k);
      }
      NotFirst(s);
      NothingReplaced(s[1..]);
      assert s == [s[0]] + s[1..];
    }
  }

  /** The first such name, the longest there, is replaced, and so on after it. */
  lemma {:induction false} FirstReplaced(s: string, k: nat)
    requires NameStands(s, k) && forall m :: 0 <= m < k ==> !NameStands(s, m)
    ensures ReplaceExcluded(s) == WithValue(s, k)
    decreases k
  {
    if k == 0 {
      assert |EXCLUDED| == 9;
      assert s[..0] == "";
    } else {
      forall m | 0 <= m < k - 1 ensures !NameStands(s[1..], m) {
        StandsLater(s, m);
      }
      StandsLater(s, k - 1);
      NotFirst(s);
      FirstReplaced(s[1..], k - 1);
      ValueLater(s, k);
    }
  }

  /** The text with the name at k replaced by VALUES(name), and the rest treated likewise. */
  function WithValue(s: string, k: nat): (r: string)
    requires NameStands(s, k)
  {
    var e := IdentEnd(s, k + 9);
    s[..k] + (("VALUES(" + s[k + 9..e] + ")") + ReplaceExcluded(s[e..]))
  }

  lemma {:induction false} ValueLater(s: string, k: nat)
    requires k > 0 && NameStands(s, k) && NameStands(s[1..], k - 1)
    ensures WithValue(s, k) == [s[0]] + WithValue(s[1..], k - 1)
  {
    var e := IdentEnd(s, k + 9);
    LaterEnd(s, k + 9);
    SlicesLater(s, k, e);
    SqlRewrite.Assoc([s[0]], s[1..][..k - 1], ("VALUES(" + s[k + 9..e] + ")") + ReplaceExcluded(s[e..]));
  }

  lemma {:induction false} SlicesLater(s: string, k: nat, e: nat)
    requires 0 < k && k + 9 <= e <= |s|
    ensures s[1..][k - 1 + 9..e - 1] == s[k + 9..e] && s[1..][e - 1..] == s[e..] && [s[0]] + s[1..][..k - 1] == s[..k]
  {
  }

  lemma {:induction false} LaterEnd(s: string, j: nat)
    requires 1 <= j <= |s|
    ensures IdentEnd(s[1..], j - 1) == IdentEnd(s, j) - 1
  {
    var e := IdentEnd(s, j);
    forall k | j - 1 <= k < e - 1 ensures IsIdentPart(s[1..][k]) {
      assert s[1..][k] == s[k + 1];
    }
    assert e - 1 < |s[1..]| ==> s[1..][e - 1] == s[e];
    IdentEndIs(s[1..], j - 1, e - 1);
  }

  // ------------------------------------------------------- letter case and spacing

  lemma {:induction false} LowerConcat(a: string, b: string)
    ensures Lower(a + b) == Lower(a) + Lower(b)
  {
  }

  predicate AllBlank(s: string)
  {
    forall i :: 0 <= i < |s| ==> s[i] == ' '
  }

  lemma {:induction false} BlankTrimmed(sp: string, rest: string)
    requires AllBlank(sp) && (rest == "" || rest[0] != ' ')
    ensures TrimLeft(sp + rest) == rest
  {
    var s := sp + rest;
    var e := SpaceEnd(s, 0);
    assert forall i :: 0 <= i < |sp| ==> s[i] == sp[i];
    assert e >= |sp|;
    if rest != "" {
      assert s[|sp|] == rest[0];
    }
    assert s[|sp|..] == rest;
  }

  lemma {:induction false} KeywordAnyCase(head: string, kw: string, rest: string)
    requires IndexOf(Lower(head), ON_CONFLICT, 0).NotHere? && Lower(kw) == ON_CONFLICT
    ensures var q := head + (kw + rest);
      IndexOf(Lower(q), ON_CONFLICT, 0).Here? && IndexOf(Lower(q), ON_CONFLICT, 0).end == |head|
      && q[..|head|] == head && q[|head| + |ON_CONFLICT|..] == rest
  {
    KeywordFound(head, rest);
    LowerConcat(head, kw + rest);
    LowerConcat(kw, rest);
    LowerConcat(head, "ON CONFLICT" + rest);
    LowerConcat("ON CONFLICT", rest);
    assert Lower("ON CONFLICT") == ON_CONFLICT;
    assert |kw| == |ON_CONFLICT|;
  }

  /**
   The translator's own reading of a statement, in any letter case of the keyword
   and with any number of spaces after it: what stands after the optional column
   list decides, and the column is the list's or else the first of the head.
   */
  lemma {:induction false} ClauseAnyCase(head: string, kw: string, sp: string, clause: string)
    requires IndexOf(Lower(head), ON_CONFLICT, 0).NotHere? && Lower(kw) == ON_CONFLICT && AllBlank(sp)
    requires clause == "" || clause[0] != ' '
    ensures var q := head + (kw + (sp + clause));
      var (rest, col) := Target(clause, FirstColumn(head));
      TranslateUpsert(q) == Action(q, head, rest, col)
  {
    KeywordAnyCase(head, kw, sp + clause);
    BlankTrimmed(sp, clause);
  }

  lemma {:induction false} UpperPrefix(act: string, tail: string, pat: string)
    requires Upper(act) == pat
    ensures At(Upper(act + tail), 0, pat)
  {
    forall k | 0 <= k < |pat| ensures Upper(act + tail)[0 + k] == pat[k] {
      assert (act + tail)[k] == act[k] && Upper(act)[k] == pat[k];
    }
  }

  /** DO NOTHING in any letter case: the column is set to itself, and what follows is dropped; without a column nothing changes. */
  lemma {:induction false} NothingAnyCase(query: string, head: string, act: string, tail: string, col: string)
    requires Upper(act) == DO_NOTHING
    ensures Action(query, head, act + tail, col) == if col == "" then query else head + (ON_DUPLICATE + (col + " = " + col))
  {
    UpperPrefix(act, tail, DO_NOTHING);
  }

  /** DO UPDATE SET in any letter case: the assignments stay, trimmed, with their EXCLUDED names replaced. */
  lemma {:induction false} UpdateAnyCase(query: string, head: string, act: string, sets: string, col: string)
    requires Upper(act) == DO_UPDATE_SET
    ensures Action(query, head, act + sets, col) == head + (ON_DUPLICATE + ReplaceExcluded(TrimSpace(sets)))
  {
    UpperPrefix(act, sets, DO_UPDATE_SET);
    var rest := act + sets;
    assert Upper(rest)[0 + 3] == DO_UPDATE_SET[3] != DO_NOTHING[3];
    assert !At(Upper(rest), 0, DO_NOTHING);
    assert |act| == |DO_UPDATE_SET| && rest[|DO_UPDATE_SET|..] == sets;
  }

  /** Anything else after the column list leaves the statement alone. */
  lemma {:induction false} OtherActionKept(query: string, head: string, rest: string, col: string)
    requires !At(Upper(rest), 0, DO_NOTHING) && !At(Upper(rest), 0, DO_UPDATE_SET)
    ensures Action(query, head, rest, col) == query
  {
  }

  /** A column list in parentheses that match: it is skipped with the spaces after it, and its first column, if any, is used. */
  lemma {:induction false} ListSkipped(list: string, sp: string, rest: string, col: string)
    requires list != "" && list[0] == '(' && ParenEnd(list + (sp + rest), 1, 1) == |list|
    requires AllBlank(sp) && (rest == "" || rest[0] != ' ')
    ensures Target(list + (sp + rest), col) == (rest, if FirstColumn(list) != "" then FirstColumn(list) else col)
  {
    var s := list + (sp + rest);
    assert s[0] == '(' && s[..|list|] == list && s[|list|..] == sp + rest;
    BlankTrimmed(sp, rest);
  }
}
