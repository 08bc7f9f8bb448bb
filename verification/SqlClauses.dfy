/**
 What the clauses of db/query.go mean: readers of an IN list and of an upsert
 clause in each dialect, which read the generated texts back as the list of
 arguments and the assignments they were generated for.
 */
module SqlClauses {
  import opened Decimal
  import opened Options
  import opened SqlScan
  import opened SqlRewrite
  import opened SqlUpsert
  import opened SqlInLists
  import opened SqlReading

  // ------------------------------------------------------------ separated lists

  /** The first comma followed by a space from i on, or the end. */
  function CommaAt(s: string, i: nat): (k: nat)
    requires i <= |s|
    ensures i <= k <= |s| && (k < |s| ==> k + 2 <= |s|)
    decreases |s| - i
  {
    if i == |s| then i else if s[i] == ',' && i + 1 < |s| && s[i + 1] == ' ' then i else CommaAt(s, i + 1)
  }

  /** The items of a list separated by a comma and a space. */
  function Items(s: string): (xs: seq<string>)
    decreases |s|
  {
    var k := CommaAt(s, 0);
    if k == |s| then [s] else [s[..k]] + Items(s[k + 2..])
  }

  lemma {:induction false} CommaAtIs(s: string, i: nat, k: nat)
    requires i <= k <= |s| && (forall m :: i <= m < k ==> s[m] != ',')
    requires k == |s| || (k + 1 < |s| && s[k] == ',' && s[k + 1] == ' ')
    ensures CommaAt(s, i) == k
    decreases k - i
  {
    if i < k {
      CommaAtIs(s, i + 1, k);
    }
  }

  lemma {:induction false} LastItem(s: string)
    requires NoneOf(s, ',')
    ensures Items(s) == [s]
  {
    CommaAtIs(s, 0, |s|);
  }

  lemma {:induction false} FirstItem(x: string, rest: string)
    requires NoneOf(x, ',')
    ensures Items(x + (", " + rest)) == [x] + Items(rest)
  {
    var s := x + (", " + rest);
    forall m | 0 <= m < |x| ensures s[m] != ',' {
      assert s[m] == x[m];
    }
    assert s[|x|] == ',' && s[|x| + 1] == ' ';
    CommaAtIs(s, 0, |x|);
    assert s[..|x|] == x && s[|x| + 2..] == rest;
  }

  ghost predicate CommaFree(xs: seq<string>)
  {
    forall i :: 0 <= i < |xs| ==> NoneOf(xs[i], ',')
  }

  lemma {:induction false} JoinSplit(xs: seq<string>, k: nat)
    requires 0 < k < |xs|
    ensures JoinFrom(xs, k) == ", " + (xs[k] + JoinFrom(xs, k + 1))
  {
    SqlRewrite.Assoc(", ", xs[k], JoinFrom(xs, k + 1));
  }

  lemma {:induction false} ItemsFrom(xs: seq<string>, k: nat)
    requires CommaFree(xs) && k < |xs|
    ensures Items(xs[k] + JoinFrom(xs, k + 1)) == xs[k..]
    decreases |xs| - k
  {
    if k + 1 == |xs| {
      assert xs[k] + JoinFrom(xs, k + 1) == xs[k];
      LastItem(xs[k]);
      assert xs[k..] == [xs[k]];
    } else {
      JoinSplit(xs, k + 1);
      FirstItem(xs[k], xs[k + 1] + JoinFrom(xs, k + 2));
      ItemsFrom(xs, k + 1);
      assert xs[k..] == [xs[k]] + xs[k + 1..];
    }
  }

  /** Splitting a joined list gives the list back. */
  lemma {:induction false} ItemsOfJoin(xs: seq<string>)
    requires CommaFree(xs) && xs != []
    ensures Items(JoinFrom(xs, 0)) == xs
  {
    assert Sep(0) + xs[0] == xs[0];
    ItemsFrom(xs, 0);
    assert xs[0..] == xs;
  }

  // ------------------------------------------------------------------- IN lists

  /** A condition that never holds, or that a column's value is one of some arguments, told by their numbers. */
  datatype Membership = Never | Among(column: string, numbers: seq<nat>)

  /** The argument a mark stands for: its number, or its place in the list. */
  function MarkNumber(d: Dialect, item: string, place: nat): (n: nat)
  {
    if d == Postgres then if |item| > 1 && item[0] == '$' && AllDigits(item[1..]) then Atoi(item[1..]) else 0
    else if item == "?" then place else 0
  }

  function Numbers(d: Dialect, items: seq<string>): (ns: seq<nat>)
    ensures |ns| == |items|
  {
    seq(|items|, j requires 0 <= j < |items| => MarkNumber(d, items[j], j + 1))
  }

  const IN_OPEN: string := " IN ("

  function ReadIn(d: Dialect, text: string): (r: Option<Membership>)
  {
    var k := IndexOf(text, IN_OPEN, 0);
    if k.NotHere? then if text == "1 = 0" then Some(Never) else None
    else
      var from := k.end + |IN_OPEN|;
      if |text| < from + 1 || text[|text| - 1] != ')' then None
      else Some(Among(text[..k.end], Numbers(d, Items(text[from..|text| - 1]))))
  }

  lemma {:induction false} MarkRead(d: Dialect, i: nat)
    ensures MarkNumber(d, Placeholder(d, i + 1), i + 1) == i + 1 && NoneOf(Placeholder(d, i + 1), ',')
  {
    AtoiItoa(i + 1);
    assert ("$" + Itoa(i + 1))[1..] == Itoa(i + 1);
  }

  /** The numbers from 1 to n. */
  function OneTo(n: nat): (ns: seq<nat>)
    ensures |ns| == n && forall j :: 0 <= j < n ==> ns[j] == j + 1
  {
    seq(n, j requires 0 <= j < n => j + 1)
  }

  lemma {:induction false} MarksRead(d: Dialect, n: nat)
    ensures CommaFree(Placeholders(d, n))
    ensures Numbers(d, Placeholders(d, n)) == OneTo(n)
  {
    forall j | 0 <= j < n ensures NoneOf(Placeholders(d, n)[j], ',') && Numbers(d, Placeholders(d, n))[j] == j + 1 {
      MarkRead(d, j);
    }
  }

  /** The keyword stands nowhere in the column expression, nor across its end. */
  predicate PlainColumn(column: string)
  {
    forall j :: 0 <= j < |column| ==> !At(column + IN_OPEN, j, IN_OPEN)
  }

  lemma {:induction false} KeywordPlace(column: string, rest: string, text: string)
    requires PlainColumn(column) && text == (column + IN_OPEN) + rest
    ensures IndexOf(text, IN_OPEN, 0).Here? && IndexOf(text, IN_OPEN, 0).end == |column|
  {
    forall j | 0 <= j < |column| ensures !At(text, j, IN_OPEN) {
      if At(text, j, IN_OPEN) {
        forall m | 0 <= m < |IN_OPEN| ensures (column + IN_OPEN)[j + m] == IN_OPEN[m] {
          assert text[j + m] == IN_OPEN[m];
        }
        assert At(column + IN_OPEN, j, IN_OPEN);
      }
    }
    forall m | 0 <= m < |IN_OPEN| ensures text[|column| + m] == IN_OPEN[m] {
      assert (column + IN_OPEN)[|column| + m] == IN_OPEN[m];
    }
    assert At(text, |column|, IN_OPEN);
  }

  lemma {:induction false} ListInside(column: string, list: string, text: string)
    requires text == (column + IN_OPEN) + (list + ")")
    ensures var from := |column| + |IN_OPEN|;
      |text| >= from + 1 && text[|text| - 1] == ')' && text[..|column|] == column && text[from..|text| - 1] == list
  {
  }

  /** For every column expression without the keyword: the list is read as the column and the arguments 1 to n. */
  lemma {:induction false} InListReads(d: Dialect, column: string, n: nat, text: string)
    requires PlainColumn(column) && text == InListText(d, column, n) && n > 0
    ensures ReadIn(d, text) == Some(Among(column, OneTo(n)))
  {
    var list := JoinFrom(Placeholders(d, n), 0);
    JoinedMarks(d, n, list);
    KeywordPlace(column, list + ")", text);
    ListReads(d, column, list, text);
  }

  lemma {:induction false} JoinedMarks(d: Dialect, n: nat, list: string)
    requires n > 0 && list == JoinFrom(Placeholders(d, n), 0)
    ensures Numbers(d, Items(list)) == OneTo(n)
  {
    MarksRead(d, n);
    ItemsOfJoin(Placeholders(d, n));
  }

  lemma {:induction false} ListReads(d: Dialect, column: string, list: string, text: string)
    requires text == (column + IN_OPEN) + (list + ")")
    requires IndexOf(text, IN_OPEN, 0).Here? && IndexOf(text, IN_OPEN, 0).end == |column|
    ensures ReadIn(d, text) == Some(Among(column, Numbers(d, Items(list))))
  {
    ListInside(column, list, text);
  }

  /** Whether a row whose column has the value meets the condition, with these arguments. */
  ghost predicate Selects(m: Membership, args: seq<Arg>, value: Arg)
  {
    m.Among? && exists j :: 0 <= j < |m.numbers| && 1 <= m.numbers[j] <= |args| && args[m.numbers[j] - 1] == value
  }

  /** In every dialect the generated condition selects exactly the rows whose column has one of the values. */
  lemma {:induction false} InListSelects(d: Dialect, column: string, values: seq<Arg>, value: Arg)
    requires PlainColumn(column)
    ensures var r := ReadIn(d, InListText(d, column, |values|));
      && r.Some? && (r.value.Among? ==> r.value.column == column)
      && (Selects(r.value, values, value) <==> value in values)
  {
    if values == [] {
      NeverReads(d, column);
    } else {
      InListReads(d, column, |values|, InListText(d, column, |values|));
      if value in values {
        var j :| 0 <= j < |values| && values[j] == value;
        assert OneTo(|values|)[j] == j + 1;
      }
    }
  }

  lemma {:induction false} NeverReads(d: Dialect, column: string)
    ensures ReadIn(d, InListText(d, column, 0)) == Some(Never)
  {
    var text := "1 = 0";
    assert text[0 + 0] != IN_OPEN[0];
  }

  // ------------------------------------------------------------------- upserts

  /** Where a column's new value comes from: a column of the row that was to be inserted, or of the row that is there. */
  datatype Source = Proposed(name: string) | Own(name: string)

  datatype Assign = Assign(column: string, source: Source)

  /** The text between a prefix and a suffix. */
  function Between(s: string, prefix: string, suffix: string): (r: Option<string>)
  {
    if |prefix| + |suffix| <= |s| && s[..|prefix|] == prefix && s[|s| - |suffix|..] == suffix
    then Some(s[|prefix|..|s| - |suffix|]) else None
  }

  function ReadSource(d: Dialect, value: string): (s: Source)
  {
    var name := if d == MySQL then Between(value, "VALUES(", ")") else Between(value, "EXCLUDED.", "");
    match name
    case Some(n) => Proposed(n)
    case None => Own(value)
  }

  /** A column, an equals sign between spaces, and its new value. */
  function ReadAssign(d: Dialect, item: string): (r: Option<Assign>)
  {
    var k := UpTo(item, ' ', 0);
    if At(item, k, " = ") then Some(Assign(item[..k], ReadSource(d, item[k + 3..]))) else None
  }

  lemma {:induction false} BetweenIs(prefix: string, name: string, suffix: string)
    ensures Between(prefix + name + suffix, prefix, suffix) == Some(name)
  {
    var s := prefix + name + suffix;
    assert s[..|prefix|] == prefix && s[|s| - |suffix|..] == suffix && s[|prefix|..|s| - |suffix|] == name;
  }

  lemma {:induction false} OverwriteReads(d: Dialect, c: string)
    ensures ReadSource(d, Overwrite(d, c)) == Proposed(c)
  {
    if d == MySQL {
      BetweenIs("VALUES(", c, ")");
    } else {
      BetweenIs("EXCLUDED.", c, "");
      assert EXCLUDED + c + "" == EXCLUDED + c;
    }
  }

  lemma {:induction false} AssignPlaces(c: string, value: string, item: string)
    requires IsIdent(c) && item == (c + " = ") + value
    ensures UpTo(item, ' ', 0) == |c| && At(item, |c|, " = ") && item[..|c|] == c && item[|c| + 3..] == value
  {
    forall m | 0 <= m < |c| ensures item[m] != ' ' {
      assert item[m] == c[m] && IsIdentPart(c[m]);
    }
    forall m | 0 <= m < 3 ensures item[|c| + m] == " = "[m] {
      assert (c + " = ")[|c| + m] == " = "[m];
    }
    assert item[|c| + 0] == ' ';
    UpToIs(item, ' ', 0, |c|);
  }

  lemma {:induction false} AssignReads(d: Dialect, c: string)
    requires IsIdent(c)
    ensures ReadAssign(d, Assignment(d, c)) == Some(Assign(c, Proposed(c)))
  {
    AssignPlaces(c, Overwrite(d, c), Assignment(d, c));
    OverwriteReads(d, c);
  }

  lemma {:induction false} AssignNoComma(d: Dialect, c: string)
    requires IsIdent(c)
    ensures NoneOf(Assignment(d, c), ',')
  {
    IdentNoComma(c);
    if d == MySQL {
      assert NoneOf("VALUES(" + c + ")", ',');
    } else {
      assert NoneOf(EXCLUDED + c, ',');
    }
  }

  lemma {:induction false} IdentNoComma(c: string)
    requires IsIdent(c)
    ensures NoneOf(c, ',') && NoneOf(c, ')')
  {
    forall i | 0 <= i < |c| ensures c[i] != ',' && c[i] != ')' {
      assert IsIdentPart(c[i]);
    }
  }

  function ReadAssigns(d: Dialect, items: seq<string>): (rs: seq<Option<Assign>>)
    ensures |rs| == |items|
  {
    seq(|items|, j requires 0 <= j < |items| => ReadAssign(d, items[j]))
  }

  /** What the columns are overwritten with: each with its own proposed value. */
  function Overwrites(updates: seq<string>): (rs: seq<Option<Assign>>)
    ensures |rs| == |updates|
  {
    seq(|updates|, j requires 0 <= j < |updates| => Some(Assign(updates[j], Proposed(updates[j]))))
  }

  /** The generated assignments are read as overwriting each column with its own proposed value, in order. */
  lemma {:induction false} SetsRead(d: Dialect, updates: seq<string>)
    requires AllIdents(updates) && updates != []
    ensures ReadAssigns(d, Items(SetsFrom(d, updates, 0))) == Overwrites(updates)
  {
    var items := Assignments(d, updates, |updates|);
    AssignmentsRead(d, updates, items);
    JoinedAssignments(d, updates, 0);
    ItemsOfJoin(items);
  }

  lemma {:induction false} AssignmentsRead(d: Dialect, updates: seq<string>, items: seq<string>)
    requires AllIdents(updates) && items == Assignments(d, updates, |updates|)
    ensures CommaFree(items) && ReadAssigns(d, items) == Overwrites(updates)
  {
    forall j | 0 <= j < |updates| ensures NoneOf(items[j], ',') && ReadAssign(d, items[j]) == Some(Assign(updates[j], Proposed(updates[j]))) {
      AssignReads(d, updates[j]);
      AssignNoComma(d, updates[j]);
    }
  }

  /** A clause: the columns whose conflict it is about, none being any, and what it assigns. */
  datatype Clause = Clause(target: seq<string>, sets: seq<Option<Assign>>)

  function ReadDuplicate(text: string): (r: Option<Clause>)
  {
    match Between(text, "ON DUPLICATE KEY UPDATE ", "")
    case None => None
    case Some(sets) => Some(Clause([], ReadAssigns(MySQL, Items(sets))))
  }

  function ReadAction(d: Dialect, target: seq<string>, action: string): (r: Option<Clause>)
  {
    if action == "DO NOTHING" then Some(Clause(target, []))
    else
      match Between(action, "DO UPDATE SET ", "")
      case None => None
      case Some(sets) => Some(Clause(target, ReadAssigns(d, Items(sets))))
  }

  function ReadConflict(d: Dialect, text: string): (r: Option<Clause>)
  {
    match Between(text, "ON CONFLICT (", "")
    case None => None
    case Some(rest) =>
      var k := UpTo(rest, ')', 0);
      if At(rest, k, ") ") then ReadAction(d, Items(rest[..k]), rest[k + 2..]) else None
  }

  lemma {:induction false} PrefixIs(prefix: string, rest: string)
    ensures Between(prefix + rest, prefix, "") == Some(rest)
  {
    BetweenIs(prefix, rest, "");
    assert prefix + rest + "" == prefix + rest;
  }

  /** MySQL's clause overwrites the columns, or, with nothing to overwrite, sets the first conflict column to itself. */
  lemma {:induction false} DuplicateReads(conflict: seq<string>, updates: seq<string>)
    requires AllIdents(conflict) && AllIdents(updates) && (updates == [] ==> conflict != [])
    ensures ReadDuplicate(UpsertClause(MySQL, conflict, updates))
         == Some(Clause([], if updates == [] then [Some(Assign(conflict[0], Own(conflict[0])))] else Overwrites(updates)))
  {
    if updates == [] {
      var c := conflict[0];
      assert IsIdent(c);
      PrefixIs(ON_DUPLICATE, c + " = " + c);
      SelfAssignReads(c);
    } else {
      PrefixIs(ON_DUPLICATE, SetsFrom(MySQL, updates, 0));
      SetsRead(MySQL, updates);
    }
  }

  lemma {:induction false} SelfAssignReads(c: string)
    requires IsIdent(c)
    ensures ReadAssigns(MySQL, Items(c + " = " + c)) == [Some(Assign(c, Own(c)))]
  {
    var item := c + " = " + c;
    IdentNoComma(c);
    LastItem(item);
    AssignPlaces(c, c, item);
    OwnRead(c);
  }

  lemma {:induction false} OwnRead(c: string)
    requires IsIdent(c)
    ensures ReadSource(MySQL, c) == Own(c)
  {
    assert IsIdentPart(c[|c| - 1]) && c[|c| - 1..] == [c[|c| - 1]];
  }

  lemma {:induction false} ActionReads(d: Dialect, target: seq<string>, updates: seq<string>)
    requires d != MySQL && AllIdents(updates)
    ensures ReadAction(d, target, ConflictAction(updates)) == Some(Clause(target, Overwrites(updates)))
  {
    if updates == [] {
      assert Overwrites(updates) == [];
    } else {
      var sets := SetsFrom(Postgres, updates, 0);
      assert DO_UPDATE_SET + (" " + sets) == "DO UPDATE SET " + sets;
      PrefixIs("DO UPDATE SET ", sets);
      NotNothing(sets);
      SetsRead(Postgres, updates);
      SameSets(d, Items(sets));
    }
  }

  lemma {:induction false} NotNothing(sets: string)
    ensures "DO UPDATE SET " + sets != "DO NOTHING"
  {
    assert ("DO UPDATE SET " + sets)[3] == 'U' && "DO NOTHING"[3] == 'N';
  }

  lemma {:induction false} SameSets(d: Dialect, items: seq<string>)
    requires d != MySQL
    ensures ReadAssigns(d, items) == ReadAssigns(Postgres, items)
  {
  }

  lemma {:induction false} ListPlaces(list: string, action: string, rest: string)
    requires NoneOf(list, ')') && rest == list + (")" + (" " + action))
    ensures UpTo(rest, ')', 0) == |list| && At(rest, |list|, ") ") && rest[..|list|] == list && rest[|list| + 2..] == action
  {
    forall m | 0 <= m < |list| ensures rest[m] != ')' {
      assert rest[m] == list[m];
    }
    assert rest[|list|] == ')' && rest[|list| + 1] == ' ';
    UpToIs(rest, ')', 0, |list|);
  }

  lemma {:induction false} ColumnsRead(conflict: seq<string>)
    requires AllIdents(conflict) && conflict != []
    ensures Items(JoinFrom(conflict, 0)) == conflict && NoneOf(JoinFrom(conflict, 0), ')')
  {
    forall i | 0 <= i < |conflict| ensures NoneOf(conflict[i], ',') {
      assert IsIdent(conflict[i]);
      IdentNoComma(conflict[i]);
    }
    ItemsOfJoin(conflict);
    JoinChars(conflict, 0);
  }

  /** The clause of the other dialects names the conflict columns and overwrites the others, or does nothing. */
  lemma {:induction false} ConflictReads(d: Dialect, conflict: seq<string>, updates: seq<string>)
    requires d != MySQL && AllIdents(conflict) && AllIdents(updates) && conflict != []
    ensures ReadConflict(d, UpsertClause(d, conflict, updates)) == Some(Clause(conflict, Overwrites(updates)))
  {
    var list, action := JoinFrom(conflict, 0), ConflictAction(updates);
    var rest := list + (")" + (" " + action));
    ColumnsRead(conflict);
    OpeningText(rest);
    PrefixIs("ON CONFLICT (", rest);
    ListPlaces(list, action, rest);
    ActionReads(d, conflict, updates);
  }

  lemma {:induction false} OpeningText(rest: string)
    ensures "ON CONFLICT" + (" " + ("(" + rest)) == "ON CONFLICT (" + rest
  {
    SqlRewrite.Assoc(" ", "(", rest);
    SqlRewrite.Assoc("ON CONFLICT", " " + "(", rest);
    assert "ON CONFLICT" + (" " + "(") == "ON CONFLICT (";
  }
}
