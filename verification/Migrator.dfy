/**
 The migrator of db/migrations.go: Up, Down and Status over a control table and
 a schema, with a database call that may fail at any point, and the loading of
 a directory of versioned files.

 A transaction works on a copy that the commit installs.  The environment
 decides how many database calls succeed before one fails, and whether a commit
 that is reported as failed took effect all the same; an operation stops at its
 first failure.
 */
module Migrations {
  import opened Arithmetic
  import opened Decimal
  import opened SqlScan

  type Schema(==,!new)
  type Stmt(!new)

  /** What a statement does to the schema when it does not fail. */
  type Effect = (Schema, Stmt) -> Schema

  datatype Migration = Migration(version: int, name: string, script: seq<Stmt>, checksum: string)

  datatype Db = Db(schema: Schema, control: map<int, string>)

  /** The schema after the first n statements of a script. */
  function Run(effect: Effect, s: Schema, script: seq<Stmt>, n: nat): (r: Schema)
    requires n <= |script|
  {
    if n == 0 then s else effect(Run(effect, s, script, n - 1), script[n - 1])
  }

  function RunAll(effect: Effect, s: Schema, script: seq<Stmt>): (r: Schema)
  {
    Run(effect, s, script, |script|)
  }

  /** The database calls of one migration or rollback: begin, the statements, the record and the commit. */
  function Calls(script: seq<Stmt>): (n: nat)
  {
    |script| + 3
  }

  /** How many database calls succeed, and whether a commit right after them takes effect though it is reported as failed. */
  datatype Env = Env(calls: nat, lands: bool)

  /** The commit of a script's transaction is the call that fails, and it took effect. */
  predicate LostCommit(env: Env, script: seq<Stmt>)
  {
    env.lands && env.calls + 1 == Calls(script)
  }

  function Later(env: Env, n: nat): (r: Env)
    requires n <= env.calls
  {
    env.(calls := env.calls - n)
  }

  // ------------------------------------------------------------------ operations

  function Recorded(effect: Effect, db: Db, m: Migration): (r: Db)
  {
    Db(RunAll(effect, db.schema, m.script), db.control[m.version := m.checksum])
  }

  datatype UpResult = UpResult(db: Db, done: seq<int>, ok: bool)

  /** The loop of Up from migration i on, `applied` being the table read at its start. */
  function UpFrom(effect: Effect, ms: seq<Migration>, applied: map<int, string>, db: Db, env: Env, i: nat): (r: UpResult)
    requires i <= |ms|
    decreases |ms| - i
  {
    if i == |ms| then UpResult(db, [], true)
    else if ms[i].version in applied then
      if applied[ms[i].version] != ms[i].checksum then UpResult(db, [], false)
      else UpFrom(effect, ms, applied, db, env, i + 1)
    else if env.calls < Calls(ms[i].script) then
      UpResult(if LostCommit(env, ms[i].script) then Recorded(effect, db, ms[i]) else db, [], false)
    else
      var r := UpFrom(effect, ms, applied, Recorded(effect, db, ms[i]), Later(env, Calls(ms[i].script)), i + 1);
      UpResult(r.db, [ms[i].version] + r.done, r.ok)
  }

  /** Up in an environment. */
  function UpOf(effect: Effect, ms: seq<Migration>, db: Db, env: Env): (r: UpResult)
  {
    if env.calls < 2 then UpResult(db, [], false) else UpFrom(effect, ms, db.control, db, Later(env, 2), 0)
  }

  /** How many of the first n migrations reach up to the last applied one. */
  function LastApplied(ms: seq<Migration>, control: map<int, string>, n: nat): (k: nat)
    requires n <= |ms|
    ensures k <= n && (k > 0 ==> ms[k - 1].version in control)
    ensures forall j :: k <= j < n ==> ms[j].version !in control
  {
    if n == 0 then 0 else if ms[n - 1].version in control then n else LastApplied(ms, control, n - 1)
  }

  /** Zeros in front up to a width. */
  function Padded(digits: string, width: nat): (s: string)
    decreases width - |digits|
  {
    if |digits| < width then Padded("0" + digits, width) else digits
  }

  /** The %04d rendering of a version. */
  function PaddedVersion(version: int): (s: string)
  {
    if version < 0 then "-" + Padded(Itoa(-version), 3) else Padded(Itoa(version), 4)
  }

  /** The companion file that Down looks for: the version padded to four places and the name. */
  function DownName(m: Migration): (s: string)
  {
    PaddedVersion(m.version) + ("_" + (m.name + ".down.sql"))
  }

  datatype DownResult = DownResult(db: Db, version: int, ok: bool)

  function RolledBack(effect: Effect, db: Db, m: Migration, script: seq<Stmt>): (r: Db)
  {
    Db(RunAll(effect, db.schema, script), db.control - {m.version})
  }

  function DownOf(effect: Effect, ms: seq<Migration>, downs: map<string, seq<Stmt>>, db: Db, env: Env): (r: DownResult)
  {
    if env.calls < 2 then DownResult(db, 0, false)
    else
      var k := LastApplied(ms, db.control, |ms|);
      if k == 0 then DownResult(db, 0, true)
      else
        var m := ms[k - 1];
        if DownName(m) !in downs then DownResult(db, 0, false)
        else
          var script := downs[DownName(m)];
          if env.calls - 2 >= Calls(script) then DownResult(RolledBack(effect, db, m, script), m.version, true)
          else DownResult(if LostCommit(Later(env, 2), script) then RolledBack(effect, db, m, script) else db, 0, false)
  }

  datatype Status = Status(m: Migration, applied: bool, modified: bool)

  function StatusOf(m: Migration, control: map<int, string>): (s: Status)
  {
    var a := m.version in control;
    Status(m, a, a && control[m.version] != m.checksum)
  }

  // -------------------------------------------------------------- the applied set

  ghost predicate StrictlySorted(ms: seq<Migration>)
  {
    forall i, j :: 0 <= i < j < |ms| ==> ms[i].version < ms[j].version
  }

  /** The control table after the first k migrations. */
  function ControlOf(ms: seq<Migration>, k: nat): (c: map<int, string>)
    requires k <= |ms|
  {
    if k == 0 then map[] else ControlOf(ms, k - 1)[ms[k - 1].version := ms[k - 1].checksum]
  }

  /** The schema after the up scripts of the first k migrations. */
  function SchemaOf(effect: Effect, ms: seq<Migration>, init: Schema, k: nat): (s: Schema)
    requires k <= |ms|
  {
    if k == 0 then init else RunAll(effect, SchemaOf(effect, ms, init, k - 1), ms[k - 1].script)
  }

  /** Exactly the first k migrations are recorded, and the schema is what their scripts make. */
  ghost predicate AppliedPrefix(effect: Effect, ms: seq<Migration>, init: Schema, db: Db, k: nat)
  {
    k <= |ms| && db == Db(SchemaOf(effect, ms, init, k), ControlOf(ms, k))
  }

  /** Each down script undoes its up script where it runs. */
  ghost predicate DownsInvert(effect: Effect, ms: seq<Migration>, downs: map<string, seq<Stmt>>, init: Schema)
  {
    forall k :: 0 <= k < |ms| && DownName(ms[k]) in downs ==>
      RunAll(effect, SchemaOf(effect, ms, init, k + 1), downs[DownName(ms[k])]) == SchemaOf(effect, ms, init, k)
  }

  // ------------------------------------------------------- statements run in order

  lemma {:induction false} RunPrefix(effect: Effect, s: Schema, a: seq<Stmt>, b: seq<Stmt>, n: nat)
    requires n <= |a|
    ensures Run(effect, s, a + b, n) == Run(effect, s, a, n)
  {
    if n > 0 {
      RunPrefix(effect, s, a, b, n - 1);
    }
  }

  lemma {:induction false} RunTail(effect: Effect, s: Schema, a: seq<Stmt>, b: seq<Stmt>, n: nat)
    requires n <= |b|
    ensures Run(effect, s, a + b, |a| + n) == Run(effect, RunAll(effect, s, a), b, n)
  {
    if n == 0 {
      RunPrefix(effect, s, a, b, |a|);
    } else {
      RunTail(effect, s, a, b, n - 1);
      assert (a + b)[|a| + n - 1] == b[n - 1];
    }
  }

  /** A script of one statement has its effect; a script in two parts runs the first part first. */
  lemma {:induction false} RunsInOrder(effect: Effect, s: Schema, x: Stmt, a: seq<Stmt>, b: seq<Stmt>)
    ensures RunAll(effect, s, []) == s && RunAll(effect, s, [x]) == effect(s, x)
    ensures RunAll(effect, s, a + b) == RunAll(effect, RunAll(effect, s, a), b)
  {
    assert RunAll(effect, s, [x]) == effect(Run(effect, s, [x], 0), [x][0]);
    RunTail(effect, s, a, b, |b|);
  }

  /** The statements of the first k migrations, one script after the other. */
  function Scripts(ms: seq<Migration>, k: nat): (script: seq<Stmt>)
    requires k <= |ms|
  {
    if k == 0 then [] else Scripts(ms, k - 1) + ms[k - 1].script
  }

  /** The schema of a prefix is what its statements make, run one by one in the order of the files. */
  lemma {:induction false} PrefixRunsInOrder(effect: Effect, ms: seq<Migration>, init: Schema, k: nat)
    requires k <= |ms|
    ensures SchemaOf(effect, ms, init, k) == RunAll(effect, init, Scripts(ms, k))
  {
    if k > 0 {
      PrefixRunsInOrder(effect, ms, init, k - 1);
      RunTail(effect, init, Scripts(ms, k - 1), ms[k - 1].script, |ms[k - 1].script|);
    }
  }

  lemma {:induction false} ControlKeys(ms: seq<Migration>, k: nat, j: nat)
    requires StrictlySorted(ms) && k <= |ms| && j < |ms|
    ensures ms[j].version in ControlOf(ms, k) <==> j < k
    ensures j < k ==> ControlOf(ms, k)[ms[j].version] == ms[j].checksum
  {
    if k > 0 {
      ControlKeys(ms, k - 1, j);
      assert j < k - 1 ==> ms[j].version < ms[k - 1].version;
      assert k - 1 < j ==> ms[k - 1].version < ms[j].version;
    }
  }

  /** Unrecording the last of k migrations leaves the table of k - 1. */
  lemma {:induction false} ControlPopped(ms: seq<Migration>, k: nat)
    requires StrictlySorted(ms) && 0 < k <= |ms|
    ensures ControlOf(ms, k) - {ms[k - 1].version} == ControlOf(ms, k - 1)
  {
    ControlKeys(ms, k - 1, k - 1);
  }

  function Versions(ms: seq<Migration>, a: nat, b: nat): (vs: seq<int>)
    requires a <= b <= |ms|
    decreases b - a
  {
    if a == b then [] else [ms[a].version] + Versions(ms, a + 1, b)
  }

  // ------------------------------------------------------------------------- Up

  /** The loop skips the recorded prefix. */
  lemma {:induction false} UpSkips(effect: Effect, ms: seq<Migration>, db: Db, env: Env, i: nat, k: nat)
    requires StrictlySorted(ms) && i <= k <= |ms|
    ensures UpFrom(effect, ms, ControlOf(ms, k), db, env, i) == UpFrom(effect, ms, ControlOf(ms, k), db, env, k)
    decreases k - i
  {
    if i < k {
      ControlKeys(ms, k, i);
      UpSkips(effect, ms, db, env, i + 1, k);
    }
  }

  /** What Up reports and where it leaves the database: one migration further only if a failed commit took effect. */
  ghost predicate UpEnds(effect: Effect, ms: seq<Migration>, init: Schema, r: UpResult, i: nat, reported: nat, k: nat)
  {
    && i <= reported <= k <= |ms| && r.done == Versions(ms, i, reported) && AppliedPrefix(effect, ms, init, r.db, k)
    && (r.ok <==> reported == |ms|) && (reported < k ==> k == reported + 1)
  }

  /** From the first pending migration on, Up extends the prefix one migration at a time. */
  lemma {:induction false} UpExtends(effect: Effect, ms: seq<Migration>, init: Schema, k: nat, db: Db, env: Env, i: nat)
    returns (reported: nat, k': nat)
    requires StrictlySorted(ms) && k <= i && AppliedPrefix(effect, ms, init, db, i)
    ensures UpEnds(effect, ms, init, UpFrom(effect, ms, ControlOf(ms, k), db, env, i), i, reported, k')
    ensures reported < k' ==> env.lands
    decreases |ms| - i
  {
    reported, k' := i, i;
    if i < |ms| {
      ControlKeys(ms, k, i);
      if env.calls >= Calls(ms[i].script) {
        reported, k' := UpExtends(effect, ms, init, k, Recorded(effect, db, ms[i]), Later(env, Calls(ms[i].script)), i + 1);
      } else if LostCommit(env, ms[i].script) {
        k' := i + 1;
      }
    }
  }

  /**
   Up on a database at prefix k ends at a longer or equal prefix, reports the
   versions in between, save one whose commit took effect though it failed, and
   succeeds only at the whole list.
   */
  lemma {:induction false} UpKeepsPrefix(effect: Effect, ms: seq<Migration>, init: Schema, db: Db, env: Env, k: nat)
    returns (reported: nat, k': nat)
    requires StrictlySorted(ms) && AppliedPrefix(effect, ms, init, db, k)
    ensures var r := UpOf(effect, ms, db, env);
      && k <= reported <= k' && AppliedPrefix(effect, ms, init, r.db, k') && r.done == Versions(ms, k, reported)
      && (env.calls >= 2 ==> (r.ok <==> reported == |ms|)) && (r.ok ==> reported == k' == |ms|)
      && (reported < k' ==> k' == reported + 1 && env.lands && !r.ok)
  {
    reported, k' := k, k;
    if env.calls >= 2 {
      UpSkips(effect, ms, db, Later(env, 2), 0, k);
      reported, k' := UpExtends(effect, ms, init, k, db, Later(env, 2), k);
    }
  }

  /** The database calls that applying migrations i and on takes. */
  function CallsFrom(ms: seq<Migration>, i: nat): (n: nat)
    requires i <= |ms|
    decreases |ms| - i
  {
    if i == |ms| then 0 else Calls(ms[i].script) + CallsFrom(ms, i + 1)
  }

  lemma {:induction false} UpFinishes(effect: Effect, ms: seq<Migration>, k: nat, db: Db, env: Env, i: nat)
    requires StrictlySorted(ms) && k <= i <= |ms| && env.calls >= CallsFrom(ms, i)
    ensures UpFrom(effect, ms, ControlOf(ms, k), db, env, i).ok
    decreases |ms| - i
  {
    if i < |ms| {
      ControlKeys(ms, k, i);
      UpFinishes(effect, ms, k, Recorded(effect, db, ms[i]), Later(env, Calls(ms[i].script)), i + 1);
    }
  }

  /** With no failure Up applies everything that is left; on a complete database it changes nothing. */
  lemma {:induction false} UpCompletes(effect: Effect, ms: seq<Migration>, init: Schema, db: Db, env: Env, k: nat)
    requires StrictlySorted(ms) && AppliedPrefix(effect, ms, init, db, k) && env.calls >= 2 + CallsFrom(ms, k)
    ensures UpOf(effect, ms, db, env).ok
    ensures AppliedPrefix(effect, ms, init, UpOf(effect, ms, db, env).db, |ms|)
  {
    UpSkips(effect, ms, db, Later(env, 2), 0, k);
    UpFinishes(effect, ms, k, db, Later(env, 2), k);
    var reported, k' := UpKeepsPrefix(effect, ms, init, db, env, k);
  }

  /** After a successful Up, a second one reports nothing and leaves the database as it is. */
  lemma {:induction false} SecondUpNoOp(effect: Effect, ms: seq<Migration>, init: Schema, db: Db, env: Env, again: Env, k: nat)
    requires StrictlySorted(ms) && AppliedPrefix(effect, ms, init, db, k) && UpOf(effect, ms, db, env).ok
    ensures var after := UpOf(effect, ms, db, env).db;
      UpOf(effect, ms, after, again) == UpResult(after, [], again.calls >= 2)
  {
    var reported, n := UpKeepsPrefix(effect, ms, init, db, env, k);
    var after := UpOf(effect, ms, db, env).db;
    if again.calls >= 2 {
      UpSkips(effect, ms, after, Later(again, 2), 0, |ms|);
    }
  }

  // ----------------------------------------------------------------------- Down

  lemma {:induction false} LastIsPrefix(ms: seq<Migration>, k: nat, n: nat)
    requires StrictlySorted(ms) && k <= n <= |ms|
    ensures LastApplied(ms, ControlOf(ms, k), n) == k
  {
    if k < n {
      ControlKeys(ms, k, n - 1);
      LastIsPrefix(ms, k, n - 1);
    } else if k > 0 {
      ControlKeys(ms, k, k - 1);
    }
  }

  lemma {:induction false} RollBackShortens(effect: Effect, ms: seq<Migration>, downs: map<string, seq<Stmt>>, init: Schema,
                                            db: Db, k: nat, name: string)
    requires StrictlySorted(ms) && DownsInvert(effect, ms, downs, init) && AppliedPrefix(effect, ms, init, db, k)
    requires k > 0 && name == DownName(ms[k - 1]) && name in downs
    ensures AppliedPrefix(effect, ms, init, RolledBack(effect, db, ms[k - 1], downs[name]), k - 1)
  {
    ControlPopped(ms, k);
  }

  /**
   Down shortens the prefix by one and reports its version, or leaves the
   database as it is; a commit that took effect though it failed shortens the
   prefix unreported.
   */
  lemma {:induction false} DownKeepsPrefix(effect: Effect, ms: seq<Migration>, downs: map<string, seq<Stmt>>, init: Schema,
                                           db: Db, env: Env, k: nat)
    requires StrictlySorted(ms) && DownsInvert(effect, ms, downs, init) && AppliedPrefix(effect, ms, init, db, k)
    ensures DownEnds(effect, ms, init, db, env, k, DownOf(effect, ms, downs, db, env))
    ensures env.calls >= 2 && k == 0 ==> DownOf(effect, ms, downs, db, env).ok
    ensures k > 0 && DownName(ms[k - 1]) !in downs ==> DownOf(effect, ms, downs, db, env) == DownResult(db, 0, false)
  {
    LastIsPrefix(ms, k, |ms|);
    if k > 0 && DownName(ms[k - 1]) in downs {
      RollBackShortens(effect, ms, downs, init, db, k, DownName(ms[k - 1]));
      DownRuns(effect, ms, downs, db, env, k, DownName(ms[k - 1]));
    }
  }

  /** What Down reports and where it leaves a database at prefix k. */
  ghost predicate DownEnds(effect: Effect, ms: seq<Migration>, init: Schema, db: Db, env: Env, k: nat, r: DownResult)
    requires k <= |ms|
  {
    && (r.ok && k > 0 ==> AppliedPrefix(effect, ms, init, r.db, k - 1) && r.version == ms[k - 1].version)
    && (!r.ok || k == 0 ==> r.version == 0)
    && (r.db == db || (k > 0 && AppliedPrefix(effect, ms, init, r.db, k - 1) && (r.ok || env.lands)))
  }

  lemma {:induction false} DownRuns(effect: Effect, ms: seq<Migration>, downs: map<string, seq<Stmt>>, db: Db, env: Env, k: nat, name: string)
    requires 0 < k <= |ms| && LastApplied(ms, db.control, |ms|) == k && name == DownName(ms[k - 1]) && name in downs
    ensures var r, back := DownOf(effect, ms, downs, db, env), RolledBack(effect, db, ms[k - 1], downs[name]);
      || r == DownResult(back, ms[k - 1].version, true)
      || (r.db == db && !r.ok && r.version == 0)
      || (r.db == back && !r.ok && r.version == 0 && env.lands)
  {
  }

  // ----------------------------------------------------------------- whole runs

  datatype Op = Up(env: Env) | Down(env: Env)

  function Do(effect: Effect, ms: seq<Migration>, downs: map<string, seq<Stmt>>, db: Db, op: Op): (r: Db)
  {
    match op
    case Up(env) => UpOf(effect, ms, db, env).db
    case Down(env) => DownOf(effect, ms, downs, db, env).db
  }

  /** The database after the first n operations. */
  function After(effect: Effect, ms: seq<Migration>, downs: map<string, seq<Stmt>>, init: Schema, ops: seq<Op>, n: nat): (db: Db)
    requires n <= |ops|
  {
    if n == 0 then Db(init, map[]) else Do(effect, ms, downs, After(effect, ms, downs, init, ops, n - 1), ops[n - 1])
  }

  /** After any run of Up and Down, failing anywhere, the recorded migrations are a prefix and the schema is its fold. */
  lemma {:induction false} AlwaysAPrefix(effect: Effect, ms: seq<Migration>, downs: map<string, seq<Stmt>>, init: Schema,
                                         ops: seq<Op>, n: nat)
    returns (k: nat)
    requires StrictlySorted(ms) && DownsInvert(effect, ms, downs, init) && n <= |ops|
    ensures AppliedPrefix(effect, ms, init, After(effect, ms, downs, init, ops, n), k)
  {
    k := 0;
    if n > 0 {
      var j := AlwaysAPrefix(effect, ms, downs, init, ops, n - 1);
      var db := After(effect, ms, downs, init, ops, n - 1);
      match ops[n - 1] {
        case Up(env) =>
          var reported;
          reported, k := UpKeepsPrefix(effect, ms, init, db, env, j);
        case Down(env) =>
          DownKeepsPrefix(effect, ms, downs, init, db, env, j);
          k := if DownOf(effect, ms, downs, db, env).db == db then j else j - 1;
      }
    }
  }

  // ---------------------------------------------------------- changed migrations

  /** The first recorded migration whose file changed stops Up before it and everything after it. */
  lemma {:induction false} ChangedFileStops(effect: Effect, ms: seq<Migration>, applied: map<int, string>, db: Db, env: Env,
                                            i: nat, j: nat)
    requires i <= j < |ms| && StatusOf(ms[j], applied).modified
    ensures var r := UpFrom(effect, ms, applied, db, env, i);
      !r.ok && |r.done| <= j - i
    decreases j - i
  {
    if i < j {
      if ms[i].version in applied {
        ChangedFileStops(effect, ms, applied, db, env, i + 1, j);
      } else if env.calls >= Calls(ms[i].script) {
        ChangedFileStops(effect, ms, applied, Recorded(effect, db, ms[i]), Later(env, Calls(ms[i].script)), i + 1, j);
      }
    }
  }

  lemma {:induction false} UnchangedFinishes(effect: Effect, ms: seq<Migration>, applied: map<int, string>, db: Db, env: Env, i: nat)
    requires i <= |ms| && env.calls >= CallsFrom(ms, i)
    requires forall j :: 0 <= j < |ms| ==> !StatusOf(ms[j], applied).modified
    ensures UpFrom(effect, ms, applied, db, env, i).ok
    decreases |ms| - i
  {
    if i < |ms| {
      assert !StatusOf(ms[i], applied).modified;
      if ms[i].version in applied {
        UnchangedFinishes(effect, ms, applied, db, env, i + 1);
      } else {
        UnchangedFinishes(effect, ms, applied, Recorded(effect, db, ms[i]), Later(env, Calls(ms[i].script)), i + 1);
      }
    }
  }

  /** On any database, if no call fails, Up succeeds exactly when Status flags no migration as modified. */
  lemma {:induction false} StatusPredictsUp(effect: Effect, ms: seq<Migration>, db: Db, env: Env)
    requires env.calls >= 2 + CallsFrom(ms, 0)
    ensures UpOf(effect, ms, db, env).ok <==> forall j :: 0 <= j < |ms| ==> !StatusOf(ms[j], db.control).modified
  {
    if j :| 0 <= j < |ms| && StatusOf(ms[j], db.control).modified {
      ChangedFileStops(effect, ms, db.control, db, Later(env, 2), 0, j);
    } else {
      UnchangedFinishes(effect, ms, db.control, db, Later(env, 2), 0);
    }
  }

  /** The versions of the migrations from i on that Status does not flag as applied. */
  function Unapplied(ms: seq<Migration>, control: map<int, string>, i: nat): (vs: seq<int>)
    requires i <= |ms|
    decreases |ms| - i
  {
    if i == |ms| then []
    else (if StatusOf(ms[i], control).applied then [] else [ms[i].version]) + Unapplied(ms, control, i + 1)
  }

  lemma {:induction false} UpDoesUnapplied(effect: Effect, ms: seq<Migration>, applied: map<int, string>, db: Db, env: Env, i: nat)
    requires i <= |ms| && UpFrom(effect, ms, applied, db, env, i).ok
    ensures UpFrom(effect, ms, applied, db, env, i).done == Unapplied(ms, applied, i)
    decreases |ms| - i
  {
    if i < |ms| {
      if ms[i].version in applied {
        UpDoesUnapplied(effect, ms, applied, db, env, i + 1);
      } else {
        UpDoesUnapplied(effect, ms, applied, Recorded(effect, db, ms[i]), Later(env, Calls(ms[i].script)), i + 1);
      }
    }
  }

  /** On any database a successful Up runs exactly the migrations Status does not flag as applied, in order. */
  lemma {:induction false} StatusTellsPending(effect: Effect, ms: seq<Migration>, db: Db, env: Env)
    requires UpOf(effect, ms, db, env).ok
    ensures UpOf(effect, ms, db, env).done == Unapplied(ms, db.control, 0)
  {
    UpDoesUnapplied(effect, ms, db.control, db, Later(env, 2), 0);
  }

  /** On a database at prefix k Status flags exactly the first k migrations as applied and none as modified. */
  lemma {:induction false} StatusOfPrefix(effect: Effect, ms: seq<Migration>, init: Schema, db: Db, k: nat, j: nat)
    requires StrictlySorted(ms) && AppliedPrefix(effect, ms, init, db, k) && j < |ms|
    ensures StatusOf(ms[j], db.control) == Status(ms[j], j < k, false)
  {
    ControlKeys(ms, k, j);
  }

  // --------------------------------------------------------- loading a directory

  datatype Content = Unreadable | Text(text: string)

  datatype Entry = Entry(isDir: bool, name: string, content: Content)

  datatype FileName = Ignored | UpFile(version: int, title: string)

  predicate EndsWith(s: string, suffix: string)
  {
    |suffix| <= |s| && s[|s| - |suffix|..] == suffix
  }

  const WORD: int := 0x1_0000_0000_0000_0000

  /** A number as a signed 64-bit integer. */
  function Signed64(n: int): (v: int)
    ensures -MAX_INT64 - 1 <= v <= MAX_INT64
  {
    var m := n % WORD;
    if m > MAX_INT64 then m - WORD else m
  }

  lemma {:induction false} SignedShift(n: int, k: int)
    ensures Signed64(n + k * WORD) == Signed64(n)
  {
    DivModUnique(n + k * WORD, WORD, n / WORD + k, n % WORD);
  }

  /** Wrapping around at every digit is wrapping around once. */
  lemma {:induction false} SignedDigit(n: int, d: int)
    ensures Signed64(Signed64(n) * 10 + d) == Signed64(n * 10 + d)
  {
    var k := (Signed64(n) - n) / WORD;
    assert Signed64(n) == n + k * WORD;
    SignedShift(n * 10 + d, 10 * k);
    assert Signed64(n) * 10 + d == n * 10 + d + (10 * k) * WORD;
  }

  /** atoi: the value of the leading digits, in 64-bit arithmetic. */
  method ReadVersion(s: string) returns (n: int)
    ensures n == Signed64(Atoi(s[..DigitsEnd(s, 0)]))
  {
    n := 0;
    var i := 0;
    assert s[..0] == "";
    while i < |s|
      invariant 0 <= i <= |s| && DigitsEnd(s, i) == DigitsEnd(s, 0) && n == Signed64(Atoi(s[..i]))
    {
      if !IsDigit(s[i]) {
        return n;
      }
      SignedDigit(Atoi(s[..i]), ValueOf(s[i]));
      assert s[..i + 1][..i] == s[..i];
      n := Signed64(n * 10 + ValueOf(s[i]));
      i := i + 1;
    }
    assert s[..|s|] == s;
  }

  /** A version, `_` or `-`, a title and `.sql`; companions of an up file are not versions of their own. */
  function FileNameOf(name: string): (f: FileName)
  {
    var j := DigitsEnd(name, 0);
    if j == 0 || j >= |name| || (name[j] != '_' && name[j] != '-') || !EndsWith(name[j + 1..], ".sql") then Ignored
    else
      var title := name[j + 1..|name| - 4];
      if title == "" || '\n' in title || EndsWith(title, ".down") then Ignored
      else UpFile(Signed64(Atoi(name[..j])), title)
  }

  lemma {:induction false} LeadingZero(s: string)
    requires AllDigits(s)
    ensures Atoi("0" + s) == Atoi(s)
  {
    var z := "0" + s;
    if s == "" {
      assert z[..0] == "" && Atoi(z) == Atoi("") * 10 + ValueOf('0');
    } else {
      LeadingZero(s[..|s| - 1]);
      assert z[..|z| - 1] == "0" + s[..|s| - 1];
    }
  }

  lemma {:induction false} PaddedReads(s: string, width: nat)
    requires AllDigits(s)
    ensures AllDigits(Padded(s, width)) && Atoi(Padded(s, width)) == Atoi(s) && |Padded(s, width)| >= width
    ensures s != "" ==> Padded(s, width) != ""
    decreases width - |s|
  {
    if |s| < width {
      LeadingZero(s);
      PaddedReads("0" + s, width);
    }
  }

  lemma {:induction false} DigitsStop(name: string, j: nat, e: nat)
    requires j <= e < |name| && (forall k :: j <= k < e ==> IsDigit(name[k])) && !IsDigit(name[e])
    ensures DigitsEnd(name, j) == e
    decreases e - j
  {
    if j < e {
      DigitsStop(name, j + 1, e);
    }
  }

  predicate Separator(sep: char)
  {
    sep == '_' || sep == '-'
  }

  /** Digits, a separator and a rest. */
  function Stem(digits: string, sep: char, rest: string): (name: string)
  {
    digits + ([sep] + rest)
  }

  lemma {:induction false} StemDigits(digits: string, sep: char, rest: string)
    requires AllDigits(digits) && Separator(sep)
    ensures DigitsEnd(Stem(digits, sep, rest), 0) == |digits| && Stem(digits, sep, rest)[|digits|] == sep
    ensures Stem(digits, sep, rest)[..|digits|] == digits && Stem(digits, sep, rest)[|digits| + 1..] == rest
  {
    var name := Stem(digits, sep, rest);
    forall k | 0 <= k < |digits| ensures IsDigit(name[k]) {
      assert name[k] == digits[k];
    }
    assert name[|digits|] == sep;
    DigitsStop(name, 0, |digits|);
  }

  /** How a name of digits, a separator and a rest ending in .sql is read. */
  lemma {:induction false} NameParts(digits: string, sep: char, title: string)
    requires digits != "" && AllDigits(digits) && Separator(sep) && title != "" && '\n' !in title
    ensures FileNameOf(Stem(digits, sep, title + ".sql")) ==
      if EndsWith(title, ".down") then Ignored else UpFile(Signed64(Atoi(digits)), title)
  {
    var name := Stem(digits, sep, title + ".sql");
    StemDigits(digits, sep, title + ".sql");
    assert (title + ".sql")[|title|..] == ".sql";
    assert name[|digits| + 1..|name| - 4] == title;
  }

  /** The parts a file name must have to be an up file, and what it then says. */
  ghost predicate Spells(name: string, digits: string, sep: char, title: string)
  {
    && name == Stem(digits, sep, title + ".sql") && digits != "" && AllDigits(digits) && Separator(sep)
    && title != "" && '\n' !in title && !EndsWith(title, ".down")
  }

  /** The parts of a name that is read as an up file. */
  lemma {:induction false} SpelledOut(name: string) returns (digits: string, sep: char)
    requires FileNameOf(name).UpFile?
    ensures Spells(name, digits, sep, FileNameOf(name).title) && FileNameOf(name).version == Signed64(Atoi(digits))
  {
    var j := DigitsEnd(name, 0);
    digits, sep := name[..j], name[j];
    var title := FileNameOf(name).title;
    assert name[j + 1..] == title + ".sql" by {
      var rest := name[j + 1..];
      assert rest[|rest| - 4..] == ".sql" && rest[..|rest| - 4] == title;
    }
    assert name == name[..j] + ([name[j]] + name[j + 1..]);
  }

  /** A file is read as an up file of a version and a title if and only if its name spells the two. */
  lemma {:induction false} NameReadIff(name: string, version: int, title: string)
    ensures FileNameOf(name) == UpFile(version, title)
      <==> exists digits, sep :: Spells(name, digits, sep, title) && version == Signed64(Atoi(digits))
  {
    if FileNameOf(name) == UpFile(version, title) {
      var digits, sep := SpelledOut(name);
    }
    if digits, sep :| Spells(name, digits, sep, title) && version == Signed64(Atoi(digits)) {
      NameParts(digits, sep, title);
    }
  }

  lemma {:induction false} InWord(n: nat)
    requires n <= MAX_INT64
    ensures Signed64(n) == n
  {
    DivModUnique(n, WORD, 0, n);
  }

  /** An up file named by a padded version and a title is read as that version and title. */
  lemma {:induction false} UpNameReads(version: nat, sep: char, title: string)
    requires version <= MAX_INT64 && Separator(sep) && title != "" && '\n' !in title && !EndsWith(title, ".down")
    ensures FileNameOf(Stem(PaddedVersion(version), sep, title + ".sql")) == UpFile(version, title)
  {
    PaddedReads(Itoa(version), 4);
    AtoiItoa(version);
    InWord(version);
    NameParts(Padded(Itoa(version), 4), sep, title);
  }

  /** The companion file of a migration is never taken for a migration. */
  lemma {:induction false} DownNameIgnored(m: Migration)
    requires '\n' !in m.name
    ensures FileNameOf(DownName(m)) == Ignored
  {
    if m.version < 0 {
      assert DownName(m)[0] == '-';
      assert DigitsEnd(DownName(m), 0) == 0;
    } else {
      var digits, title := Padded(Itoa(m.version), 4), m.name + ".down";
      PaddedReads(Itoa(m.version), 4);
      assert title[|m.name|..] == ".down";
      NameParts(digits, '_', title);
      SameCompanion(digits, m.name);
    }
  }

  lemma {:induction false} SameCompanion(digits: string, title: string)
    ensures digits + ("_" + (title + ".down.sql")) == Stem(digits, '_', (title + ".down") + ".sql")
  {
    assert ".down.sql" == ".down" + ".sql";
    assert title + ".down.sql" == (title + ".down") + ".sql";
  }

  lemma {:induction false} StemsEqualIff(a: string, s: char, b: string, t: char, rest: string)
    requires AllDigits(a) && AllDigits(b) && Separator(s) && Separator(t)
    ensures Stem(a, s, rest) == Stem(b, t, rest) <==> a == b && s == t
  {
    StemDigits(a, s, rest);
    StemDigits(b, t, rest);
  }

  /**
   Down finds the companion of the same stem as an up file if and only if the
   file's version is written with at least four digits, zeros in front only up
   to four, as a number that fits 64 bits, and is followed by an underscore.
   */
  lemma {:induction false} CompanionFoundIff(digits: string, sep: char, title: string, m: Migration)
    requires digits != "" && AllDigits(digits) && Separator(sep)
    requires m.version == Signed64(Atoi(digits)) && m.name == title
    ensures DownName(m) == Stem(digits, sep, title + ".down.sql")
      <==> m.version >= 0 && digits == Padded(Itoa(m.version), 4) && sep == '_'
  {
    var companion := Stem(digits, sep, title + ".down.sql");
    if m.version < 0 {
      assert DownName(m)[0] == '-' && companion[0] == digits[0] && IsDigit(digits[0]);
    } else {
      PaddedReads(Itoa(m.version), 4);
      StemsEqualIff(Padded(Itoa(m.version), 4), '_', digits, sep, title + ".down.sql");
    }
  }

  /** Whether a directory entry is an up file of version v. */
  predicate IsUp(e: Entry, v: int)
  {
    !e.isDir && FileNameOf(e.name).UpFile? && FileNameOf(e.name).version == v
  }

  datatype Reader = Reader(split: string -> seq<Stmt>, digest: string -> string)

  function MigrationOf(r: Reader, e: Entry): (m: Migration)
    requires FileNameOf(e.name).UpFile? && e.content.Text?
  {
    var f := FileNameOf(e.name);
    Migration(f.version, f.title, r.split(e.content.text), r.digest(e.content.text))
  }

  ghost predicate NoClash(es: seq<Entry>, n: nat)
    requires n <= |es|
  {
    forall i, j, v :: 0 <= i < j < n && IsUp(es[i], v) ==> !IsUp(es[j], v)
  }

  ghost predicate Readable(es: seq<Entry>, n: nat)
    requires n <= |es|
  {
    forall i, v :: 0 <= i < n && IsUp(es[i], v) ==> es[i].content.Text?
  }

  /** A migration is the one of an entry. */
  ghost predicate Gives(r: Reader, e: Entry, m: Migration)
  {
    IsUp(e, m.version) && e.content.Text? && m == MigrationOf(r, e)
  }

  ghost predicate GivenBy(r: Reader, es: seq<Entry>, n: nat, m: Migration)
    requires n <= |es|
  {
    exists i :: 0 <= i < n && Gives(r, es[i], m)
  }

  ghost predicate Covers(r: Reader, es: seq<Entry>, n: nat, ms: seq<Migration>)
    requires n <= |es|
  {
    forall i, v :: 0 <= i < n && IsUp(es[i], v) ==> es[i].content.Text? && MigrationOf(r, es[i]) in ms
  }

  ghost predicate Sourced(r: Reader, es: seq<Entry>, n: nat, ms: seq<Migration>)
    requires n <= |es|
  {
    forall k :: 0 <= k < |ms| ==> GivenBy(r, es, n, ms[k])
  }

  /** The migrations are those of the first n entries. */
  ghost predicate Lists(r: Reader, es: seq<Entry>, n: nat, ms: seq<Migration>)
    requires n <= |es|
  {
    Covers(r, es, n, ms) && Sourced(r, es, n, ms)
  }

  ghost predicate DistinctVersions(ms: seq<Migration>)
  {
    forall i, j :: 0 <= i < j < |ms| ==> ms[i].version != ms[j].version
  }

  datatype Loaded = Loaded(migrations: seq<Migration>) | Duplicate(version: int, first: string, second: string) | Failed(name: string)

  /** Inserting by version. */
  function Insert(m: Migration, ms: seq<Migration>): (r: seq<Migration>)
  {
    if ms == [] then [m]
    else if m.version < ms[0].version then [m] + ms
    else [ms[0]] + Insert(m, ms[1..])
  }

  function SortByVersion(ms: seq<Migration>, n: nat): (r: seq<Migration>)
    requires n <= |ms|
  {
    if n == 0 then [] else Insert(ms[n - 1], SortByVersion(ms, n - 1))
  }

  lemma {:induction false} InsertMembers(m: Migration, ms: seq<Migration>, x: Migration)
    ensures x in Insert(m, ms) <==> x == m || x in ms
    ensures |Insert(m, ms)| == |ms| + 1
  {
    if ms != [] && m.version >= ms[0].version {
      InsertMembers(m, ms[1..], x);
      assert x in ms <==> x == ms[0] || x in ms[1..];
    }
  }

  lemma {:induction false} InsertSorts(m: Migration, ms: seq<Migration>)
    requires StrictlySorted(ms) && forall x :: x in ms ==> x.version != m.version
    ensures StrictlySorted(Insert(m, ms))
  {
    if ms != [] && m.version > ms[0].version {
      var rest := Insert(m, ms[1..]);
      InsertSorts(m, ms[1..]);
      forall j | 0 <= j < |rest| ensures ms[0].version < rest[j].version {
        InsertMembers(m, ms[1..], rest[j]);
      }
    }
  }

  lemma {:induction false} SortMembers(ms: seq<Migration>, n: nat, x: Migration)
    requires n <= |ms|
    ensures x in SortByVersion(ms, n) <==> x in ms[..n]
    ensures |SortByVersion(ms, n)| == n
  {
    if n > 0 {
      SortMembers(ms, n - 1, x);
      InsertMembers(ms[n - 1], SortByVersion(ms, n - 1), x);
      assert ms[..n] == ms[..n - 1] + [ms[n - 1]];
    }
  }

  lemma {:induction false} SortSorts(ms: seq<Migration>, n: nat)
    requires n <= |ms| && DistinctVersions(ms)
    ensures StrictlySorted(SortByVersion(ms, n))
  {
    if n > 0 {
      SortSorts(ms, n - 1);
      forall x | x in SortByVersion(ms, n - 1) ensures x.version != ms[n - 1].version {
        SortMembers(ms, n - 1, x);
      }
      InsertSorts(ms[n - 1], SortByVersion(ms, n - 1));
    }
  }

  ghost predicate NamedBy(es: seq<Entry>, n: nat, v: int, name: string)
    requires n <= |es|
  {
    exists i :: 0 <= i < n && IsUp(es[i], v) && es[i].name == name
  }

  /** The names seen so far, by version. */
  ghost predicate SeenSoFar(es: seq<Entry>, n: nat, seen: map<int, string>)
    requires n <= |es|
  {
    && (forall i, v :: 0 <= i < n && IsUp(es[i], v) ==> v in seen)
    && (forall v :: v in seen ==> NamedBy(es, n, v, seen[v]))
  }

  ghost predicate VersionsSeen(seen: map<int, string>, ms: seq<Migration>)
  {
    DistinctVersions(ms) && forall k :: 0 <= k < |ms| ==> ms[k].version in seen
  }

  ghost predicate LoadedSoFar(r: Reader, es: seq<Entry>, n: nat, seen: map<int, string>, ms: seq<Migration>)
    requires n <= |es|
  {
    NoClash(es, n) && Lists(r, es, n, ms) && SeenSoFar(es, n, seen) && VersionsSeen(seen, ms)
  }

  lemma {:induction false} VersionsNext(seen: map<int, string>, ms: seq<Migration>, m: Migration, name: string)
    requires VersionsSeen(seen, ms) && m.version !in seen
    ensures VersionsSeen(seen[m.version := name], ms + [m])
  {
  }

  lemma {:induction false} CoversNext(r: Reader, es: seq<Entry>, n: nat, ms: seq<Migration>, m: Migration)
    requires n < |es| && Covers(r, es, n, ms) && Gives(r, es[n], m)
    ensures Covers(r, es, n + 1, ms + [m])
  {
    assert m in ms + [m];
  }

  lemma {:induction false} SourcedNext(r: Reader, es: seq<Entry>, n: nat, ms: seq<Migration>, m: Migration)
    requires n < |es| && Sourced(r, es, n, ms) && Gives(r, es[n], m)
    ensures Sourced(r, es, n + 1, ms + [m])
  {
    var ms' := ms + [m];
    forall k | 0 <= k < |ms'| ensures GivenBy(r, es, n + 1, ms'[k]) {
      if k < |ms| {
        assert GivenBy(r, es, n, ms[k]);
      }
    }
  }

  lemma {:induction false} SeenNext(es: seq<Entry>, n: nat, seen: map<int, string>, v: int)
    requires n < |es| && NoClash(es, n) && SeenSoFar(es, n, seen) && IsUp(es[n], v) && v !in seen
    ensures NoClash(es, n + 1) && SeenSoFar(es, n + 1, seen[v := es[n].name])
  {
    var seen' := seen[v := es[n].name];
    forall w | w in seen' ensures NamedBy(es, n + 1, w, seen'[w]) {
      if w == v {
        assert IsUp(es[n], w);
      } else {
        assert NamedBy(es, n, w, seen[w]);
      }
    }
  }

  lemma {:induction false} LoadNext(r: Reader, es: seq<Entry>, n: nat, seen: map<int, string>, ms: seq<Migration>, m: Migration)
    requires n < |es| && LoadedSoFar(r, es, n, seen, ms) && Gives(r, es[n], m) && m.version !in seen
    ensures LoadedSoFar(r, es, n + 1, seen[m.version := es[n].name], ms + [m])
  {
    CoversNext(r, es, n, ms, m);
    SourcedNext(r, es, n, ms, m);
    SeenNext(es, n, seen, m.version);
    VersionsNext(seen, ms, m, es[n].name);
  }

  ghost predicate NotUp(e: Entry)
  {
    forall v :: !IsUp(e, v)
  }

  lemma {:induction false} SeenSkip(es: seq<Entry>, n: nat, seen: map<int, string>)
    requires n < |es| && NoClash(es, n) && SeenSoFar(es, n, seen) && NotUp(es[n])
    ensures NoClash(es, n + 1) && SeenSoFar(es, n + 1, seen)
  {
    forall w | w in seen ensures NamedBy(es, n + 1, w, seen[w]) {
      assert NamedBy(es, n, w, seen[w]);
    }
  }

  lemma {:induction false} ListsSkip(r: Reader, es: seq<Entry>, n: nat, ms: seq<Migration>)
    requires n < |es| && Lists(r, es, n, ms) && NotUp(es[n])
    ensures Lists(r, es, n + 1, ms)
  {
    forall k | 0 <= k < |ms| ensures GivenBy(r, es, n + 1, ms[k]) {
      assert GivenBy(r, es, n, ms[k]);
    }
  }

  lemma {:induction false} LoadSkips(r: Reader, es: seq<Entry>, n: nat, seen: map<int, string>, ms: seq<Migration>)
    requires n < |es| && LoadedSoFar(r, es, n, seen, ms) && NotUp(es[n])
    ensures LoadedSoFar(r, es, n + 1, seen, ms)
  {
    ListsSkip(r, es, n, ms);
    SeenSkip(es, n, seen);
  }

  lemma {:induction false} ListsSame(r: Reader, es: seq<Entry>, ms: seq<Migration>, sorted: seq<Migration>)
    requires Lists(r, es, |es|, ms) && forall x :: x in sorted <==> x in ms
    ensures Lists(r, es, |es|, sorted)
  {
    forall k | 0 <= k < |sorted| ensures GivenBy(r, es, |es|, sorted[k]) {
      assert sorted[k] in ms;
    }
  }

  /** Sorting keeps the members and puts them in strict order. */
  lemma {:induction false} LoadEnds(r: Reader, es: seq<Entry>, seen: map<int, string>, ms: seq<Migration>)
    requires LoadedSoFar(r, es, |es|, seen, ms)
    ensures var sorted := SortByVersion(ms, |ms|);
      StrictlySorted(sorted) && Lists(r, es, |es|, sorted) && |sorted| == |ms|
  {
    var sorted := SortByVersion(ms, |ms|);
    SortSorts(ms, |ms|);
    assert ms[..|ms|] == ms;
    forall x ensures x in sorted <==> x in ms {
      SortMembers(ms, |ms|, x);
    }
    ListsSame(r, es, ms, sorted);
    assert |sorted| == |ms| by {
      if ms != [] {
        SortMembers(ms, |ms|, ms[0]);
      }
    }
  }

  /** The directory scan of NewMigrator. */
  method LoadMigrations(r: Reader, es: seq<Entry>) returns (l: Loaded)
    ensures l.Loaded? <==> NoClash(es, |es|) && Readable(es, |es|)
    ensures l.Loaded? ==> StrictlySorted(l.migrations) && Lists(r, es, |es|, l.migrations)
    ensures l.Duplicate? ==> exists i, j :: 0 <= i < j < |es| && IsUp(es[i], l.version) && IsUp(es[j], l.version)
                               && es[i].name == l.first && es[j].name == l.second
    ensures l.Failed? ==> exists i :: 0 <= i < |es| && !NotUp(es[i]) && es[i].content.Unreadable? && es[i].name == l.name
  {
    var ms: seq<Migration> := [];
    var seen: map<int, string> := map[];
    var n := 0;
    while n < |es|
      invariant 0 <= n <= |es| && LoadedSoFar(r, es, n, seen, ms)
    {
      var e := es[n];
      var f := FileNameOf(e.name);
      if e.isDir || f.Ignored? {
        LoadSkips(r, es, n, seen, ms);
      } else if f.version in seen {
        assert NamedBy(es, n, f.version, seen[f.version]);
        ghost var i :| 0 <= i < n && IsUp(es[i], f.version) && es[i].name == seen[f.version];
        assert IsUp(es[n], f.version);
        return Duplicate(f.version, seen[f.version], e.name);
      } else if e.content.Unreadable? {
        assert IsUp(es[n], f.version);
        return Failed(e.name);
      } else {
        LoadNext(r, es, n, seen, ms, MigrationOf(r, e));
        seen, ms := seen[f.version := e.name], ms + [MigrationOf(r, e)];
      }
      n := n + 1;
    }
    LoadEnds(r, es, seen, ms);
    return Loaded(SortByVersion(ms, |ms|));
  }

  /**
   What was loaded: every readable up file is there with the version and title its
   name spells, the statements of its text and the checksum of its text.
   */
  lemma {:induction false} LoadedContents(r: Reader, es: seq<Entry>, ms: seq<Migration>, i: nat, digits: string, sep: char, title: string)
    requires Lists(r, es, |es|, ms) && i < |es| && !es[i].isDir && Spells(es[i].name, digits, sep, title)
    ensures es[i].content.Text?
    ensures exists k :: 0 <= k < |ms| && ms[k].version == Signed64(Atoi(digits)) && ms[k].name == title
              && ms[k].script == r.split(es[i].content.text) && ms[k].checksum == r.digest(es[i].content.text)
  {
    NameParts(digits, sep, title);
    assert IsUp(es[i], Signed64(Atoi(digits)));
    var m := MigrationOf(r, es[i]);
    assert m in ms;
    var k :| 0 <= k < |ms| && ms[k] == m;
  }

  // -------------------------------------------------------------- the migrator

  function Prepended(done: seq<int>, r: UpResult): (s: UpResult)
  {
    UpResult(r.db, done + r.done, r.ok)
  }

  /** A migration that is recorded with its checksum is passed over. */
  lemma {:induction false} PassedOver(effect: Effect, ms: seq<Migration>, applied: map<int, string>, db: Db, env: Env, i: nat)
    requires i < |ms| && ms[i].version in applied && applied[ms[i].version] == ms[i].checksum
    ensures UpFrom(effect, ms, applied, db, env, i) == UpFrom(effect, ms, applied, db, env, i + 1)
  {
  }

  /** An applied migration joins the report. */
  lemma {:induction false} Reported(effect: Effect, ms: seq<Migration>, applied: map<int, string>, db: Db, env: Env, i: nat, done: seq<int>)
    requires i < |ms| && ms[i].version !in applied && env.calls >= Calls(ms[i].script)
    ensures Prepended(done, UpFrom(effect, ms, applied, db, env, i))
         == Prepended(done + [ms[i].version],
                      UpFrom(effect, ms, applied, Recorded(effect, db, ms[i]), Later(env, Calls(ms[i].script)), i + 1))
  {
    var r := UpFrom(effect, ms, applied, Recorded(effect, db, ms[i]), Later(env, Calls(ms[i].script)), i + 1);
    assert done + ([ms[i].version] + r.done) == (done + [ms[i].version]) + r.done;
  }

  class Migrator {
    const migrations: seq<Migration>
    const downs: map<string, seq<Stmt>>
    const effect: Effect
    var schema: Schema
    var control: map<int, string>
    var calls: nat   // how many more database calls succeed
    var lands: bool  // whether a commit after them takes effect though it is reported as failed

    constructor (migrations: seq<Migration>, downs: map<string, seq<Stmt>>, effect: Effect, init: Schema)
      ensures this.migrations == migrations && this.downs == downs && this.effect == effect && View() == Db(init, map[])
    {
      this.migrations, this.downs, this.effect := migrations, downs, effect;
      schema, control, calls, lands := init, map[], 0, false;
    }

    function View(): (db: Db)
      reads this
    {
      Db(schema, control)
    }

    function Environment(): (env: Env)
      reads this
    {
      Env(calls, lands)
    }

    method Call() returns (ok: bool)
      modifies this`calls
      ensures ok <==> old(calls) > 0
      ensures calls == if ok then old(calls) - 1 else 0
    {
      ok := calls > 0;
      if ok {
        calls := calls - 1;
      }
    }

    /** The statements of a script inside a transaction. */
    method Execute(tx: Schema, script: seq<Stmt>) returns (r: Schema, ok: bool)
      modifies this`calls
      ensures ok <==> old(calls) >= |script|
      ensures ok ==> r == RunAll(effect, tx, script) && calls == old(calls) - |script|
    {
      r := tx;
      var i := 0;
      while i < |script|
        invariant 0 <= i <= |script| && i <= old(calls) && calls == old(calls) - i
        invariant r == Run(effect, tx, script, i)
      {
        ok := Call();
        if !ok {
          return;
        }
        r, i := effect(r, script[i]), i + 1;
      }
      ok := true;
    }

    /** The commit installs the transaction's copy, or, when it fails, does so or not without saying. */
    method Commit(tx: Db) returns (ok: bool)
      modifies this`calls, this`schema, this`control
      ensures ok <==> old(calls) > 0
      ensures calls == if ok then old(calls) - 1 else 0
      ensures View() == if ok || lands then tx else old(View())
    {
      ok := Call();
      if ok || lands {
        schema, control := tx.schema, tx.control;
      }
    }

    /** Begin, the statements and the record: the transaction up to its commit. */
    method Transact(script: seq<Stmt>) returns (tx: Schema, ok: bool)
      modifies this`calls
      ensures ok <==> old(calls) + 1 >= Calls(script)
      ensures ok ==> tx == RunAll(effect, schema, script) && calls + Calls(script) == old(calls) + 1
    {
      tx := schema;
      ok := Call();
      if !ok {
        return;
      }
      tx, ok := Execute(schema, script);
      if !ok {
        return;
      }
      ok := Call();
    }

    /** One migration and its record, or neither. */
    method ApplyOne(m: Migration) returns (ok: bool)
      modifies this`calls, this`schema, this`control
      ensures ok <==> old(calls) >= Calls(m.script)
      ensures ok ==> calls == old(calls) - Calls(m.script)
      ensures View() == if ok || LostCommit(old(Environment()), m.script) then Recorded(effect, old(View()), m) else old(View())
    {
      var tx;
      tx, ok := Transact(m.script);
      if ok {
        ok := Commit(Db(tx, control[m.version := m.checksum]));
      }
    }

    /** ensureTable and applied. */
    method ReadApplied() returns (applied: map<int, string>, ok: bool)
      modifies this`calls
      ensures ok <==> old(calls) >= 2
      ensures ok ==> applied == control && calls == old(calls) - 2
    {
      applied := map[];
      ok := Call();
      if ok {
        ok := Call();
        applied := control;
      }
    }

    method Up() returns (done: seq<int>, ok: bool)
      modifies this`calls, this`schema, this`control
      ensures UpResult(View(), done, ok) == UpOf(effect, migrations, old(View()), old(Environment()))
    {
      done := [];
      var applied;
      applied, ok := ReadApplied();
      if !ok {
        return;
      }
      var i := 0;
      while i < |migrations|
        invariant 0 <= i <= |migrations|
        invariant UpOf(effect, migrations, old(View()), old(Environment()))
               == Prepended(done, UpFrom(effect, migrations, applied, View(), Environment(), i))
      {
        var m := migrations[i];
        if m.version in applied {
          if applied[m.version] != m.checksum {
            return done, false;
          }
          PassedOver(effect, migrations, applied, View(), Environment(), i);
        } else {
          ghost var db, env := View(), Environment();
          ok := ApplyOne(m);
          if !ok {
            return;
          }
          Reported(effect, migrations, applied, db, env, i, done);
          done := done + [m.version];
        }
        i := i + 1;
      }
      ok := true;
    }

    method Down() returns (version: int, ok: bool)
      modifies this`calls, this`schema, this`control
      ensures DownResult(View(), version, ok) == DownOf(effect, migrations, downs, old(View()), old(Environment()))
    {
      version := 0;
      var applied;
      applied, ok := ReadApplied();
      if !ok {
        return;
      }
      var last := 0;
      for i := 0 to |migrations|
        invariant last == LastApplied(migrations, applied, i)
      {
        if migrations[i].version in applied {
          last := i + 1;
        }
      }
      if last == 0 {
        return 0, true;
      }
      var m := migrations[last - 1];
      if DownName(m) !in downs {
        return 0, false;
      }
      ok := RollBack(m, downs[DownName(m)]);
      version := if ok then m.version else 0;
    }

    method RollBack(m: Migration, script: seq<Stmt>) returns (ok: bool)
      modifies this`calls, this`schema, this`control
      ensures ok <==> old(calls) >= Calls(script)
      ensures View() == if ok || LostCommit(old(Environment()), script) then RolledBack(effect, old(View()), m, script) else old(View())
    {
      var tx;
      tx, ok := Transact(script);
      if ok {
        ok := Commit(Db(tx, control - {m.version}));
      }
    }

    method ReportStatus() returns (out: seq<Status>, ok: bool)
      modifies this`calls
      ensures ok <==> old(calls) >= 2
      ensures ok ==> |out| == |migrations| && forall i :: 0 <= i < |out| ==> out[i] == StatusOf(migrations[i], control)
    {
      out := [];
      var applied;
      applied, ok := ReadApplied();
      if !ok {
        return;
      }
      for i := 0 to |migrations|
        invariant |out| == i && forall j :: 0 <= j < i ==> out[j] == StatusOf(migrations[j], control)
      {
        out := out + [StatusOf(migrations[i], applied)];
      }
    }
  }
}
