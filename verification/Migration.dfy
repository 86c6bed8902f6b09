/** The migration runner on a dialect with transactional DDL: the schema_migrations table, the
    tables the scripts create and drop, and calls that may fail at any statement.
 */
module Migration {

  import opened Common

  datatype Table =
    | SchemaMigrations | Networks | Subnets | Tags
    | LocalUsers | OidcIdentityPools | Sessions | OidcLoginStates
    | MachinePools | MachineIdentityProviders | Machines | MachineApiKeys

  datatype Statement = CreateTable(table: Table) | DropTable(table: Table)

  datatype Script = Script(version: nat, name: string, statements: seq<Statement>)

  /** The tables of the schema, and the rows of schema_migrations (none while it is missing). */
  datatype Database = Database(tables: set<Table>, versions: set<nat>)

  const BLANK: Database := Database({}, {})

  /** What makes a call fail: something before the first script, or one step of one script.  The
      steps of a script are begin, its statements and the version row in the order of the code,
      and commit. */
  datatype Fault = Early | InScript(version: nat, step: nat)

  // ---- the effect of statements ------------------------------------------------------

  function Execute(db: Database, st: Statement): Database {
    match st
    case CreateTable(t) => db.(tables := db.tables + {t})
    case DropTable(t) =>
      Database(db.tables - {t}, if t == SchemaMigrations then {} else db.versions)
  }

  function ExecuteAll(db: Database, sts: seq<Statement>): Database {
    if sts == [] then db else Execute(ExecuteAll(db, sts[..|sts| - 1]), sts[|sts| - 1])
  }

  function TableNames(sts: seq<Statement>): set<Table> {
    set st | st in sts :: st.table
  }

  predicate AllCreate(sts: seq<Statement>) {
    forall i :: 0 <= i < |sts| ==> sts[i].CreateTable?
  }

  predicate AllDrop(sts: seq<Statement>) {
    forall i :: 0 <= i < |sts| ==> sts[i].DropTable?
  }

  lemma LastName(sts: seq<Statement>)
    requires sts != []
    ensures TableNames(sts) == TableNames(sts[..|sts| - 1]) + {sts[|sts| - 1].table}
  {
    var init, last := sts[..|sts| - 1], sts[|sts| - 1];
    assert sts == init + [last];
    forall st | st in sts
      ensures st in init || st == last
    {
    }
  }

  lemma {:induction false} CreatesAll(db: Database, sts: seq<Statement>)
    requires AllCreate(sts)
    ensures ExecuteAll(db, sts) == db.(tables := db.tables + TableNames(sts))
  {
    if sts != [] {
      LastName(sts);
      CreatesAll(db, sts[..|sts| - 1]);
    }
  }

  lemma {:induction false} DropsAll(db: Database, sts: seq<Statement>)
    requires AllDrop(sts)
    ensures ExecuteAll(db, sts)
         == Database(db.tables - TableNames(sts), if SchemaMigrations in TableNames(sts) then {} else db.versions)
  {
    if sts != [] {
      LastName(sts);
      DropsAll(db, sts[..|sts| - 1]);
    }
  }

  // ---- the scripts -------------------------------------------------------------------

  predicate InOrder(scripts: seq<Script>, i: nat, j: nat)
    requires i < |scripts| && j < |scripts|
  {
    scripts[i].version < scripts[j].version
  }

  predicate Ascending(scripts: seq<Script>) {
    forall i, j :: 0 <= i < j < |scripts| ==> InOrder(scripts, i, j)
  }

  predicate Descending(scripts: seq<Script>) {
    forall i, j :: 0 <= i < j < |scripts| ==> scripts[i].version >= scripts[j].version
  }

  /** The i-th scripts of both directions have the same positive version, and the down script drops
      the tables the up script creates; script 0, and it alone, owns schema_migrations. */
  predicate Matching(ups: seq<Script>, downs: seq<Script>, i: nat)
    requires i < |ups| == |downs|
  {
    0 < ups[i].version == downs[i].version
    && AllCreate(ups[i].statements) && AllDrop(downs[i].statements)
    && TableNames(ups[i].statements) == TableNames(downs[i].statements)
    && (SchemaMigrations in TableNames(ups[i].statements) <==> i == 0)
  }

  predicate Apart(ups: seq<Script>, i: nat, j: nat)
    requires i < |ups| && j < |ups|
  {
    TableNames(ups[i].statements) !! TableNames(ups[j].statements)
  }

  /** Both directions list matching scripts in order, and no table belongs to two scripts. */
  predicate Paired(ups: seq<Script>, downs: seq<Script>) {
    |ups| == |downs| && Ascending(ups) && Ascending(downs)
    && (forall i :: 0 <= i < |ups| ==> Matching(ups, downs, i))
    && (forall i, j :: 0 <= i < j < |ups| ==> Apart(ups, i, j))
  }

  /** The database with exactly the first k scripts applied. */
  function StateAt(ups: seq<Script>, k: nat): Database
    requires k <= |ups|
  {
    if k == 0 then BLANK
    else
      var before := StateAt(ups, k - 1);
      Database(before.tables + TableNames(ups[k - 1].statements), before.versions + {ups[k - 1].version})
  }

  lemma {:induction false} StateAtMeans(ups: seq<Script>, k: nat)
    requires k <= |ups|
    ensures forall v :: v in StateAt(ups, k).versions <==> exists i :: 0 <= i < k && ups[i].version == v
    ensures forall t :: t in StateAt(ups, k).tables <==>
              exists i :: 0 <= i < k && t in TableNames(ups[i].statements)
  {
    if k > 0 {
      StateAtMeans(ups, k - 1);
    }
  }

  /** How many scripts have a version of at most v. */
  function LevelOf(ups: seq<Script>, v: int): (k: nat)
    ensures k <= |ups|
  {
    if ups == [] then 0
    else if ups[|ups| - 1].version <= v then |ups|
    else LevelOf(ups[..|ups| - 1], v)
  }

  lemma {:induction false} LevelSplits(ups: seq<Script>, v: int, i: nat)
    requires Ascending(ups) && i < |ups|
    ensures ups[i].version <= v <==> i < LevelOf(ups, v)
  {
    if i < |ups| - 1 {
      var init := ups[..|ups| - 1];
      forall a, b | 0 <= a < b < |init|
        ensures InOrder(init, a, b)
      {
        assert InOrder(ups, a, b);
      }
      LevelSplits(init, v, i);
      assert InOrder(ups, i, |ups| - 1);
    }
  }

  /** The versions are those of the scripts up to v. */
  ghost predicate UpTo(ups: seq<Script>, versions: set<nat>, v: int) {
    forall w :: w in versions <==> w <= v && exists i :: 0 <= i < |ups| && ups[i].version == w
  }

  /** The first k scripts are exactly the versions up to some version. */
  lemma AppliedUpTo(ups: seq<Script>, v: int)
    requires Ascending(ups)
    ensures UpTo(ups, StateAt(ups, LevelOf(ups, v)).versions, v)
  {
    StateAtMeans(ups, LevelOf(ups, v));
    forall i | 0 <= i < |ups|
      ensures ups[i].version <= v <==> i < LevelOf(ups, v)
    {
      LevelSplits(ups, v, i);
    }
  }

  predicate Fails(s: Script, fault: Option<Fault>) {
    fault.Some? && fault.value.InScript? && fault.value.version == s.version
    && fault.value.step < |s.statements| + 3
  }

  /** A script fails exactly for a fault at its begin, at one of its statements, at the version row or at
      its commit. */
  lemma FailsAtAnyStep(s: Script, fault: Option<Fault>)
    ensures Fails(s, fault) <==> exists k: nat :: k <= |s.statements| + 2 && fault == Some(InScript(s.version, k))
  {
    if Fails(s, fault) {
      assert fault == Some(InScript(s.version, fault.value.step));
    }
  }

  /** The level Upgrade reaches from level k. */
  function UpgradeTo(ups: seq<Script>, k: nat, fault: Option<Fault>): (r: nat)
    requires k <= |ups|
    ensures k <= r <= |ups|
    decreases |ups| - k
  {
    if k == |ups| || Fails(ups[k], fault) then k else UpgradeTo(ups, k + 1, fault)
  }

  /** The number of scripts Downgrade has yet to revert when it stops, working from script n - 1
      down to script low. */
  function StopsAt(downs: seq<Script>, n: nat, low: nat, fault: Option<Fault>): (r: nat)
    requires low <= n <= |downs|
    ensures low <= r <= n
  {
    if n == low || Fails(downs[n - 1], fault) then n else StopsAt(downs, n - 1, low, fault)
  }

  /** Each direction stops at the first failing script it meets, and only there. */
  lemma {:induction false} UpgradeStops(ups: seq<Script>, k: nat, fault: Option<Fault>)
    requires k <= |ups|
    ensures var r := UpgradeTo(ups, k, fault);
            (r < |ups| ==> Fails(ups[r], fault)) && forall i :: k <= i < r ==> !Fails(ups[i], fault)
    decreases |ups| - k
  {
    if k < |ups| && !Fails(ups[k], fault) {
      UpgradeStops(ups, k + 1, fault);
    }
  }

  lemma {:induction false} DowngradeStops(downs: seq<Script>, n: nat, low: nat, fault: Option<Fault>)
    requires low <= n <= |downs|
    ensures var r := StopsAt(downs, n, low, fault);
            (r > low ==> Fails(downs[r - 1], fault)) && forall i :: r <= i < n ==> !Fails(downs[i], fault)
  {
    if n > low && !Fails(downs[n - 1], fault) {
      DowngradeStops(downs, n - 1, low, fault);
    }
  }

  /** How many scripts are left after j rounds of the downgrade loop. */
  function Left(downs: seq<Script>, target: int, j: nat): (r: nat)
    requires j <= |downs|
    ensures LevelOf(downs, target) <= r <= |downs|
  {
    if |downs| - j < LevelOf(downs, target) then LevelOf(downs, target) else |downs| - j
  }

  function Min(a: nat, b: nat): nat {
    if a < b then a else b
  }

  // ---- sorting -----------------------------------------------------------------------

  /** The first i elements are in their final places. */
  predicate Settled(s: seq<Script>, i: nat) {
    forall a, b :: 0 <= a < b < |s| && a < i ==> s[a].version >= s[b].version
  }

  predicate Tops(s: seq<Script>, i: nat, j: nat)
    requires i < j <= |s|
  {
    forall b :: i < b < j ==> s[i].version >= s[b].version
  }

  /** Exchanging element i with a higher one further right. */
  lemma ExchangeKeeps(s: seq<Script>, t: seq<Script>, i: nat, j: nat)
    requires i < j < |s| && Settled(s, i) && Tops(s, i, j)
    requires if s[j].version > s[i].version then t == s[i := s[j]][j := s[i]] else t == s
    ensures multiset(t) == multiset(s) && Settled(t, i) && Tops(t, i, j + 1)
  {
  }

  /** Sorts in place by version, highest first. */
  method SortDesc(scripts: array<Script>)
    modifies scripts
    ensures Descending(scripts[..]) && multiset(scripts[..]) == multiset(old(scripts[..]))
  {
    for i := 0 to scripts.Length
      invariant multiset(scripts[..]) == multiset(old(scripts[..])) && Settled(scripts[..], i)
    {
      for j := i + 1 to scripts.Length
        invariant multiset(scripts[..]) == multiset(old(scripts[..]))
        invariant Settled(scripts[..], i) && Tops(scripts[..], i, j)
      {
        ghost var before := scripts[..];
        if scripts[j].version > scripts[i].version {
          scripts[i], scripts[j] := scripts[j], scripts[i];
        }
        ExchangeKeeps(before, scripts[..], i, j);
      }
    }
  }

  function Reversed(s: seq<Script>): (r: seq<Script>)
    ensures |r| == |s|
  {
    if s == [] then [] else [s[|s| - 1]] + Reversed(s[..|s| - 1])
  }

  lemma {:induction false} ReversedAt(s: seq<Script>, i: nat)
    requires i < |s|
    ensures Reversed(s)[i] == s[|s| - 1 - i]
  {
    if i > 0 {
      ReversedAt(s[..|s| - 1], i - 1);
    }
  }

  lemma {:induction false} ReversedMultiset(s: seq<Script>)
    ensures multiset(Reversed(s)) == multiset(s)
  {
    if s != [] {
      assert s == s[..|s| - 1] + [s[|s| - 1]];
      ReversedMultiset(s[..|s| - 1]);
    }
  }

  lemma SameHead(s: seq<Script>, t: seq<Script>)
    requires (forall i, j :: 0 <= i < j < |s| ==> s[i].version > s[j].version) && Descending(t)
    requires multiset(s) == multiset(t) && s != [] && t != []
    ensures s[0] == t[0]
  {
    assert s[0] in multiset(t) && t[0] in multiset(s);
    var i :| 0 <= i < |t| && t[i] == s[0];
    var j :| 0 <= j < |s| && s[j] == t[0];
    assert s[0].version >= s[j].version;
    assert t[0].version >= t[i].version;
  }

  lemma SameTail(s: seq<Script>, t: seq<Script>)
    requires multiset(s) == multiset(t) && s != [] && t != [] && s[0] == t[0]
    ensures multiset(s[1..]) == multiset(t[1..])
  {
    assert s == [s[0]] + s[1..] && t == [t[0]] + t[1..];
    assert multiset(s[1..]) == multiset(s) - multiset{s[0]};
    assert multiset(t[1..]) == multiset(t) - multiset{s[0]};
  }

  /** A list without equal versions has one descending arrangement. */
  lemma {:induction false} DescendingIsUnique(s: seq<Script>, t: seq<Script>)
    requires (forall i, j :: 0 <= i < j < |s| ==> s[i].version > s[j].version) && Descending(t)
    requires multiset(s) == multiset(t)
    ensures s == t
  {
    assert |s| == |multiset(s)| == |multiset(t)| == |t|;
    if s != [] {
      SameHead(s, t);
      SameTail(s, t);
      DescendingIsUnique(s[1..], t[1..]);
      assert s == [s[0]] + s[1..] && t == [t[0]] + t[1..];
    }
  }

  /** The j-th script from the top, and whether it is above the target. */
  lemma FromTheTop(s: seq<Script>, target: int, j: nat)
    requires Ascending(s) && j < |s|
    ensures Reversed(s)[j] == s[|s| - 1 - j]
    ensures Reversed(s)[j].version <= target <==> |s| - 1 - j < LevelOf(s, target)
  {
    ReversedAt(s, j);
    LevelSplits(s, target, |s| - 1 - j);
  }

  /** Sorting an ascending list in place, descending, reverses it. */
  lemma SortedIsReversed(s: seq<Script>, t: seq<Script>)
    requires Ascending(s) && Descending(t) && multiset(s) == multiset(t)
    ensures t == Reversed(s)
  {
    ReversedMultiset(s);
    forall i | 0 <= i < |s|
      ensures Reversed(s)[i] == s[|s| - 1 - i]
    {
      ReversedAt(s, i);
    }
    forall i, j | 0 <= i < j < |s|
      ensures Reversed(s)[i].version > Reversed(s)[j].version
    {
      assert InOrder(s, |s| - 1 - j, |s| - 1 - i);
    }
    DescendingIsUnique(Reversed(s), t);
  }

  // ---- one script in a transaction ---------------------------------------------------

  lemma {:induction false} LaterTablesAreApart(ups: seq<Script>, downs: seq<Script>, k: nat, i: nat)
    requires Paired(ups, downs) && k <= i < |ups|
    ensures StateAt(ups, k).tables !! TableNames(ups[i].statements)
    ensures ups[i].version !in StateAt(ups, k).versions
    ensures SchemaMigrations in StateAt(ups, k).tables <==> k > 0
  {
    if k > 0 {
      LaterTablesAreApart(ups, downs, k - 1, i);
      assert InOrder(ups, k - 1, i) && Apart(ups, k - 1, i) && Matching(ups, downs, k - 1);
    }
  }

  lemma VersionTableIsThere(ups: seq<Script>, downs: seq<Script>, k: nat)
    requires Paired(ups, downs) && k <= |ups|
    ensures SchemaMigrations in StateAt(ups, k).tables <==> k > 0
  {
    StateAtMeans(ups, k);
    if k > 0 {
      assert Matching(ups, downs, 0);
    }
  }

  lemma LevelUp(ups: seq<Script>, downs: seq<Script>, k: nat)
    requires Paired(ups, downs) && k < |ups|
    ensures var mid := ExecuteAll(StateAt(ups, k), ups[k].statements);
            SchemaMigrations in mid.tables && ups[k].version !in mid.versions
            && mid.(versions := mid.versions + {ups[k].version}) == StateAt(ups, k + 1)
  {
    assert Matching(ups, downs, k);
    CreatesAll(StateAt(ups, k), ups[k].statements);
    LaterTablesAreApart(ups, downs, k, k);
  }

  /** Reverting script i turns level i + 1 into level i and leaves lower levels alone. */
  lemma LevelDown(ups: seq<Script>, downs: seq<Script>, i: nat, k: nat)
    requires Paired(ups, downs) && i < |ups| && k <= i + 1
    ensures var db := StateAt(ups, k);
            ExecuteAll(db.(versions := db.versions - {downs[i].version}), downs[i].statements)
            == StateAt(ups, Min(k, i))
  {
    var db := StateAt(ups, k);
    assert Matching(ups, downs, i);
    DropsAll(db.(versions := db.versions - {downs[i].version}), downs[i].statements);
    LaterTablesAreApart(ups, downs, Min(k, i), i);
    var low := StateAt(ups, Min(k, i));
    assert low.tables - TableNames(ups[i].statements) == low.tables;
    assert low.versions - {ups[i].version} == low.versions;
    if i == 0 {
      assert low == BLANK;
    }
  }

  function VersionAt(ups: seq<Script>, k: nat): nat
    requires k <= |ups|
  {
    if k == 0 then 0 else ups[k - 1].version
  }

  /** At level k the highest applied version tells applied scripts from the others. */
  lemma CurrentSeparates(ups: seq<Script>, downs: seq<Script>, k: nat)
    requires Paired(ups, downs) && k <= |ups|
    ensures forall i :: 0 <= i < |ups| ==> (ups[i].version <= VersionAt(ups, k) <==> i < k)
    ensures forall v :: v in StateAt(ups, k).versions ==> v <= VersionAt(ups, k)
    ensures k > 0 <==> VersionAt(ups, k) in StateAt(ups, k).versions
    ensures k > 0 <==> StateAt(ups, k).versions != {}
  {
    StateAtMeans(ups, k);
    forall i | 0 <= i < |ups|
      ensures ups[i].version <= VersionAt(ups, k) <==> i < k
    {
      assert Matching(ups, downs, i);
      assert k > 0 && i < k - 1 ==> InOrder(ups, i, k - 1);
      assert k > 0 && k - 1 < i ==> InOrder(ups, k - 1, i);
    }
    if k > 0 {
      assert ups[k - 1].version in StateAt(ups, k).versions;
    }
  }

  lemma {:induction false} HighestExists(versions: set<nat>) returns (m: nat)
    requires versions != {}
    ensures m in versions
    ensures forall w :: w in versions ==> w <= m
    decreases |versions|
  {
    m :| m in versions;
    var rest := versions - {m};
    if rest == {} {
      assert versions == {m};
    } else {
      var n := HighestExists(rest);
      assert forall w :: w in versions ==> w == m || w in rest;
      m := if n > m then n else m;
    }
  }

  class Runner {
    var db: Database
    const ups: seq<Script>
    const downs: seq<Script>
    /** A failed statement aborts its transaction, as in Postgres. */
    const aborts: bool

    constructor (ups: seq<Script>, downs: seq<Script>, aborts: bool)
      requires Paired(ups, downs)
      ensures this.ups == ups && this.downs == downs && this.aborts == aborts && db == BLANK && IsAt(0)
    {
      this.ups, this.downs, this.aborts, db := ups, downs, aborts, BLANK;
    }

    /** Deleting a version row fails where schema_migrations is missing.  The code lets that pass, but a
        dialect that aborts the transaction then refuses what follows. */
    ghost predicate Blocked(k: nat) {
      aborts && k == 0
    }

    /** Exactly the first k scripts are applied, tables included. */
    ghost predicate IsAt(k: nat)
      reads this
    {
      Paired(ups, downs) && k <= |ups| && db == StateAt(ups, k)
    }

    method CurrentVersion() returns (v: nat)
      ensures forall k :: IsAt(k) ==> v == VersionAt(ups, k)
    {
      v := 0;
      if db.versions != {} {
        ghost var top := HighestExists(db.versions);
        v :| v in db.versions && forall w :: w in db.versions ==> w <= v;
      }
      forall k | IsAt(k)
        ensures v == VersionAt(ups, k)
      {
        CurrentSeparates(ups, downs, k);
      }
    }

    /** apply: all of the script and its version row, or nothing. */
    method Apply(s: Script, fault: Option<Fault>) returns (ok: bool)
      modifies this`db
      ensures var mid := ExecuteAll(old(db), s.statements);
              ok == (!Fails(s, fault) && SchemaMigrations in mid.tables && s.version !in mid.versions)
              && db == if ok then mid.(versions := mid.versions + {s.version}) else old(db)
    {
      var failing := Fails(s, fault);
      if failing && fault.value.step == 0 {
        return false;
      }
      var tx := db;
      for i := 0 to |s.statements|
        invariant tx == ExecuteAll(old(db), s.statements[..i])
        invariant failing ==> i < fault.value.step
      {
        if failing && fault.value.step == i + 1 {
          return false;
        }
        assert s.statements[..i + 1] == s.statements[..i] + [s.statements[i]];
        tx := Execute(tx, s.statements[i]);
      }
      assert s.statements[..|s.statements|] == s.statements;
      if SchemaMigrations !in tx.tables || s.version in tx.versions || failing {
        return false;
      }
      db := tx.(versions := tx.versions + {s.version});
      return true;
    }

    /** revert: the version row first, then the statements; all of it or nothing. */
    method Revert(s: Script, fault: Option<Fault>) returns (ok: bool)
      modifies this`db
      ensures ok == (!Fails(s, fault) && !(aborts && SchemaMigrations !in old(db).tables))
      ensures db == if ok then ExecuteAll(old(db).(versions := old(db).versions - {s.version}), s.statements)
                    else old(db)
    {
      var failing := Fails(s, fault);
      if failing && fault.value.step <= 1 {
        return false;
      }
      if SchemaMigrations !in db.tables && aborts {
        return false;
      }
      var tx := db.(versions := db.versions - {s.version});
      for i := 0 to |s.statements|
        invariant tx == ExecuteAll(old(db).(versions := old(db).versions - {s.version}), s.statements[..i])
        invariant failing ==> i + 1 < fault.value.step
      {
        if failing && fault.value.step == i + 2 {
          return false;
        }
        assert s.statements[..i + 1] == s.statements[..i] + [s.statements[i]];
        tx := Execute(tx, s.statements[i]);
      }
      assert s.statements[..|s.statements|] == s.statements;
      if failing {
        return false;
      }
      db := tx;
      return true;
    }

    /** One round of the upgrade loop: exactly the scripts before script i are applied. */
    method ApplyNext(s: Script, fault: Option<Fault>, ghost i: nat) returns (ok: bool)
      requires i < |ups| && s == ups[i] && IsAt(i)
      modifies this`db
      ensures ok == !Fails(s, fault)
      ensures IsAt(if ok then i + 1 else i)
    {
      LevelUp(ups, downs, i);
      ok := Apply(s, fault);
    }

    method Upgrade(fault: Option<Fault>, ghost k: nat) returns (ok: bool)
      requires IsAt(k)
      modifies this`db
      ensures fault == Some(Early) ==> !ok && IsAt(k)
      ensures fault != Some(Early) ==> IsAt(UpgradeTo(ups, k, fault))
      ensures fault != Some(Early) ==> (ok <==> UpgradeTo(ups, k, fault) == |ups|)
    {
      if fault == Some(Early) {
        return false;
      }
      var current := CurrentVersion();
      CurrentSeparates(ups, downs, k);
      ghost var level := k;
      for i := 0 to |ups|
        invariant level == (if i < k then k else i) && IsAt(level)
        invariant UpgradeTo(ups, level, fault) == UpgradeTo(ups, k, fault)
      {
        if ups[i].version <= current {
          continue;
        }
        ok := ApplyNext(ups[i], fault, i);
        if !ok {
          return false;
        }
        level := i + 1;
      }
      return true;
    }

    /** The down scripts, sorted in place from the highest version to the lowest. */
    method LoadDescending() returns (scripts: array<Script>)
      requires Ascending(downs)
      ensures fresh(scripts) && scripts[..] == Reversed(downs)
    {
      scripts := new Script[|downs|](i requires 0 <= i < |downs| => downs[i]);
      assert scripts[..] == downs;
      SortDesc(scripts);
      SortedIsReversed(downs, scripts[..]);
    }

    method Downgrade(target: int, fault: Option<Fault>, ghost k: nat) returns (ok: bool)
      requires IsAt(k)
      modifies this`db
      ensures fault == Some(Early) || target >= VersionAt(ups, k) ==> !ok && IsAt(k)
      ensures fault != Some(Early) && target < VersionAt(ups, k) ==>
                var low := LevelOf(downs, target);
                (ok <==> StopsAt(downs, |downs|, low, fault) == low && !(Blocked(k) && low < |downs|))
                && IsAt(Min(k, StopsAt(downs, |downs|, low, fault)))
    {
      if fault == Some(Early) {
        return false;
      }
      var current := CurrentVersion();
      if target >= current {
        return false;
      }
      var scripts := LoadDescending();
      ok := RevertAbove(scripts, target, fault, k);
    }

    /** The downgrade loop over the sorted scripts. */
    method RevertAbove(scripts: array<Script>, target: int, fault: Option<Fault>, ghost k: nat) returns (ok: bool)
      requires IsAt(k) && scripts[..] == Reversed(downs)
      modifies this`db
      ensures var stop := StopsAt(downs, |downs|, LevelOf(downs, target), fault);
              IsAt(Min(k, stop))
              && (ok <==> stop == LevelOf(downs, target) && !(Blocked(k) && LevelOf(downs, target) < |downs|))
    {
      assert Left(downs, target, 0) == |downs|;
      for j := 0 to scripts.Length
        invariant Blocked(k) && j > 0 ==> LevelOf(downs, target) == |downs|
        invariant OnTheWay(k, target, fault, j)
      {
        assert scripts[j] == scripts[..][j];
        ok := Round(scripts[j], target, fault, k, j);
        if !ok {
          return false;
        }
      }
      return true;
    }

    /** After j rounds that did not fail. */
    ghost predicate OnTheWay(k: nat, target: int, fault: Option<Fault>, j: nat)
      reads this
    {
      j <= |downs| && IsAt(Min(k, Left(downs, target, j)))
      && StopsAt(downs, Left(downs, target, j), LevelOf(downs, target), fault)
         == StopsAt(downs, |downs|, LevelOf(downs, target), fault)
    }

    /** The body of the loop: skip a script up to the target, revert one above it. */
    method Round(s: Script, target: int, fault: Option<Fault>, ghost k: nat, ghost j: nat) returns (ok: bool)
      requires j < |downs| && s == Reversed(downs)[j] && k <= |ups| && OnTheWay(k, target, fault, j)
      modifies this`db
      ensures ok ==> OnTheWay(k, target, fault, j + 1) && (Blocked(k) ==> |downs| - 1 - j < LevelOf(downs, target))
      ensures !ok ==> var stop := StopsAt(downs, |downs|, LevelOf(downs, target), fault);
                      IsAt(Min(k, stop)) && LevelOf(downs, target) < |downs|
                      && (stop > LevelOf(downs, target) || Blocked(k))
    {
      FromTheTop(downs, target, j);
      if s.version <= target {
        return true;
      }
      ok := RevertNext(s, fault, k, |downs| - 1 - j);
    }

    /** One round of the downgrade loop: all scripts above script i are reverted. */
    method RevertNext(s: Script, fault: Option<Fault>, ghost k: nat, ghost i: nat) returns (ok: bool)
      requires i < |ups| == |downs| && s == downs[i] && k <= |ups| && IsAt(Min(k, i + 1))
      modifies this`db
      ensures ok == (!Fails(s, fault) && !Blocked(k))
      ensures IsAt(Min(k, if ok then i else i + 1))
    {
      VersionTableIsThere(ups, downs, Min(k, i + 1));
      LevelDown(ups, downs, i, Min(k, i + 1));
      ok := Revert(s, fault);
    }
  }

  // ---- runs --------------------------------------------------------------------------

  datatype Op = UpgradeOp(fault: Option<Fault>) | DowngradeOp(target: int, fault: Option<Fault>)

  /** The level after a call, as the contracts of Upgrade and Downgrade give it. */
  function After(ups: seq<Script>, downs: seq<Script>, k: nat, op: Op): (r: nat)
    requires Paired(ups, downs) && k <= |ups|
    ensures r <= |ups|
  {
    if op.fault == Some(Early) then k
    else match op
      case UpgradeOp(fault) => UpgradeTo(ups, k, fault)
      case DowngradeOp(target, fault) =>
        if target >= VersionAt(ups, k) then k
        else Min(k, StopsAt(downs, |downs|, LevelOf(downs, target), fault))
  }

  /** Any run of calls, each failing anywhere, on a runner: always exactly the scripts up to some
      version are applied, and the tables are theirs. */
  method RunAll(runner: Runner, ops: seq<Op>, ghost k: nat) returns (ghost level: nat)
    requires runner.IsAt(k)
    modifies runner`db
    ensures runner.IsAt(level) && level == LevelAfter(runner.ups, runner.downs, k, ops)
    ensures exists v :: UpTo(runner.ups, runner.db.versions, v)
  {
    level := k;
    for i := 0 to |ops|
      invariant runner.IsAt(level) && level == LevelAfter(runner.ups, runner.downs, k, ops[..i])
    {
      assert ops[..i + 1][..i] == ops[..i];
      var ok;
      match ops[i] {
        case UpgradeOp(fault) => ok := runner.Upgrade(fault, level);
        case DowngradeOp(target, fault) => ok := runner.Downgrade(target, fault, level);
      }
      level := After(runner.ups, runner.downs, level, ops[i]);
    }
    assert ops[..|ops|] == ops;
    LevelIsUpTo(runner.ups, runner.downs, level);
  }

  lemma LevelIsUpTo(ups: seq<Script>, downs: seq<Script>, k: nat)
    requires Paired(ups, downs) && k <= |ups|
    ensures UpTo(ups, StateAt(ups, k).versions, VersionAt(ups, k))
  {
    var v := VersionAt(ups, k);
    CurrentSeparates(ups, downs, k);
    if k < |ups| {
      LevelSplits(ups, v, k);
    }
    if k > 0 {
      LevelSplits(ups, v, k - 1);
    }
    assert LevelOf(ups, v) == k;
    AppliedUpTo(ups, v);
  }

  function LevelAfter(ups: seq<Script>, downs: seq<Script>, k: nat, ops: seq<Op>): (r: nat)
    requires Paired(ups, downs) && k <= |ups|
    ensures r <= |ups|
    decreases |ops|
  {
    if ops == [] then k
    else After(ups, downs, LevelAfter(ups, downs, k, ops[..|ops| - 1]), ops[|ops| - 1])
  }

  /** A successful upgrade applies everything; another changes nothing, whatever would fail; and an
      upgrade that failed is completed by one that does not. */
  lemma UpgradeIsIdempotent(ups: seq<Script>, downs: seq<Script>, k: nat, fault: Option<Fault>, later: Option<Fault>)
    requires Paired(ups, downs) && k <= |ups|
    ensures UpgradeTo(ups, k, None) == |ups|
    ensures UpgradeTo(ups, UpgradeTo(ups, k, fault), None) == UpgradeTo(ups, k, None)
    ensures After(ups, downs, |ups|, UpgradeOp(later)) == |ups|
    ensures UpgradeTo(ups, k, fault) == |ups| <==> forall i :: k <= i < |ups| ==> !Fails(ups[i], fault)
  {
    UpgradeStops(ups, k, fault);
    UpgradeStops(ups, k, None);
    UpgradeStops(ups, UpgradeTo(ups, k, fault), None);
  }

  /** An accepted downgrade from level k succeeds exactly when no script above the target fails. */
  lemma DowngradeSucceedsIff(downs: seq<Script>, target: int, fault: Option<Fault>)
    requires Ascending(downs)
    ensures var low := LevelOf(downs, target);
            StopsAt(downs, |downs|, low, fault) == low
            <==> forall i :: 0 <= i < |downs| && downs[i].version > target ==> !Fails(downs[i], fault)
  {
    var low := LevelOf(downs, target);
    DowngradeStops(downs, |downs|, low, fault);
    forall i | 0 <= i < |downs|
      ensures downs[i].version <= target <==> i < low
    {
      LevelSplits(downs, target, i);
    }
  }

  /** It then leaves exactly the versions up to the target; a failing one still leaves every applied
      version up to the target, and nothing that was not applied. */
  lemma DowngradeLeavesTarget(ups: seq<Script>, downs: seq<Script>, k: nat, target: int, fault: Option<Fault>)
    requires Paired(ups, downs) && 0 < k <= |ups| && target < ups[k - 1].version && fault != Some(Early)
    ensures var low := LevelOf(downs, target);
            var level := After(ups, downs, k, DowngradeOp(target, fault));
            low <= level <= k && low < k && UpTo(ups, StateAt(ups, low).versions, target)
            && (StopsAt(downs, |downs|, low, fault) == low ==> level == low)
  {
    LevelBelow(ups, downs, k, target);
    assert UpTo(ups, StateAt(ups, LevelOf(downs, target)).versions, target) by {
      SameLevels(ups, downs, target);
      AppliedUpTo(ups, target);
    }
    AfterDowngrade(ups, downs, k, target, fault);
  }

  lemma AfterDowngrade(ups: seq<Script>, downs: seq<Script>, k: nat, target: int, fault: Option<Fault>)
    requires Paired(ups, downs) && 0 < k <= |ups| && target < ups[k - 1].version && fault != Some(Early)
    ensures After(ups, downs, k, DowngradeOp(target, fault))
         == Min(k, StopsAt(downs, |downs|, LevelOf(downs, target), fault))
  {
  }

  lemma LevelBelow(ups: seq<Script>, downs: seq<Script>, k: nat, target: int)
    requires Paired(ups, downs) && 0 < k <= |ups| && target < ups[k - 1].version
    ensures LevelOf(downs, target) < k
  {
    assert Matching(ups, downs, k - 1);
    LevelSplits(downs, target, k - 1);
  }

  lemma SameLevels(ups: seq<Script>, downs: seq<Script>, v: int)
    requires Paired(ups, downs)
    ensures LevelOf(ups, v) == LevelOf(downs, v)
  {
    var a, b := LevelOf(ups, v), LevelOf(downs, v);
    if a < |ups| {
      assert Matching(ups, downs, a);
      LevelSplits(ups, v, a);
      LevelSplits(downs, v, a);
    }
    if b < |downs| {
      assert Matching(ups, downs, b);
      LevelSplits(ups, v, b);
      LevelSplits(downs, v, b);
    }
  }

  /** Upgrading a blank database and downgrading to version 0 gives back the blank database. */
  lemma UpDownRoundTrip(ups: seq<Script>, downs: seq<Script>)
    requires Paired(ups, downs)
    ensures StateAt(ups, LevelAfter(ups, downs, 0, [UpgradeOp(None), DowngradeOp(0, None)])) == BLANK
  {
    var ops := [UpgradeOp(None), DowngradeOp(0, None)];
    assert ops[..1] == [ops[0]] && ops[..1][..0] == [];
    UpgradeStops(ups, 0, None);
    assert LevelAfter(ups, downs, 0, ops[..1]) == UpgradeTo(ups, 0, None) == |ups|;
    if ups != [] {
      assert LevelOf(downs, 0) == 0 by {
        assert Matching(ups, downs, 0);
        LevelSplits(downs, 0, 0);
      }
      assert Matching(ups, downs, |ups| - 1);
      DowngradeStops(downs, |downs|, 0, None);
    }
  }

  // ---- the scripts of the repository -------------------------------------------------

  function Creates(tables: seq<Table>): seq<Statement> {
    seq(|tables|, i requires 0 <= i < |tables| => CreateTable(tables[i]))
  }

  function Drops(tables: seq<Table>): seq<Statement> {
    seq(|tables|, i requires 0 <= i < |tables| => DropTable(tables[i]))
  }

  const SHIPPED_UP: seq<Script> := [
    Script(1, "initial_schema", Creates([SchemaMigrations, Networks, Subnets, Tags])),
    Script(2, "auth", Creates([LocalUsers, OidcIdentityPools, Sessions, OidcLoginStates])),
    Script(3, "machine_identities", Creates([MachinePools, MachineIdentityProviders, Machines, MachineApiKeys]))
  ]

  const SHIPPED_DOWN: seq<Script> := [
    Script(1, "initial_schema", Drops([Tags, Subnets, Networks, SchemaMigrations])),
    Script(2, "auth", Drops([OidcLoginStates, Sessions, OidcIdentityPools, LocalUsers])),
    Script(3, "machine_identities", Drops([MachineApiKeys, Machines, MachineIdentityProviders, MachinePools]))
  ]

  lemma NamesOfFour(a: Table, b: Table, c: Table, d: Table)
    ensures TableNames(Creates([a, b, c, d])) == {a, b, c, d}
    ensures TableNames(Drops([a, b, c, d])) == {a, b, c, d}
  {
    var up, down := Creates([a, b, c, d]), Drops([a, b, c, d]);
    assert up[0] in up && up[1] in up && up[2] in up && up[3] in up;
    assert down[0] in down && down[1] in down && down[2] in down && down[3] in down;
  }

  function TablesOf(i: nat): set<Table>
    requires i < 3
  {
    if i == 0 then {SchemaMigrations, Networks, Subnets, Tags}
    else if i == 1 then {LocalUsers, OidcIdentityPools, Sessions, OidcLoginStates}
    else {MachinePools, MachineIdentityProviders, Machines, MachineApiKeys}
  }

  lemma ShippedFirst()
    ensures Matching(SHIPPED_UP, SHIPPED_DOWN, 0) && TableNames(SHIPPED_UP[0].statements) == TablesOf(0)
  {
    NamesOfFour(SchemaMigrations, Networks, Subnets, Tags);
    NamesOfFour(Tags, Subnets, Networks, SchemaMigrations);
  }

  lemma ShippedSecond()
    ensures Matching(SHIPPED_UP, SHIPPED_DOWN, 1) && TableNames(SHIPPED_UP[1].statements) == TablesOf(1)
  {
    NamesOfFour(LocalUsers, OidcIdentityPools, Sessions, OidcLoginStates);
    NamesOfFour(OidcLoginStates, Sessions, OidcIdentityPools, LocalUsers);
  }

  lemma ShippedThird()
    ensures Matching(SHIPPED_UP, SHIPPED_DOWN, 2) && TableNames(SHIPPED_UP[2].statements) == TablesOf(2)
  {
    NamesOfFour(MachinePools, MachineIdentityProviders, Machines, MachineApiKeys);
    NamesOfFour(MachineApiKeys, Machines, MachineIdentityProviders, MachinePools);
  }

  lemma ShippedOrder()
    ensures |SHIPPED_UP| == |SHIPPED_DOWN| == 3 && Ascending(SHIPPED_UP) && Ascending(SHIPPED_DOWN)
  {
  }

  lemma ThreePairs(ups: seq<Script>, downs: seq<Script>)
    requires |ups| == |downs| == 3 && Ascending(ups) && Ascending(downs)
    requires Matching(ups, downs, 0) && Matching(ups, downs, 1) && Matching(ups, downs, 2)
    requires TableNames(ups[0].statements) == TablesOf(0)
    requires TableNames(ups[1].statements) == TablesOf(1)
    requires TableNames(ups[2].statements) == TablesOf(2)
    ensures Paired(ups, downs)
  {
    assert Apart(ups, 0, 1) && Apart(ups, 0, 2) && Apart(ups, 1, 2);
  }

  /** The scripts that ship with the repository are paired. */
  lemma ShippedScriptsArePaired()
    ensures Paired(SHIPPED_UP, SHIPPED_DOWN)
  {
    ShippedOrder();
    ShippedFirst();
    ShippedSecond();
    ShippedThird();
    ThreePairs(SHIPPED_UP, SHIPPED_DOWN);
  }
}
