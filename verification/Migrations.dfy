/** The in-process migration runner (migrations/migrate.go): apply the missing
    migrations in version order, each with its bookkeeping row in one transaction, and
    survive failures at any point. */
module Migrations {
  import opened Base
  import opened Lexical

  /** A discovered migration. `createsUsers` marks SQL that creates the users table. */
  datatype Migration = Migration(version: Bytes, sql: Bytes, createsUsers: bool)

  /** A directory entry; `parsed` is the migration its name stands for, if the name has
      the right shape. */
  datatype File = File(isDir: bool, isUpSql: bool, parsed: Option<Migration>)

  /** The migrations whose SQL has been committed, in order; the versions recorded in
      schema_migrations; and whether the schema was created before the runner existed. */
  datatype Database = Database(executed: seq<Migration>, recorded: set<Bytes>, bootstrapped: bool)

  predicate HasUsers(db: Database) {
    db.bootstrapped || exists i :: 0 <= i < |db.executed| && db.executed[i].createsUsers
  }

  // ----- Discovery -----

  predicate InVersionOrder(migs: seq<Migration>) {
    forall i, j :: 0 <= i < j < |migs| ==> !Before(migs[j].version, migs[i].version)
  }

  ghost predicate DistinctVersions(migs: seq<Migration>) {
    forall i, j :: 0 <= i < j < |migs| ==> migs[i].version != migs[j].version
  }

  /** The entries that are migrations, in directory order. */
  function Candidates(files: seq<File>): seq<Migration> {
    if files == [] then []
    else
      var rest, f := Candidates(files[..|files| - 1]), files[|files| - 1];
      if !f.isDir && f.isUpSql && f.parsed.Some? then rest + [f.parsed.value] else rest
  }

  /** The candidates are the up-migrations among the files. */
  lemma {:induction false} CandidatesAre(files: seq<File>, m: Migration)
    ensures m in Candidates(files)
            <==> exists i :: 0 <= i < |files| && !files[i].isDir && files[i].isUpSql && files[i].parsed == Some(m)
  {
    if files != [] {
      var init := files[..|files| - 1];
      CandidatesAre(init, m);
      assert forall i :: 0 <= i < |init| ==> files[i] == init[i];
    }
  }

  function InsertByVersion(m: Migration, s: seq<Migration>): (r: seq<Migration>)
    requires InVersionOrder(s)
    ensures InVersionOrder(r) && multiset(r) == multiset(s) + multiset{m}
  {
    if s == [] then [m]
    else if Before(s[0].version, m.version) then
      var rest := InsertByVersion(m, s[1..]);
      ConsInOrder(m, s, rest);
      [s[0]] + rest
    else
      FrontInOrder(m, s);
      [m] + s
  }

  lemma FrontInOrder(m: Migration, s: seq<Migration>)
    requires InVersionOrder(s) && s != [] && !Before(s[0].version, m.version)
    ensures InVersionOrder([m] + s)
  {
    forall i | 0 <= i < |s| ensures !Before(s[i].version, m.version) {
      BeforeIsTotal(s[0].version, m.version);
      BeforeIsTotal(s[0].version, s[i].version);
      if Before(s[i].version, m.version) && s[0].version != m.version && s[0].version != s[i].version {
        BeforeIsTransitive(s[i].version, m.version, s[0].version);
      }
    }
  }

  lemma ConsInOrder(m: Migration, s: seq<Migration>, rest: seq<Migration>)
    requires s != [] && InVersionOrder(s) && InVersionOrder(rest) && Before(s[0].version, m.version)
    requires multiset(rest) == multiset(s[1..]) + multiset{m}
    ensures InVersionOrder([s[0]] + rest) && multiset([s[0]] + rest) == multiset(s) + multiset{m}
  {
    assert s == [s[0]] + s[1..];
    BeforeIsTotal(s[0].version, m.version);
    forall i | 0 <= i < |rest| ensures !Before(rest[i].version, s[0].version) {
      assert rest[i] in multiset(rest);
      if rest[i] in multiset(s[1..]) {
        assert rest[i] in s[1..];
      }
    }
  }

  function SortByVersion(s: seq<Migration>): (r: seq<Migration>)
    ensures InVersionOrder(r) && multiset(r) == multiset(s)
  {
    if s == [] then []
    else
      assert s == [s[0]] + s[1..];
      InsertByVersion(s[0], SortByVersion(s[1..]))
  }

  /** Lists the migrations in version order, or fails on a misnamed file. */
  method Discover(files: seq<File>) returns (r: Result<seq<Migration>, string>)
    ensures r.Err? <==> exists i :: 0 <= i < |files| && !files[i].isDir && files[i].isUpSql && files[i].parsed.None?
    ensures r.Ok? ==> InVersionOrder(r.value) && multiset(r.value) == multiset(Candidates(files))
  {
    var migs: seq<Migration> := [];
    for i := 0 to |files|
      invariant migs == Candidates(files[..i])
      invariant forall j :: 0 <= j < i ==> files[j].isDir || !files[j].isUpSql || files[j].parsed.Some?
    {
      assert files[..i + 1][..i] == files[..i];
      if files[i].isDir || !files[i].isUpSql {
        continue;
      }
      if files[i].parsed.None? {
        return Err("migration filename does not match");
      }
      migs := migs + [files[i].parsed.value];
    }
    assert files[..|files|] == files;
    return Ok(SortByVersion(migs));
  }

  // ----- One migration -----

  /** What happens to a transaction: it runs and commits; a statement fails; the commit
      fails and nothing lands; or it lands but an error is reported. */
  datatype Outcome = Success | SqlFails | CommitFails | CommitReportsError

  predicate Lands(o: Outcome) {
    o.Success? || o.CommitReportsError?
  }

  /** applyOne: the SQL and the version row land together or not at all. Recording a
      version that is already there violates the primary key. */
  function ApplyOne(db: Database, m: Migration, o: Outcome): (Database, bool) {
    if m.version in db.recorded || !Lands(o) then (db, false)
    else (db.(executed := db.executed + [m], recorded := db.recorded + {m.version}), o.Success?)
  }

  // ----- One run -----

  /** The fortunes of one run: its preliminary statements, its backfill, and each
      migration it attempts. */
  datatype Env = Env(prepared: bool, backfill: Outcome, outcomes: seq<Outcome>)

  const SMOOTH: Env := Env(true, Success, [])

  /** An outcome that is not listed is a success. */
  function OutcomeOf(env: Env, k: nat): Outcome {
    if k < |env.outcomes| then env.outcomes[k] else Success
  }

  function Versions(migs: seq<Migration>): set<Bytes> {
    set i | 0 <= i < |migs| :: migs[i].version
  }

  /** The loop from migration `k` on, with the versions loaded when the run began. */
  function ApplyFrom(db: Database, applied: set<Bytes>, migs: seq<Migration>, k: nat, env: Env): Database
    requires k <= |migs|
    decreases |migs| - k
  {
    if k == |migs| then db
    else if migs[k].version in applied then ApplyFrom(db, applied, migs, k + 1, env)
    else
      var r := ApplyOne(db, migs[k], OutcomeOf(env, k));
      if r.1 then ApplyFrom(r.0, applied, migs, k + 1, env) else r.0
  }

  function ApplyFS(db: Database, migs: seq<Migration>, env: Env): Database {
    if !env.prepared then db
    else if db.recorded == {} && HasUsers(db) then
      if Lands(env.backfill) then db.(recorded := db.recorded + Versions(migs)) else db
    else ApplyFrom(db, db.recorded, migs, 0, env)
  }

  /** Start the server again and again. */
  function Runs(db: Database, migs: seq<Migration>, envs: seq<Env>): Database {
    if envs == [] then db else ApplyFS(Runs(db, migs, envs[..|envs| - 1]), migs, envs[|envs| - 1])
  }

  const EMPTY: Database := Database([], {}, false)

  // ----- What every run keeps -----

  /** The executed migrations are a prefix of the list, and exactly they are recorded. */
  ghost predicate Prefix(db: Database, migs: seq<Migration>) {
    !db.bootstrapped && db.executed <= migs && db.recorded == Versions(db.executed)
  }

  lemma VersionsAppend(migs: seq<Migration>, m: Migration)
    ensures Versions(migs + [m]) == Versions(migs) + {m.version}
  {
    var all := migs + [m];
    forall v ensures v in Versions(all) <==> v in Versions(migs) + {m.version} {
      if v in Versions(migs) {
        var i :| 0 <= i < |migs| && migs[i].version == v;
        assert all[i].version == v;
      }
      assert all[|migs|].version == m.version;
    }
  }

  /** In a list of distinct versions, migration `k` is recorded exactly when it lies in
      the executed prefix. */
  lemma RecordedIsPrefix(db: Database, migs: seq<Migration>, k: nat)
    requires Prefix(db, migs) && DistinctVersions(migs) && k < |migs|
    ensures migs[k].version in db.recorded <==> k < |db.executed|
  {
  }

  /** The loop, entered at `k` with everything before it executed. */
  lemma {:induction false} LoopKeepsPrefix(db: Database, applied: set<Bytes>, migs: seq<Migration>, k: nat, env: Env)
    requires k <= |migs| && Prefix(db, migs) && DistinctVersions(migs)
    requires applied <= db.recorded && k <= |db.executed|
    requires forall j :: k <= j < |migs| ==> (migs[j].version in applied <==> j < |db.executed|)
    ensures Prefix(ApplyFrom(db, applied, migs, k, env), migs)
    ensures (forall j :: k <= j < |migs| ==> OutcomeOf(env, j).Success?) ==>
              ApplyFrom(db, applied, migs, k, env).executed == migs
    decreases |migs| - k
  {
    if k < |migs| {
      RecordedIsPrefix(db, migs, k);
      if migs[k].version in applied {
        LoopKeepsPrefix(db, applied, migs, k + 1, env);
      } else {
        var r := ApplyOne(db, migs[k], OutcomeOf(env, k));
        assert k == |db.executed|;
        VersionsAppend(db.executed, migs[k]);
        if r.1 {
          LoopKeepsPrefix(r.0, applied, migs, k + 1, env);
        }
      }
    }
  }

  lemma RunKeepsPrefix(db: Database, migs: seq<Migration>, env: Env)
    requires Prefix(db, migs) && DistinctVersions(migs)
    ensures Prefix(ApplyFS(db, migs, env), migs)
    ensures env == SMOOTH ==> ApplyFS(db, migs, env).executed == migs
  {
    if db.executed != [] {
      assert db.executed[0].version in Versions(db.executed);
    }
    forall j | 0 <= j < |migs| ensures migs[j].version in db.recorded <==> j < |db.executed| {
      RecordedIsPrefix(db, migs, j);
    }
    if env.prepared {
      LoopFromStart(db, migs, env);
    }
  }

  lemma LoopFromStart(db: Database, migs: seq<Migration>, env: Env)
    requires Prefix(db, migs) && DistinctVersions(migs)
    requires forall j :: 0 <= j < |migs| ==> (migs[j].version in db.recorded <==> j < |db.executed|)
    ensures Prefix(ApplyFrom(db, db.recorded, migs, 0, env), migs)
    ensures env == SMOOTH ==> ApplyFrom(db, db.recorded, migs, 0, env).executed == migs
  {
    LoopKeepsPrefix(db, db.recorded, migs, 0, env);
  }

  // ----- Main results -----

  /** From an empty database, whatever fails and however often the server is restarted,
      the executed migrations are a prefix of the list, and exactly they are recorded. */
  lemma {:induction false} ExecutedIsPrefix(migs: seq<Migration>, envs: seq<Env>)
    requires DistinctVersions(migs)
    ensures Prefix(Runs(EMPTY, migs, envs), migs)
  {
    if envs != [] {
      ExecutedIsPrefix(migs, envs[..|envs| - 1]);
      RunKeepsPrefix(Runs(EMPTY, migs, envs[..|envs| - 1]), migs, envs[|envs| - 1]);
    } else {
      assert Versions([]) == {};
    }
  }

  /** A run that meets no failure completes the list, so the database ends up as one
      uninterrupted run leaves it; a further run changes nothing. */
  lemma RecoveryIsComplete(migs: seq<Migration>, envs: seq<Env>, later: Env)
    requires DistinctVersions(migs)
    ensures var db := ApplyFS(Runs(EMPTY, migs, envs), migs, SMOOTH);
            && db == ApplyFS(EMPTY, migs, SMOOTH) && db.executed == migs && db.recorded == Versions(migs)
            && ApplyFS(db, migs, later) == db
  {
    ExecutedIsPrefix(migs, envs);
    ExecutedIsPrefix(migs, []);
    RunKeepsPrefix(Runs(EMPTY, migs, envs), migs, SMOOTH);
    RunKeepsPrefix(EMPTY, migs, SMOOTH);
    var db := ApplyFS(Runs(EMPTY, migs, envs), migs, SMOOTH);
    RunKeepsPrefix(db, migs, later);
    assert db.executed == migs;
    if later.prepared && !(db.recorded == {} && HasUsers(db)) {
      NothingLeft(db, migs, 0, later);
    }
  }

  lemma {:induction false} NothingLeft(db: Database, migs: seq<Migration>, k: nat, env: Env)
    requires k <= |migs| && db.recorded == Versions(migs)
    ensures ApplyFrom(db, db.recorded, migs, k, env) == db
    decreases |migs| - k
  {
    if k < |migs| {
      NothingLeft(db, migs, k + 1, env);
    }
  }

  /** Executed versions never repeat, distinct in the list or not. */
  ghost predicate NoVersionTwice(db: Database) {
    DistinctVersions(db.executed) && (!db.bootstrapped ==> Versions(db.executed) <= db.recorded)
  }

  lemma {:induction false} LoopNeverRepeats(db: Database, applied: set<Bytes>, migs: seq<Migration>, k: nat, env: Env)
    requires k <= |migs| && NoVersionTwice(db) && !db.bootstrapped
    ensures NoVersionTwice(ApplyFrom(db, applied, migs, k, env))
    decreases |migs| - k
  {
    if k < |migs| {
      var r := ApplyOne(db, migs[k], OutcomeOf(env, k));
      VersionsAppend(db.executed, migs[k]);
      assert forall i :: 0 <= i < |db.executed| ==> db.executed[i].version in Versions(db.executed);
      assert NoVersionTwice(r.0);
      if migs[k].version in applied {
        LoopNeverRepeats(db, applied, migs, k + 1, env);
      } else if r.1 {
        LoopNeverRepeats(r.0, applied, migs, k + 1, env);
      }
    }
  }

  lemma {:induction false} NeverRepeats(migs: seq<Migration>, envs: seq<Env>)
    ensures NoVersionTwice(Runs(EMPTY, migs, envs)) && !Runs(EMPTY, migs, envs).bootstrapped
  {
    if envs != [] {
      var db := Runs(EMPTY, migs, envs[..|envs| - 1]);
      NeverRepeats(migs, envs[..|envs| - 1]);
      LoopNeverRepeats(db, db.recorded, migs, 0, envs[|envs| - 1]);
      LoopKeepsBootstrapped(db, db.recorded, migs, 0, envs[|envs| - 1]);
    } else {
      assert Versions([]) == {};
    }
  }

  lemma {:induction false} LoopKeepsBootstrapped(
    db: Database, applied: set<Bytes>, migs: seq<Migration>, k: nat, env: Env)
    requires k <= |migs|
    ensures ApplyFrom(db, applied, migs, k, env).bootstrapped == db.bootstrapped
    decreases |migs| - k
  {
    if k < |migs| {
      var r := ApplyOne(db, migs[k], OutcomeOf(env, k));
      LoopKeepsBootstrapped(db, applied, migs, k + 1, env);
      LoopKeepsBootstrapped(r.0, applied, migs, k + 1, env);
    }
  }

  /** The whole list can be executed exactly when no two files share a version prefix. */
  lemma CompletesIffVersionsDistinct(migs: seq<Migration>)
    ensures (exists envs :: Runs(EMPTY, migs, envs).executed == migs) <==> DistinctVersions(migs)
  {
    if DistinctVersions(migs) {
      RecoveryIsComplete(migs, [], SMOOTH);
      assert [SMOOTH][..0] == [];
      assert Runs(EMPTY, migs, [SMOOTH]).executed == migs;
    }
    forall envs | Runs(EMPTY, migs, envs).executed == migs ensures DistinctVersions(migs) {
      NeverRepeats(migs, envs);
    }
  }

  /** A database set up before the runner existed is taken over without executing
      anything: either nothing is recorded yet, or every version is. */
  lemma {:induction false} TakeoverExecutesNothing(migs: seq<Migration>, envs: seq<Env>)
    ensures var db := Runs(Database([], {}, true), migs, envs);
            db.executed == [] && db.bootstrapped && (db.recorded == {} || db.recorded == Versions(migs))
  {
    if envs != [] {
      TakeoverExecutesNothing(migs, envs[..|envs| - 1]);
      var db, env := Runs(Database([], {}, true), migs, envs[..|envs| - 1]), envs[|envs| - 1];
      if db.recorded != {} {
        NothingLeft(db, migs, 0, env);
      }
    }
  }

  /** It is taken over by the first run that gets to record the versions and whose statement
      lands, whatever comes before and after. */
  lemma {:induction false} TakenOverIff(migs: seq<Migration>, envs: seq<Env>)
    ensures Runs(Database([], {}, true), migs, envs).recorded
            == if exists i :: 0 <= i < |envs| && envs[i].prepared && Lands(envs[i].backfill) then Versions(migs) else {}
  {
    if envs != [] {
      var init, env := envs[..|envs| - 1], envs[|envs| - 1];
      var db := Runs(Database([], {}, true), migs, init);
      TakenOverIff(migs, init);
      TakeoverExecutesNothing(migs, init);
      if db.recorded != {} {
        NothingLeft(db, migs, 0, env);
      }
      hide Versions;
      assert forall i :: 0 <= i < |envs| ==> envs[i] == if i < |init| then init[i] else env;
      if exists i :: 0 <= i < |init| && init[i].prepared && Lands(init[i].backfill) {
        var i :| 0 <= i < |init| && init[i].prepared && Lands(init[i].backfill);
        assert envs[i] == init[i];
      }
    }
  }

  // ----- The code -----

  class Runner {
    var executed: seq<Migration>
    var recorded: set<Bytes>
    const bootstrapped: bool

    function Now(): Database
      reads this
    {
      Database(executed, recorded, bootstrapped)
    }

    constructor (bootstrapped: bool)
      ensures Now() == Database([], {}, bootstrapped)
    {
      this.executed, this.recorded, this.bootstrapped := [], {}, bootstrapped;
    }

    method ApplyMigration(m: Migration, o: Outcome) returns (ok: bool)
      modifies this
      ensures (Now(), ok) == ApplyOne(old(Now()), m, o)
    {
      // Inside the transaction.
      var executed', recorded' := executed + [m], recorded + {m.version};
      if m.version in recorded || !Lands(o) {
        return false;
      }
      executed, recorded := executed', recorded';
      return o.Success?;
    }

    /** Returns the versions this run applied and reported, and whether it got through. */
    method Apply(migs: seq<Migration>, env: Env) returns (newlyApplied: seq<Bytes>, ok: bool)
      modifies this
      ensures Now() == ApplyFS(old(Now()), migs, env)
      ensures |newlyApplied| <= |executed| - old(|executed|) <= |newlyApplied| + 1
      ensures ok ==> |executed| == old(|executed|) + |newlyApplied|
      ensures old(executed) <= executed
      ensures forall i :: 0 <= i < |newlyApplied| ==> newlyApplied[i] == executed[old(|executed|) + i].version
    {
      newlyApplied := [];
      if !env.prepared {
        return newlyApplied, false;
      }
      var applied := recorded;
      if applied == {} && HasUsers(Now()) {
        if Lands(env.backfill) {
          recorded := recorded + Versions(migs);
        }
        return newlyApplied, env.backfill.Success?;
      }
      for k := 0 to |migs|
        invariant ApplyFrom(Now(), applied, migs, k, env) == ApplyFS(old(Now()), migs, env)
        invariant |executed| == old(|executed|) + |newlyApplied| && old(executed) <= executed
        invariant forall i :: 0 <= i < |newlyApplied| ==> newlyApplied[i] == executed[old(|executed|) + i].version
      {
        if migs[k].version in applied {
          continue;
        }
        var done := ApplyMigration(migs[k], OutcomeOf(env, k));
        if !done {
          return newlyApplied, false;
        }
        newlyApplied := newlyApplied + [migs[k].version];
      }
      return newlyApplied, true;
    }
  }
}
