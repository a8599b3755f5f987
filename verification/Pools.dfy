/** Per-database pools opened by racing tasks (`backend_for`). */
module Pools {
  import opened Text
  import opened Lexer
  import opened Url

  type Name = seq<Byte>

  /** A pool, told apart by its number, and the url it was built from. */
  datatype Pool = Pool(id: nat, url: string)

  datatype Config = Config(kind: Kind, current: Option<Name>, url: string, base: Pool)

  /** The database that needs a pool of its own, if any. */
  function Wanted(c: Config, database: Option<Name>): Option<Name> {
    match database
    case None => None
    case Some(db) => if db == [] || c.kind != Postgres || c.current == Some(db) then None else Some(db)
  }

  // ------------------------------ the registry --------------------------

  /** Publishing under the write lock: the map after it, and the pool to use. */
  function Published(extra: map<Name, Pool>, db: Name, pool: Pool): (map<Name, Pool>, Pool) {
    if db in extra then (extra, extra[db]) else (extra[db := pool], pool)
  }

  /** A pool's url names the database it was opened for. */
  predicate Names(url: string, db: Name) { Decode(AfterLastSlash(Head(url))) == Some(db) }

  predicate AllNamed(c: Config, pools: map<Name, Pool>) {
    forall db | db in pools :: pools[db].url == UrlWithDatabase(c.url, db)
  }

  class Registry {
    const config: Config
    var extra: map<Name, Pool>
    /** Pools handed to a task that closes them. */
    var closing: seq<Pool>

    constructor (config: Config)
      ensures this.config == config && extra == map[] && closing == [] && Valid()
    {
      this.config, extra, closing := config, map[], [];
    }

    ghost predicate Valid()
      reads this
    {
      AllNamed(config, extra)
    }

    /** The section under the read lock. */
    method Lookup(db: Name) returns (p: Option<Pool>)
      requires Valid()
      ensures p.Some? <==> db in extra
      ensures p.Some? ==> p.value == extra[db] && Names(p.value.url, db)
    {
      UrlNamesDatabase(config.url, db);
      p := if db in extra then Some(extra[db]) else None;
    }

    /** The section under the write lock. */
    method Publish(db: Name, pool: Pool) returns (winner: Pool)
      modifies this
      ensures (extra, winner) == Published(old(extra), db, pool)
      ensures closing == old(closing) + if db in old(extra) then [pool] else []
    {
      if db in extra {
        winner := extra[db];
        closing := closing + [pool];
      } else {
        extra := extra[db := pool];
        winner := pool;
      }
    }

    /** `backend_for`. While the task connects, with no lock held, others may publish pools; `opens` is the number
        of the pool it opens, if it can. The pool it gets is the published one; the one it opened is published or
        handed to close. */
    method BackendFor(database: Option<Name>, others: map<Name, Pool>, opens: Option<nat>) returns (r: Option<Pool>)
      requires Valid() && AllNamed(config, others)
      modifies this
      ensures Valid()
      ensures forall db | db in old(extra) :: db in extra && extra[db] == old(extra)[db]
      ensures match Wanted(config, database)
        case None => r == Some(config.base) && extra == old(extra) && closing == old(closing)
        case Some(db) =>
          && (r.None? <==> db !in old(extra) && opens.None?)
          && (r.Some? ==> db in extra && extra[db] == r.value && Names(r.value.url, db))
          && (db !in old(extra) && opens.Some? ==>
            var ours := Pool(opens.value, UrlWithDatabase(config.url, db));
            extra[db] == ours || (closing == old(closing) + [ours] && db in others && r == Some(others[db])))
    {
      hide UrlWithDatabase, Names;
      match Wanted(config, database) {
        case None => return Some(config.base);
        case Some(db) =>
          var found := Lookup(db);
          if found.Some? {
            return found;
          }
          extra := others + extra;
          if opens.None? {
            return None;
          }
          var pool := Pool(opens.value, UrlWithDatabase(config.url, db));
          var winner := Publish(db, pool);
          NamedByUrl(config.url, db);
          r := Some(winner);
      }
    }
  }

  lemma NamedByUrl(url: string, db: Name)
    ensures Names(UrlWithDatabase(url, db), db)
  {
    UrlNamesDatabase(url, db);
  }

  // ------------------------------ the race ------------------------------

  datatype Task =
    | Looking(db: Name)
    | Opening(db: Name)
    | Opened(db: Name, pool: Pool)
    | Got(database: Option<Name>, pool: Pool)
    | Failed

  datatype Sys = Sys(config: Config, extra: map<Name, Pool>, closing: set<Pool>, tasks: map<nat, Task>, built: nat)

  datatype Label =
    | Ask(t: nat, database: Option<Name>)
    | Look(t: nat)
    | Open(t: nat, ok: bool)
    | Publish(t: nat)

  function Move(s: Sys, t: nat, task: Task): Sys { s.(tasks := s.tasks[t := task]) }

  function Next(s: Sys, l: Label): Option<Sys> {
    match l
    case Ask(t, database) =>
      if t in s.tasks then None
      else (
        match Wanted(s.config, database)
        case None => Some(Move(s, t, Got(None, s.config.base)))
        case Some(db) => Some(Move(s, t, Looking(db))))
    case Look(t) =>
      if !(t in s.tasks && s.tasks[t].Looking?) then None
      else
        var db := s.tasks[t].db;
        Some(Move(s, t, if db in s.extra then Got(Some(db), s.extra[db]) else Opening(db)))
    case Open(t, ok) =>
      if !(t in s.tasks && s.tasks[t].Opening?) then None
      else if !ok then Some(Move(s, t, Failed))
      else
        var db := s.tasks[t].db;
        var pool := Pool(s.built, UrlWithDatabase(s.config.url, db));
        Some(Move(s, t, Opened(db, pool)).(built := s.built + 1))
    case Publish(t) =>
      if !(t in s.tasks && s.tasks[t].Opened?) then None
      else
        var db, pool := s.tasks[t].db, s.tasks[t].pool;
        var (extra, winner) := Published(s.extra, db, pool);
        Some(Move(s, t, Got(Some(db), winner)).(extra := extra,
          closing := s.closing + if db in s.extra then {pool} else {}))
  }

  function Steps(s: Sys, labels: seq<Label>): Option<Sys>
    decreases |labels|
  {
    if labels == [] then Some(s)
    else match Next(s, labels[0])
      case None => None
      case Some(t) => Steps(t, labels[1..])
  }

  function Start(config: Config): Sys { Sys(config, map[], {}, map[], 0) }

  // ------------------------------ what every step keeps -----------------

  /** A pool was built for its database, and is one of those opened. */
  predicate BuiltFor(s: Sys, db: Name, pool: Pool) {
    pool.url == UrlWithDatabase(s.config.url, db) && pool.id < s.built
  }

  predicate MapFits(s: Sys) { forall db | db in s.extra :: BuiltFor(s, db, s.extra[db]) }

  predicate TaskFits(s: Sys, task: Task) {
    match task
    case Opened(db, pool) => BuiltFor(s, db, pool)
    case Got(Some(db), pool) => db in s.extra && s.extra[db] == pool
    case Got(None, pool) => pool == s.config.base
    case _ => true
  }

  predicate TasksFit(s: Sys) { forall t | t in s.tasks :: TaskFits(s, s.tasks[t]) }

  predicate HeldAt(s: Sys, t: nat, id: nat) { t in s.tasks && s.tasks[t].Opened? && s.tasks[t].pool.id == id }

  predicate PublishedAt(s: Sys, db: Name, id: nat) { db in s.extra && s.extra[db].id == id }

  predicate Handed(s: Sys, id: nat) { exists p | p in s.closing :: p.id == id }

  /** Where an opened pool is. */
  ghost predicate Kept(s: Sys, id: nat) {
    (exists t :: HeldAt(s, t, id)) || (exists db :: PublishedAt(s, db, id)) || Handed(s, id)
  }

  ghost predicate AllKept(s: Sys) { forall id | 0 <= id < s.built :: Kept(s, id) }

  ghost predicate Inv(s: Sys) { MapFits(s) && TasksFit(s) && AllKept(s) }

  /** Entries never change once inserted. */
  predicate Extends(s: Sys, z: Sys) {
    && z.config == s.config && s.built <= z.built
    && (forall db | db in s.extra :: db in z.extra && z.extra[db] == s.extra[db])
    && s.closing <= z.closing
  }

  lemma StepExtends(s: Sys, l: Label)
    requires Next(s, l).Some?
    ensures Extends(s, Next(s, l).value)
  {
    hide Wanted, UrlWithDatabase;
  }

  lemma StepFits(s: Sys, l: Label)
    requires MapFits(s) && TasksFit(s) && Next(s, l).Some?
    ensures MapFits(Next(s, l).value) && TasksFit(Next(s, l).value)
  {
    hide Wanted, UrlWithDatabase;
    var z := Next(s, l).value;
    StepExtends(s, l);
    forall t | t in z.tasks ensures TaskFits(z, z.tasks[t]) {
      if t in s.tasks { assert TaskFits(s, s.tasks[t]); }
    }
  }

  lemma StepKeepsPools(s: Sys, l: Label)
    requires AllKept(s) && Next(s, l).Some?
    ensures AllKept(Next(s, l).value)
  {
    hide Wanted, UrlWithDatabase;
    var z := Next(s, l).value;
    forall id | 0 <= id < z.built ensures Kept(z, id) {
      if l.Open? && l.ok && id == s.built {
        assert HeldAt(z, l.t, id);
      } else {
        assert Kept(s, id);
        if t :| HeldAt(s, t, id) {
          if l == Publish(t) {
            var db := s.tasks[t].db;
            if db in s.extra {
              assert s.tasks[t].pool in z.closing;
            } else {
              assert PublishedAt(z, db, id);
            }
          } else {
            assert HeldAt(z, t, id);
          }
        } else if db :| PublishedAt(s, db, id) {
          assert PublishedAt(z, db, id);
        } else {
          var p :| p in s.closing && p.id == id;
          assert p in z.closing;
        }
      }
    }
  }

  /** Under any number of racing tasks, entries are never changed, and every pool opened is held by its
      task, published, or handed to close. */
  lemma {:induction false} RaceKeeps(s: Sys, labels: seq<Label>)
    requires Inv(s) && Steps(s, labels).Some?
    ensures Inv(Steps(s, labels).value) && Extends(s, Steps(s, labels).value)
    decreases |labels|
  {
    hide Next, MapFits, TasksFit, AllKept;
    if labels != [] {
      StepFits(s, labels[0]);
      StepKeepsPools(s, labels[0]);
      StepExtends(s, labels[0]);
      RaceKeeps(Next(s, labels[0]).value, labels[1..]);
    }
  }

  lemma StartFits(config: Config)
    ensures Inv(Start(config))
  {
  }

  /** Everyone who asked for a database and got a pool got the same one, at whatever time, and it was
      built from a url whose last path segment decodes to that database. */
  lemma OnePoolPerDatabase(s: Sys, labels: seq<Label>, t1: nat, t2: nat, db: Name)
    requires Inv(s) && Steps(s, labels).Some?
    requires var z := Steps(s, labels).value;
      && t1 in s.tasks && s.tasks[t1].Got? && s.tasks[t1].database == Some(db)
      && t2 in z.tasks && z.tasks[t2].Got? && z.tasks[t2].database == Some(db)
    ensures var z := Steps(s, labels).value;
      && db in z.extra && s.tasks[t1].pool == z.tasks[t2].pool == z.extra[db]
      && Names(z.tasks[t2].pool.url, db)
  {
    hide Steps, UrlWithDatabase, Names;
    RaceKeeps(s, labels);
    var z := Steps(s, labels).value;
    assert TaskFits(s, s.tasks[t1]) && TaskFits(z, z.tasks[t2]);
    NamedByUrl(z.config.url, db);
  }

  /** Who needs no pool of their own gets the base pool: on MySQL and SQLite everyone, on PostgreSQL who
      names no database or the one the base pool is attached to. */
  lemma BasePoolOtherwise(s: Sys, t: nat, database: Option<Name>)
    requires t !in s.tasks
    ensures Next(s, Ask(t, database)).Some?
    ensures Next(s, Ask(t, database)).value.tasks[t] == Got(None, s.config.base) <==>
      s.config.kind != Postgres || database.None? || database == Some([]) || database == s.config.current
  {
  }
}
