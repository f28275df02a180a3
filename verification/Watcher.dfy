/**
 The incremental watch of the job directory. Each tick re-reads only what may have changed: a
 finished job whose `state.json` kept its modification time is taken from the cache. Other
 writers run at any moment, between the stat of a file and its read included.

 Everybody else's writes are an input: `visits` says what the environment does at each point where
 it can, and every result holds for all of them. A modification time is a version that grows with
 every write.
 */
module Watcher {
  import opened Text

  type Id = string

  /** A job's record as `read_job` sees it; `result` is the payload a summary leaves out. */
  datatype Record = Record(active: bool, shown: string, result: string)

  datatype Row = Row(id: Id, active: bool, shown: string)

  function Summary(id: Id, r: Record): Row {
    Row(id, r.active, r.shown)
  }

  /** The record a vanished worker leaves after the refresh. */
  function Vanished(r: Record): Record {
    Record(false, "unknown", r.result)
  }

  // ---------------------------------------------------------------- the directory

  datatype File = File(version: nat, record: Record)

  datatype Files = Files(table: map<Id, File>, clock: nat)

  datatype Write = Put(id: Id, record: Record) | Remove(id: Id)

  function Written(fs: Files, w: Write): Files {
    match w
    case Put(id, record) => Files(fs.table[id := File(fs.clock + 1, record)], fs.clock + 1)
    case Remove(id) => Files(fs.table - {id}, fs.clock + 1)
  }

  function AllWritten(fs: Files, ws: seq<Write>): Files
    decreases |ws|
  {
    if ws == [] then fs else AllWritten(Written(fs, ws[0]), ws[1..])
  }

  ghost predicate Dated(fs: Files) {
    forall id :: id in fs.table ==> fs.table[id].version <= fs.clock
  }

  /**
   What happens around one job's visit: the writes of others at each point, and what the two
   liveness probes answer.
   */
  datatype Visit = Visit(
    beforeStat: seq<Write>,
    beforeRead: seq<Write>,
    beforeLock: seq<Write>,
    vanished: bool,
    stillVanished: bool)

  predicate Quiet(v: Visit) {
    v.beforeStat == [] && v.beforeRead == [] && v.beforeLock == []
  }

  // ---------------------------------------------------------------- the cache

  datatype Entry = Entry(version: nat, row: Row)

  /** An entry whose stored version is still the file's holds that file's summary. */
  ghost predicate Fresh(fs: Files, id: Id, e: Entry) {
    && e.version <= fs.clock
    && e.row.id == id
    && (id in fs.table && fs.table[id].version == e.version ==> e.row == Summary(id, fs.table[id].record))
  }

  ghost predicate AllFresh(fs: Files, cache: map<Id, Entry>) {
    forall id :: id in cache ==> Fresh(fs, id, cache[id])
  }

  function Rows(cache: map<Id, Entry>): map<Id, Row> {
    map id | id in cache :: cache[id].row
  }

  // ---------------------------------------------------------------- what is published

  datatype Message = Changed(row: Row) | Removed(id: Id)

  /** A subscriber's table after one more message. */
  function Told(view: map<Id, Row>, m: Message): map<Id, Row> {
    match m
    case Changed(row) => view[row.id := row]
    case Removed(id) => view - {id}
  }

  /** A subscriber's table: the messages folded from the start. */
  function View(messages: seq<Message>): map<Id, Row> {
    if messages == [] then map[]
    else Told(View(messages[..|messages| - 1]), messages[|messages| - 1])
  }

  lemma ViewMore(messages: seq<Message>, m: Message)
    ensures View(messages + [m]) == Told(View(messages), m)
  {
    assert (messages + [m])[..|messages|] == messages;
  }

  // ---------------------------------------------------------------- writes keep entries fresh

  lemma {:induction false} WritesKeepFresh(fs: Files, ws: seq<Write>, id: Id, e: Entry)
    requires Dated(fs) && Fresh(fs, id, e)
    ensures Dated(AllWritten(fs, ws)) && Fresh(AllWritten(fs, ws), id, e) && fs.clock <= AllWritten(fs, ws).clock
    decreases |ws|
  {
    if ws != [] {
      var next := Written(fs, ws[0]);
      assert Dated(next) && Fresh(next, id, e);
      WritesKeepFresh(next, ws[1..], id, e);
    }
  }

  lemma {:induction false} WritesKeepDated(fs: Files, ws: seq<Write>)
    requires Dated(fs)
    ensures Dated(AllWritten(fs, ws)) && fs.clock <= AllWritten(fs, ws).clock
    decreases |ws|
  {
    if ws != [] {
      assert Dated(Written(fs, ws[0]));
      WritesKeepDated(Written(fs, ws[0]), ws[1..]);
    }
  }

  lemma WritesKeepAllFresh(fs: Files, ws: seq<Write>, cache: map<Id, Entry>)
    requires Dated(fs) && AllFresh(fs, cache)
    ensures Dated(AllWritten(fs, ws)) && AllFresh(AllWritten(fs, ws), cache)
  {
    WritesKeepDated(fs, ws);
    forall id | id in cache ensures Fresh(AllWritten(fs, ws), id, cache[id]) {
      WritesKeepFresh(fs, ws, id, cache[id]);
    }
  }

  /** A version that has been passed never comes back. */
  lemma {:induction false} VersionGone(fs: Files, ws: seq<Write>, id: Id, version: nat)
    requires Dated(fs) && version <= fs.clock
    requires id in fs.table ==> fs.table[id].version != version
    ensures id in AllWritten(fs, ws).table ==> AllWritten(fs, ws).table[id].version != version
    decreases |ws|
  {
    if ws != [] {
      assert Dated(Written(fs, ws[0]));
      VersionGone(Written(fs, ws[0]), ws[1..], id, version);
    }
  }

  /** Between two moments with the same version, the record is the same. */
  lemma {:induction false} SameVersionSameRecord(fs: Files, ws: seq<Write>, id: Id)
    requires Dated(fs) && id in fs.table
    ensures var later := AllWritten(fs, ws);
      id in later.table && later.table[id].version == fs.table[id].version ==> later.table[id] == fs.table[id]
    decreases |ws|
  {
    if ws != [] {
      var next := Written(fs, ws[0]);
      assert Dated(next);
      if id in next.table && next.table[id] == fs.table[id] {
        SameVersionSameRecord(next, ws[1..], id);
      } else {
        VersionGone(next, ws[1..], id, fs.table[id].version);
      }
    }
  }

  // ---------------------------------------------------------------- one read

  /**
   What `read_job` returns and leaves on disk: an active record of a vanished worker becomes
   `unknown` under the lock.
   */
  function ReadJob(fs: Files, id: Id, v: Visit): (Files, Option<Record>) {
    if id !in fs.table then (fs, None)
    else
      var r := fs.table[id].record;
      if !r.active || !v.vanished then (fs, Some(r))
      else
        var locked := AllWritten(fs, v.beforeLock);
        if id !in locked.table then (locked, None)
        else
          var again := locked.table[id].record;
          if !again.active || !v.stillVanished then (locked, Some(again))
          else (Written(locked, Put(id, Vanished(again))), Some(Vanished(again)))
  }

  /** A whole visit: stat, then a read when the cache does not do. */
  function VisitJob(fs: Files, prior: Option<Entry>, id: Id, v: Visit): (Files, Option<Entry>) {
    var atStat := AllWritten(fs, v.beforeStat);
    if id !in atStat.table then (atStat, None)
    else
      var version := atStat.table[id].version;
      if prior.Some? && prior.value.version == version && !prior.value.row.active then (atStat, prior)
      else
        var (after, record) := ReadJob(AllWritten(atStat, v.beforeRead), id, v);
        match record
        case None => (after, None)
        case Some(r) => (after, Some(Entry(version, Summary(id, r))))
  }

  /** The entry a read yields is fresh whatever happened since the stat. */
  lemma ReadIsFresh(atStat: Files, id: Id, v: Visit)
    requires Dated(atStat) && id in atStat.table
    ensures var (after, record) := ReadJob(AllWritten(atStat, v.beforeRead), id, v);
      Dated(after) && (record.Some? ==> Fresh(after, id, Entry(atStat.table[id].version, Summary(id, record.value))))
  {
    var version := atStat.table[id].version;
    var atRead := AllWritten(atStat, v.beforeRead);
    WritesKeepDated(atStat, v.beforeRead);
    if id in atRead.table {
      SameVersionSameRecord(atStat, v.beforeRead, id);
      if atRead.table[id].record.active && v.vanished {
        var locked := AllWritten(atRead, v.beforeLock);
        WritesKeepDated(atRead, v.beforeLock);
        if id in locked.table {
          SameVersionSameRecord(atRead, v.beforeLock, id);
          if atRead.table[id].version != version {
            VersionGone(atRead, v.beforeLock, id, version);
          }
        }
      }
    }
  }

  lemma ReadKeepsFresh(fs: Files, id: Id, v: Visit, other: Id, e: Entry)
    requires Dated(fs) && Fresh(fs, other, e)
    ensures Fresh(ReadJob(fs, id, v).0, other, e)
  {
    WritesKeepFresh(fs, v.beforeLock, other, e);
  }

  /** A visit keeps every fresh entry fresh, and hands back a fresh one. */
  lemma VisitKeepsFresh(fs: Files, prior: Option<Entry>, id: Id, v: Visit, cache: map<Id, Entry>)
    requires Dated(fs) && AllFresh(fs, cache) && (prior.Some? ==> Fresh(fs, id, prior.value))
    ensures var (after, found) := VisitJob(fs, prior, id, v);
      Dated(after) && AllFresh(after, cache) && (found.Some? ==> Fresh(after, id, found.value))
  {
    var atStat := AllWritten(fs, v.beforeStat);
    WritesKeepAllFresh(fs, v.beforeStat, cache);
    if prior.Some? {
      WritesKeepFresh(fs, v.beforeStat, id, prior.value);
    }
    if id in atStat.table {
      ReadIsFresh(atStat, id, v);
      var atRead := AllWritten(atStat, v.beforeRead);
      WritesKeepAllFresh(atStat, v.beforeRead, cache);
      forall other | other in cache ensures Fresh(ReadJob(atRead, id, v).0, other, cache[other]) {
        ReadKeepsFresh(atRead, id, v, other, cache[other]);
      }
    }
  }

  /** With nobody else writing, a visit shows the job as it is, and leaves every other job alone. */
  lemma QuietVisit(fs: Files, prior: Option<Entry>, id: Id, v: Visit)
    requires Dated(fs) && Quiet(v) && id in fs.table && (prior.Some? ==> Fresh(fs, id, prior.value))
    ensures var (after, found) := VisitJob(fs, prior, id, v);
      && after.table.Keys == fs.table.Keys
      && found.Some? && found.value.row == Summary(id, after.table[id].record)
      && forall other :: other in fs.table && other != id ==> after.table[other] == fs.table[other]
  {
  }

  /**
   What an undisturbed visit makes of a job's file: an active record whose worker is gone at both
   looks becomes `unknown`, its result kept; any other file is left as it is, version included.
   */
  predicate Settled(before: File, after: File, v: Visit) {
    if before.record.active && v.vanished && v.stillVanished then
      after.record == Record(false, "unknown", before.record.result) && before.version < after.version
    else
      after == before
  }

  lemma VisitSettles(fs: Files, prior: Option<Entry>, id: Id, v: Visit)
    requires Dated(fs) && Quiet(v) && id in fs.table && (prior.Some? ==> Fresh(fs, id, prior.value))
    ensures var (after, found) := VisitJob(fs, prior, id, v);
      && id in after.table && Settled(fs.table[id], after.table[id], v)
      && forall other :: other in fs.table && other != id ==>
           other in after.table && after.table[other] == fs.table[other]
  {
  }

  /** The files as the visit's three pauses leave them, when it writes nothing itself. */
  function Paused(fs: Files, v: Visit, pauses: nat): Files {
    var a := AllWritten(fs, v.beforeStat);
    var b := AllWritten(a, v.beforeRead);
    if pauses == 1 then a else if pauses == 2 then b else AllWritten(b, v.beforeLock)
  }

  /**
   The visit's own write, whatever the others do meanwhile: there is at most one, it meets a record
   that is active under the lock, and it makes that record `unknown`, its result kept.
   */
  lemma OwnWrite(fs: Files, prior: Option<Entry>, id: Id, v: Visit)
    ensures var (after, found) := VisitJob(fs, prior, id, v);
      var locked := Paused(fs, v, 3);
      || after in {Paused(fs, v, 1), Paused(fs, v, 2), locked}
      || (&& id in locked.table && locked.table[id].record.active && v.vanished && v.stillVanished
          && after == Written(locked, Put(id, Record(false, "unknown", locked.table[id].record.result))))
  {
  }

  // ---------------------------------------------------------------- the loop

  class Disk {
    var fs: Files

    constructor (fs: Files)
      ensures this.fs == fs
    {
      this.fs := fs;
    }

    /** The stat, the cache check and the read of one job, with everyone else writing in between. */
    method Visit(prior: Option<Entry>, id: Id, v: Visit) returns (found: Option<Entry>)
      modifies this
      ensures (fs, found) == VisitJob(old(fs), prior, id, v)
    {
      fs := AllWritten(fs, v.beforeStat);
      if id !in fs.table {
        return None;
      }
      var version := fs.table[id].version;
      if prior.Some? && prior.value.version == version && !prior.value.row.active {
        return prior;
      }
      fs := AllWritten(fs, v.beforeRead);
      var (after, record) := ReadJob(fs, id, v);
      fs := after;
      if record.None? {
        return None;
      }
      return Some(Entry(version, Summary(id, record.value)));
    }
  }

  function Prior(cache: map<Id, Entry>, id: Id): Option<Entry> {
    if id in cache then Some(cache[id]) else None
  }

  class Watch {
    var seen: map<Id, Entry>
    var published: seq<Message>

    constructor ()
      ensures seen == map[] && published == []
    {
      seen, published := map[], [];
    }

    /** The subscribers' table is the watcher's, and no cached row lies about the file it was read from. */
    ghost predicate Valid(fs: Files)
      reads this
    {
      Dated(fs) && AllFresh(fs, seen) && View(published) == Rows(seen)
    }

    /**
     One tick over the listed jobs, in whatever order the directory gives them. Whatever the others
     write meanwhile, every cached row is fresh and the published messages fold to exactly the
     watcher's table. When nobody else writes, the table is every listed job's current summary, and
     the only files the tick has touched are those of active jobs whose worker is gone.
     */
    method Tick(disk: Disk, ids: set<Id>, visits: Id -> Visit)
      requires Valid(disk.fs)
      modifies this, disk
      ensures Valid(disk.fs)
      ensures old(published) <= published
      ensures seen.Keys <= ids
      ensures (forall id :: id in ids ==> Quiet(visits(id))) && ids == old(disk.fs).table.Keys ==>
        && disk.fs.table.Keys == ids && seen.Keys == ids
        && (forall id :: id in ids ==> Settled(old(disk.fs).table[id], disk.fs.table[id], visits(id)))
        && forall id :: id in ids ==>
             seen[id].row == Row(id, disk.fs.table[id].record.active, disk.fs.table[id].record.shown)
    {
      var current: map<Id, Entry> := map[];
      ghost var quiet := (forall id :: id in ids ==> Quiet(visits(id))) && ids == disk.fs.table.Keys;
      assert seen + current == seen;
      var todo := ids;
      while todo != {}
        invariant todo <= ids && seen == old(seen) && old(published) <= published
        invariant Dated(disk.fs) && AllFresh(disk.fs, seen) && AllFresh(disk.fs, current)
        invariant current.Keys <= ids - todo && View(published) == Rows(seen + current)
        invariant quiet ==> disk.fs.table.Keys == ids && Shown(disk.fs, ids - todo, current)
        invariant quiet ==> SettledAll(old(disk.fs), disk.fs, ids, todo, visits)
        decreases todo
      {
        var id :| id in todo;
        assert quiet ==> Quiet(visits(id));
        ghost var before := disk.fs;
        current := VisitOne(disk, id, visits(id), current, ids - todo);
        if quiet {
          SettledMore(old(disk.fs), before, disk.fs, ids, todo, id, visits);
        }
        todo := todo - {id};
        assert ids - todo == ids - (todo + {id}) + {id};
      }
      assert ids - todo == ids;
      PublishRemovals(current);
    }

    /** The visited files are settled, the others untouched. */
    ghost predicate SettledAll(was: Files, fs: Files, ids: set<Id>, todo: set<Id>, visits: Id -> Visit) {
      && ids <= was.table.Keys && ids <= fs.table.Keys
      && forall id :: id in ids ==>
           if id in todo then fs.table[id] == was.table[id] else Settled(was.table[id], fs.table[id], visits(id))
    }

    lemma SettledMore(was: Files, before: Files, after: Files, ids: set<Id>, todo: set<Id>, id: Id, visits: Id -> Visit)
      requires SettledAll(was, before, ids, todo, visits) && id in todo && id in ids
      requires ids <= after.table.Keys && Settled(before.table[id], after.table[id], visits(id))
      requires forall other :: other in ids && other != id ==> after.table[other] == before.table[other]
      ensures SettledAll(was, after, ids, todo - {id}, visits)
    {
    }

    /** Every one of these jobs is in the table, as it is on disk. */
    ghost predicate Shown(fs: Files, ids: set<Id>, current: map<Id, Entry>) {
      forall id :: id in ids ==> id in current && id in fs.table && current[id].row == Summary(id, fs.table[id].record)
    }

    /** Visit one job: keep its row or read it, publish what changed, and put it in the new table. */
    method VisitOne(disk: Disk, id: Id, v: Visit, current: map<Id, Entry>, ghost done: set<Id>)
      returns (next: map<Id, Entry>)
      requires Dated(disk.fs) && AllFresh(disk.fs, seen) && AllFresh(disk.fs, current)
      requires id !in done && current.Keys <= done && View(published) == Rows(seen + current)
      modifies this`published, disk
      ensures Dated(disk.fs) && AllFresh(disk.fs, seen) && AllFresh(disk.fs, next)
      ensures old(published) <= published && next.Keys <= done + {id} && View(published) == Rows(seen + next)
      ensures Quiet(v) && id in old(disk.fs).table && Shown(old(disk.fs), done, current) ==>
        disk.fs.table.Keys == old(disk.fs).table.Keys && Shown(disk.fs, done + {id}, next)
      ensures Quiet(v) && id in old(disk.fs).table ==>
        && id in disk.fs.table && Settled(old(disk.fs).table[id], disk.fs.table[id], v)
        && forall other :: other in old(disk.fs).table && other != id ==>
             other in disk.fs.table && disk.fs.table[other] == old(disk.fs).table[other]
    {
      var prior := Prior(seen, id);
      VisitKeepsFresh(disk.fs, prior, id, v, seen);
      VisitKeepsFresh(disk.fs, prior, id, v, current);
      if Quiet(v) && id in disk.fs.table {
        VisitSettles(disk.fs, prior, id, v);
      }
      if Quiet(v) && id in disk.fs.table && Shown(disk.fs, done, current) {
        QuietVisitShows(disk.fs, prior, id, v, current, done);
      }
      next := current;
      var found := disk.Visit(prior, id, v);
      if found.Some? {
        Publish(prior, found.value, current);
        next := current[id := found.value];
      }
    }

    /** With nobody else writing, the visited job joins those shown. */
    lemma QuietVisitShows(fs: Files, prior: Option<Entry>, id: Id, v: Visit, current: map<Id, Entry>, done: set<Id>)
      requires Dated(fs) && Quiet(v) && id in fs.table && (prior.Some? ==> Fresh(fs, id, prior.value))
      requires id !in done && Shown(fs, done, current)
      ensures var (after, found) := VisitJob(fs, prior, id, v);
        found.Some? && after.table.Keys == fs.table.Keys && Shown(after, done + {id}, current[id := found.value])
    {
      QuietVisit(fs, prior, id, v);
    }

    /** Publish a row unless the subscribers have it already. */
    method Publish(prior: Option<Entry>, found: Entry, ghost current: map<Id, Entry>)
      requires prior == Prior(seen, found.row.id) && found.row.id !in current
      requires View(published) == Rows(seen + current)
      modifies this`published
      ensures old(published) <= published
      ensures View(published) == Rows(seen + current[found.row.id := found])
      ensures prior.Some? && prior.value.row == found.row ==> published == old(published)
    {
      var id := found.row.id;
      ghost var view := View(published);
      if prior.None? || prior.value.row != found.row {
        ViewMore(published, Changed(found.row));
        published := published + [Changed(found.row)];
        assert view[id := found.row] == Rows(seen + current[id := found]);
      } else {
        assert view == Rows(seen + current[id := found]);
      }
    }

    /** Publish what is gone and take over the new table. */
    method PublishRemovals(current: map<Id, Entry>)
      requires View(published) == Rows(seen + current)
      modifies this
      ensures seen == current && View(published) == Rows(current) && old(published) <= published
    {
      var gone := seen.Keys - current.Keys;
      while gone != {}
        invariant gone <= seen.Keys - current.Keys
        invariant seen == old(seen) && old(published) <= published
        invariant View(published) == map id | id in (seen + current) && (id in current || id in gone) ::
          (seen + current)[id].row
        decreases gone
      {
        var id :| id in gone;
        ViewMore(published, Removed(id));
        published := published + [Removed(id)];
        gone := gone - {id};
      }
      assert View(published) == Rows(current);
      seen := current;
    }

    /** The loop: ticks with anything in between, skipped while nobody is subscribed. */
    method Loop(disk: Disk, ticks: seq<Plan>)
      requires Valid(disk.fs)
      modifies this, disk
      ensures Valid(disk.fs)
    {
      var k := 0;
      while k < |ticks|
        invariant 0 <= k <= |ticks|
        invariant Valid(disk.fs)
      {
        WritesKeepAllFresh(disk.fs, ticks[k].between, seen);
        disk.fs := AllWritten(disk.fs, ticks[k].between);
        if ticks[k].subscribed {
          Tick(disk, ticks[k].ids, ticks[k].visits);
        }
        k := k + 1;
      }
    }
  }

  /** One turn of the loop: what happens before it, whether anyone listens, what the directory lists, and the visits. */
  datatype Plan = Plan(between: seq<Write>, subscribed: bool, ids: set<Id>, visits: Id -> Visit)
}
