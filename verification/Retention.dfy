/**
 Finished jobs are kept up to a number, newest first. Newest is decided by the `created_at` text,
 so the order of the texts is part of the story: it is the order of time, with one exception.
 */
module Retention {
  import opened Text

  const FINISHED_RETENTION: nat := 100

  // ---------------------------------------------------------------- text order

  /** Python's `<` on strings. */
  predicate Less(a: string, b: string) {
    b != "" && (a == "" || a[0] < b[0] || (a[0] == b[0] && Less(a[1..], b[1..])))
  }

  lemma {:induction false} LessIrreflexive(a: string, b: string)
    ensures Less(a, b) ==> !Less(b, a)
    ensures !Less(a, b) && !Less(b, a) ==> a == b
  {
    if a != "" && b != "" {
      LessIrreflexive(a[1..], b[1..]);
      assert a == [a[0]] + a[1..] && b == [b[0]] + b[1..];
    }
  }

  /**
   One text is less than another when it is a proper beginning of it, or has the smaller character
   where they first differ.
   */
  lemma {:induction false} LessMeans(a: string, b: string)
    ensures Less(a, b) <==> exists k :: DiffersAt(a, b, k)
  {
    if a != "" && b != "" && a[0] == b[0] {
      LessMeans(a[1..], b[1..]);
      if k: nat :| DiffersAt(a, b, k) {
        assert k > 0;
        assert a[1..k] == a[..k][1..] && b[1..k] == b[..k][1..];
        assert a[1..][..k - 1] == a[1..k] && b[1..][..k - 1] == b[1..k];
        assert DiffersAt(a[1..], b[1..], k - 1);
      }
      if k: nat :| DiffersAt(a[1..], b[1..], k) {
        assert a[..k + 1] == [a[0]] + a[1..][..k] && b[..k + 1] == [b[0]] + b[1..][..k];
        assert DiffersAt(a, b, k + 1);
      }
    } else {
      NoCommonStart(a, b);
    }
  }

  predicate DiffersAt(a: string, b: string, k: nat) {
    k <= |a| && k < |b| && a[..k] == b[..k] && (k == |a| || a[k] < b[k])
  }

  lemma NoCommonStart(a: string, b: string)
    requires a == "" || b == "" || a[0] != b[0]
    ensures Less(a, b) <==> exists k :: DiffersAt(a, b, k)
  {
    if Less(a, b) {
      assert DiffersAt(a, b, 0);
    }
    if k: nat :| DiffersAt(a, b, k) && k > 0 {
      CommonStart(a, b, k);
    }
  }

  lemma CommonStart(a: string, b: string, k: nat)
    requires DiffersAt(a, b, k) && k > 0
    ensures a != "" && b != "" && a[0] == b[0]
  {
    assert a[..k][0] == b[..k][0];
  }

  lemma {:induction false} LessTransitive(a: string, b: string, c: string)
    ensures Less(a, b) && !Less(c, b) ==> Less(a, c)
    ensures !Less(b, a) && !Less(c, b) ==> !Less(c, a)
  {
    if a != "" && b != "" && c != "" {
      LessTransitive(a[1..], b[1..], c[1..]);
    }
  }

  lemma {:induction false} LessAfterPrefix(p: string, a: string, b: string)
    ensures Less(p + a, p + b) <==> Less(a, b)
  {
    if p == "" {
      assert p + a == a && p + b == b;
    } else {
      assert (p + a)[1..] == p[1..] + a && (p + b)[1..] == p[1..] + b;
      LessAfterPrefix(p[1..], a, b);
    }
  }

  lemma {:induction false} LessExtends(a: string, b: string, x: string, y: string)
    requires |a| == |b| && Less(a, b)
    ensures Less(a + x, b + y)
  {
    assert (a + x)[1..] == a[1..] + x && (b + y)[1..] == b[1..] + y;
    if a[0] == b[0] {
      LessExtends(a[1..], b[1..], x, y);
    }
  }

  // ---------------------------------------------------------------- the list

  datatype Row = Row(id: string, createdAt: string, active: bool)

  ghost predicate NewestFirst(rows: seq<Row>) {
    forall i, j :: 0 <= i < j < |rows| ==> !Less(rows[i].createdAt, rows[j].createdAt)
  }

  /** Insert behind everything at least as new. */
  function Insert(rows: seq<Row>, row: Row): seq<Row> {
    if rows == [] then [row]
    else if Less(rows[0].createdAt, row.createdAt) then [row] + rows
    else [rows[0]] + Insert(rows[1..], row)
  }

  /** `sorted(..., reverse=True)`: newest first, rows of one text in the order they came. */
  function Sorted(rows: seq<Row>): seq<Row> {
    if rows == [] then [] else Insert(Sorted(rows[..|rows| - 1]), rows[|rows| - 1])
  }

  lemma {:induction false} InsertSorts(rows: seq<Row>, row: Row)
    requires NewestFirst(rows)
    ensures NewestFirst(Insert(rows, row))
    ensures multiset(Insert(rows, row)) == multiset(rows) + multiset{row}
  {
    if rows == [] {
    } else if Less(rows[0].createdAt, row.createdAt) {
      forall j | 0 <= j < |rows| ensures !Less(row.createdAt, rows[j].createdAt) {
        LessIrreflexive(row.createdAt, rows[j].createdAt);
        LessTransitive(rows[0].createdAt, row.createdAt, rows[j].createdAt);
        LessIrreflexive(rows[0].createdAt, row.createdAt);
      }
    } else {
      assert rows == [rows[0]] + rows[1..];
      InsertSorts(rows[1..], row);
      InsertBehind(rows[0], rows[1..], row, Insert(rows[1..], row));
    }
  }

  lemma InsertBehind(first: Row, rest: seq<Row>, row: Row, more: seq<Row>)
    requires NewestFirst([first] + rest) && !Less(first.createdAt, row.createdAt)
    requires NewestFirst(more) && multiset(more) == multiset(rest) + multiset{row}
    ensures NewestFirst([first] + more)
  {
    var rows := [first] + rest;
    forall j | 0 <= j < |more| ensures !Less(first.createdAt, more[j].createdAt) {
      assert more[j] in multiset(more);
      if more[j] != row {
        var k :| 0 <= k < |rest| && rest[k] == more[j];
        assert rows[0] == first && rows[k + 1] == rest[k];
      }
    }
  }

  lemma {:induction false} SortedSorts(rows: seq<Row>)
    ensures NewestFirst(Sorted(rows)) && multiset(Sorted(rows)) == multiset(rows)
  {
    if rows != [] {
      var n := |rows| - 1;
      SortedSorts(rows[..n]);
      InsertSorts(Sorted(rows[..n]), rows[n]);
      assert rows == rows[..n] + [rows[n]];
    }
  }

  lemma {:induction false} FilterSum(a: seq<Row>, b: seq<Row>, keep: Row -> bool)
    ensures Filter(a + b, keep) == Filter(a, keep) + Filter(b, keep)
    decreases |b|
  {
    if b == [] {
      assert a + b == a;
    } else {
      var n := |b| - 1;
      assert (a + b)[..|a + b| - 1] == a + b[..n];
      FilterSum(a, b[..n], keep);
    }
  }

  lemma FilterOne(row: Row, keep: Row -> bool)
    ensures Filter([row], keep) == if keep(row) then [row] else []
  {
    assert [row][..0] == [];
  }

  /** Rows of one text stay in the order they came. */
  lemma {:induction false} SortedKeepsTies(rows: seq<Row>, text: string)
    ensures Filter(Sorted(rows), (r: Row) => r.createdAt == text) == Filter(rows, (r: Row) => r.createdAt == text)
  {
    if rows != [] {
      var n := |rows| - 1;
      SortedKeepsTies(rows[..n], text);
      SortedSorts(rows[..n]);
      InsertKeepsTies(Sorted(rows[..n]), rows[n], (r: Row) => r.createdAt == text, text);
    }
  }

  lemma {:induction false} InsertKeepsTies(rows: seq<Row>, row: Row, same: Row -> bool, text: string)
    requires NewestFirst(rows) && forall r :: same(r) <==> r.createdAt == text
    ensures Filter(Insert(rows, row), same) == Filter(rows, same) + if same(row) then [row] else []
  {
    FilterOne(row, same);
    if rows == [] {
      assert Filter(rows, same) == [];
    } else if Less(rows[0].createdAt, row.createdAt) {
      FilterSum([row], rows, same);
      if same(row) {
        NoneAsNew(rows, row, same);
      }
    } else {
      InsertKeepsTies(rows[1..], row, same, text);
      TiesBehind(rows[0], rows[1..], Insert(rows[1..], row), if same(row) then [row] else [], same);
      assert rows == [rows[0]] + rows[1..];
    }
  }

  lemma TiesBehind(first: Row, rest: seq<Row>, more: seq<Row>, last: seq<Row>, same: Row -> bool)
    requires Filter(more, same) == Filter(rest, same) + last
    ensures Filter([first] + more, same) == Filter([first] + rest, same) + last
  {
    var kept := Filter([first], same);
    FilterSum([first], rest, same);
    FilterSum([first], more, same);
    Associates(kept, Filter(rest, same), last);
  }

  lemma Associates(a: seq<Row>, b: seq<Row>, c: seq<Row>)
    ensures a + (b + c) == (a + b) + c
  {
  }

  lemma {:induction false} NoneAsNew(rows: seq<Row>, row: Row, same: Row -> bool)
    requires NewestFirst(rows) && (rows != [] ==> Less(rows[0].createdAt, row.createdAt))
    requires forall r :: same(r) <==> r.createdAt == row.createdAt
    ensures Filter(rows, same) == []
    decreases |rows|
  {
    if rows != [] {
      var n := |rows| - 1;
      LessTransitive(rows[n].createdAt, rows[0].createdAt, row.createdAt);
      LessIrreflexive(rows[0].createdAt, row.createdAt);
      NoneAsNew(rows[..n], row, same);
    }
  }

  // ---------------------------------------------------------------- what a prune deletes

  function Finished(rows: seq<Row>): seq<Row> {
    Filter(rows, (r: Row) => !r.active)
  }

  function Deleted(rows: seq<Row>): set<string> {
    var finished := Finished(rows);
    set i | FINISHED_RETENTION <= i < |finished| :: finished[i].id
  }

  /** The job directory's readable jobs, and the secrets the daemon holds in memory. */
  class JobStore {
    var table: map<string, Row>
    var held: map<string, string>

    constructor (table: map<string, Row>, held: map<string, string>)
      ensures this.table == table && this.held == held
    {
      this.table, this.held := table, held;
    }

    /** `_prune`: delete past the newest finished jobs, and forget their secrets. */
    method Prune(rows: seq<Row>)
      modifies this
      ensures table == old(table) - Deleted(rows)
      ensures held == old(held) - Deleted(rows)
    {
      var finished := KeepFinished(rows);
      var i := FINISHED_RETENTION;
      ghost var gone: set<string> := {};
      while i < |finished|
        invariant FINISHED_RETENTION <= i
        invariant gone == set k | FINISHED_RETENTION <= k < i && k < |finished| :: finished[k].id
        invariant table == old(table) - gone && held == old(held) - gone
      {
        held := held - {finished[i].id};
        table := table - {finished[i].id};
        gone := gone + {finished[i].id};
        i := i + 1;
      }
      assert gone == Deleted(rows);
    }

    /** What every creation does before it admits: list the directory, newest first, and prune. */
    method MakeRoom(listing: seq<Row>) returns (rows: seq<Row>)
      requires Lists(listing, table)
      modifies this
      ensures Lists(rows, old(table)) && NewestFirst(rows)
      ensures table == old(table) - Deleted(rows) && held == old(held) - Deleted(rows)
      ensures forall id :: id in old(table) && old(table)[id].active ==> id in table
      ensures var n := |FinishedIds(old(table))|; |FinishedIds(table)| == if n < 100 then n else 100
      ensures forall d, k :: d in old(table) && d !in table && k in table && !table[k].active ==>
        !Less(table[k].createdAt, old(table)[d].createdAt)
    {
      rows := Sorted(listing);
      SortedLists(listing, table);
      PruneKeepsNewest(rows, table);
      FinishedCount(rows, table);
      FinishedLeft(table, Deleted(rows));
      Prune(rows);
    }

    method KeepFinished(rows: seq<Row>) returns (finished: seq<Row>)
      ensures finished == Finished(rows)
    {
      finished := [];
      var i := 0;
      while i < |rows|
        invariant 0 <= i <= |rows| && finished == Finished(rows[..i])
      {
        FilterNext(rows, (r: Row) => !r.active, i);
        if !rows[i].active {
          finished := finished + [rows[i]];
        }
        i := i + 1;
      }
      assert rows[..i] == rows;
    }
  }

  // ---------------------------------------------------------------- retention

  /** The rows of a directory, each once. */
  ghost predicate Lists(rows: seq<Row>, table: map<string, Row>) {
    && (forall i, j :: 0 <= i < j < |rows| ==> rows[i].id != rows[j].id)
    && (forall i :: 0 <= i < |rows| ==> rows[i].id in table && table[rows[i].id] == rows[i])
    && (forall id :: id in table ==> table[id] in rows && table[id].id == id)
  }

  /** A sorted listing is still a listing. */
  lemma SortedLists(rows: seq<Row>, table: map<string, Row>)
    requires Lists(rows, table)
    ensures Lists(Sorted(rows), table) && NewestFirst(Sorted(rows))
  {
    SortedSorts(rows);
    var s := Sorted(rows);
    forall r: Row ensures r in rows <==> r in s {
      assert r in rows <==> r in multiset(rows);
      assert r in s <==> r in multiset(s);
    }
    forall i | 0 <= i < |s| ensures s[i].id in table && table[s[i].id] == s[i] {
      assert s[i] in rows;
    }
    OncePerRow(rows);
    forall i, j | 0 <= i < j < |s| ensures s[i].id != s[j].id {
      if s[i].id == s[j].id {
        TwiceCounts(s, i, j);
      }
    }
  }

  lemma {:induction false} OncePerRow(rows: seq<Row>)
    requires forall i, j :: 0 <= i < j < |rows| ==> rows[i].id != rows[j].id
    ensures forall r: Row :: multiset(rows)[r] <= 1
  {
    if rows != [] {
      var n := |rows| - 1;
      OncePerRow(rows[..n]);
      assert rows == rows[..n] + [rows[n]];
      assert rows[n] !in rows[..n];
    }
  }

  lemma TwiceCounts(s: seq<Row>, i: nat, j: nat)
    requires i < j < |s| && s[i] == s[j]
    ensures multiset(s)[s[i]] >= 2
  {
    assert s == s[..j] + s[j..];
    assert s[..j][i] == s[i] && s[j..][0] == s[j];
    assert s[i] in multiset(s[..j]) && s[j] in multiset(s[j..]);
  }

  /** The finished rows of a listing: in its order, each once, none missing. */
  lemma FinishedAt(rows: seq<Row>) returns (at: seq<nat>)
    ensures |at| == |Finished(rows)|
    ensures forall k :: 0 <= k < |at| ==> at[k] < |rows| && Finished(rows)[k] == rows[at[k]] && !rows[at[k]].active
    ensures forall k, l :: 0 <= k < l < |at| ==> at[k] < at[l]
    ensures forall i :: 0 <= i < |rows| && !rows[i].active ==> i in at
  {
    at := FilterPositions(rows, (r: Row) => !r.active);
    assert forall k :: 0 <= k < |at| ==> at[k] in at;
  }

  function FinishedIds(table: map<string, Row>): set<string> {
    set id | id in table && !table[id].active
  }

  lemma FinishedHas(rows: seq<Row>, table: map<string, Row>, l: nat)
    requires Lists(rows, table) && l < |Finished(rows)|
    ensures Finished(rows)[l].id in table && !table[Finished(rows)[l].id].active
  {
    var at := FinishedAt(rows);
    assert rows[at[l]].id in table;
  }

  lemma FinishedListed(rows: seq<Row>, table: map<string, Row>, id: string)
    requires Lists(rows, table)
    ensures id in FinishedIds(table) <==> exists l :: 0 <= l < |Finished(rows)| && Finished(rows)[l].id == id
  {
    var at := FinishedAt(rows);
    if id in FinishedIds(table) {
      var r :| 0 <= r < |rows| && rows[r] == table[id];
      var l :| 0 <= l < |at| && at[l] == r;
      assert Finished(rows)[l].id == id;
    }
    forall l | 0 <= l < |Finished(rows)| ensures Finished(rows)[l].id in FinishedIds(table) {
      FinishedHas(rows, table, l);
    }
  }

  ghost predicate Kept(rows: seq<Row>, table: map<string, Row>, id: string) {
    id in table && id !in Deleted(rows)
  }

  /**
   What one prune keeps. Every active job; exactly the newest `FINISHED_RETENTION` finished ones,
   or all when there are fewer; and nothing deleted is newer than anything finished that is kept.
   */
  lemma PruneKeepsNewest(rows: seq<Row>, table: map<string, Row>)
    requires Lists(rows, table) && NewestFirst(rows)
    ensures forall id :: id in table && table[id].active ==> Kept(rows, table, id)
    ensures forall id :: id in Deleted(rows) ==> id in table && !table[id].active
    ensures |Deleted(rows)| == if |Finished(rows)| > 100 then |Finished(rows)| - 100 else 0
    ensures forall d, k :: d in Deleted(rows) && Kept(rows, table, k) && !table[k].active ==>
      !Less(table[k].createdAt, table[d].createdAt)
  {
    forall d | d in Deleted(rows) ensures d in table && !table[d].active {
      DeletedIsFinished(rows, table, d);
    }
    forall d, k | d in Deleted(rows) && Kept(rows, table, k) && !table[k].active
      ensures !Less(table[k].createdAt, table[d].createdAt)
    {
      DeletedIsOlder(rows, table, d, k);
    }
    var at := FinishedAt(rows);
    DistinctIds(rows, at);
    CountIds(Finished(rows), FINISHED_RETENTION);
  }

  lemma DeletedIsFinished(rows: seq<Row>, table: map<string, Row>, d: string)
    requires Lists(rows, table) && d in Deleted(rows)
    ensures d in table && !table[d].active
  {
    var i :| FINISHED_RETENTION <= i < |Finished(rows)| && Finished(rows)[i].id == d;
    FinishedHas(rows, table, i);
  }

  lemma DeletedIsOlder(rows: seq<Row>, table: map<string, Row>, d: string, k: string)
    requires Lists(rows, table) && NewestFirst(rows)
    requires d in Deleted(rows) && Kept(rows, table, k) && !table[k].active && d in table
    ensures !Less(table[k].createdAt, table[d].createdAt)
  {
    var at := FinishedAt(rows);
    var i :| FINISHED_RETENTION <= i < |Finished(rows)| && Finished(rows)[i].id == d;
    FinishedListed(rows, table, k);
    var l :| 0 <= l < |Finished(rows)| && Finished(rows)[l].id == k;
    assert l < FINISHED_RETENTION;
    assert at[l] < at[i];
    assert table[k] == rows[at[l]] && table[d] == rows[at[i]];
  }

  lemma DistinctIds(rows: seq<Row>, at: seq<nat>)
    requires forall i, j :: 0 <= i < j < |rows| ==> rows[i].id != rows[j].id
    requires |at| == |Finished(rows)|
    requires forall k :: 0 <= k < |at| ==> at[k] < |rows| && Finished(rows)[k] == rows[at[k]]
    requires forall k, l :: 0 <= k < l < |at| ==> at[k] < at[l]
    ensures forall k, l :: 0 <= k < l < |at| ==> Finished(rows)[k].id != Finished(rows)[l].id
  {
  }

  lemma {:induction false} CountIds(rows: seq<Row>, from: nat)
    requires forall i, j :: 0 <= i < j < |rows| ==> rows[i].id != rows[j].id
    ensures |set i | from <= i < |rows| :: rows[i].id| == if |rows| > from then |rows| - from else 0
    decreases |rows|
  {
    var all := set i | from <= i < |rows| :: rows[i].id;
    if |rows| > from {
      var n := |rows| - 1;
      CountIds(rows[..n], from);
      var fewer := set i | from <= i < |rows[..n]| :: rows[..n][i].id;
      assert all == fewer + {rows[n].id} by {
        assert forall i :: from <= i < n ==> rows[..n][i] == rows[i];
      }
      assert rows[n].id !in fewer;
    } else {
      assert all == {};
    }
  }

  lemma FinishedSet(rows: seq<Row>, table: map<string, Row>)
    requires Lists(rows, table)
    ensures (set i | 0 <= i < |Finished(rows)| :: Finished(rows)[i].id) == FinishedIds(table)
  {
    var finished := Finished(rows);
    forall id ensures id in FinishedIds(table) <==> exists l :: 0 <= l < |finished| && finished[l].id == id {
      FinishedListed(rows, table, id);
    }
  }

  lemma FinishedCount(rows: seq<Row>, table: map<string, Row>)
    requires Lists(rows, table)
    ensures |Finished(rows)| == |FinishedIds(table)|
  {
    var at := FinishedAt(rows);
    DistinctIds(rows, at);
    CountIds(Finished(rows), 0);
    FinishedSet(rows, table);
  }

  /** Pruning the result again, whatever order it is listed in, deletes nothing. */
  lemma PruneAgain(rows: seq<Row>, table: map<string, Row>, again: seq<Row>)
    requires Lists(rows, table) && NewestFirst(rows) && Lists(again, table - Deleted(rows))
    ensures Deleted(again) == {}
    ensures |Finished(again)| == if |Finished(rows)| < 100 then |Finished(rows)| else 100
  {
    PruneKeepsNewest(rows, table);
    FinishedCount(rows, table);
    FinishedCount(again, table - Deleted(rows));
    FinishedLeft(table, Deleted(rows));
  }

  lemma FinishedLeft(table: map<string, Row>, gone: set<string>)
    requires forall id :: id in gone ==> id in table && !table[id].active
    ensures |FinishedIds(table - gone)| == |FinishedIds(table)| - |gone|
  {
    assert gone <= FinishedIds(table);
    assert FinishedIds(table - gone) == FinishedIds(table) - gone;
  }

  // ---------------------------------------------------------------- the text of a time

  /** A moment in UTC, in the fields Python's `datetime` has. */
  datatype Moment = Moment(year: nat, month: nat, day: nat, hour: nat, minute: nat, second: nat, micro: nat)

  predicate IsMoment(m: Moment) {
    && 1 <= m.year <= 9999 && 1 <= m.month <= 12 && 1 <= m.day <= 31
    && m.hour < 24 && m.minute < 60 && m.second < 60 && m.micro < 1000000
  }

  /** The fields down to the second, the largest first. */
  function Fields(m: Moment): seq<nat> {
    [m.year, m.month, m.day, m.hour, m.minute, m.second]
  }

  /** The first field in which they differ decides. */
  predicate EarlierFrom(a: seq<nat>, b: seq<nat>, k: nat)
    requires |a| == |b|
    decreases |a| - k
  {
    k < |a| && (a[k] < b[k] || (a[k] == b[k] && EarlierFrom(a, b, k + 1)))
  }

  /** The order of time. */
  predicate Before(a: Moment, b: Moment) {
    EarlierFrom(Fields(a), Fields(b), 0) || (Fields(a) == Fields(b) && a.micro < b.micro)
  }

  /** `n` in `width` digits. */
  function Padded(n: nat, width: nat): (r: string)
    ensures |r| == width
  {
    if width == 0 then "" else Padded(n / 10, width - 1) + ['0' + (n % 10) as char]
  }

  lemma {:induction false} PaddedOrder(a: nat, b: nat, width: nat)
    requires a < b < Pow10(width)
    ensures Less(Padded(a, width), Padded(b, width))
    decreases width
  {
    if width > 0 {
      var x, y := ['0' + (a % 10) as char], ['0' + (b % 10) as char];
      if a / 10 < b / 10 {
        PaddedOrder(a / 10, b / 10, width - 1);
        LessExtends(Padded(a / 10, width - 1), Padded(b / 10, width - 1), x, y);
      } else {
        LessAfterPrefix(Padded(a / 10, width - 1), x, y);
      }
    }
  }

  const WIDTHS: seq<nat> := [4, 2, 2, 2, 2, 2]
  const MARKS: seq<string> := ["-", "-", "T", ":", ":", ""]

  /** The fields from `k` on, in their widths and with their marks: `YYYY-MM-DDTHH:MM:SS`. */
  function Clock(fields: seq<nat>, k: nat): string
    requires |fields| == |WIDTHS|
    decreases |WIDTHS| - k
  {
    if k < |WIDTHS| then Padded(fields[k], WIDTHS[k]) + MARKS[k] + Clock(fields, k + 1) else ""
  }

  function Fraction(micro: nat): string {
    if micro == 0 then "Z" else "." + Padded(micro, 6) + "Z"
  }

  /** `isoformat()` in UTC, with `Z` for the offset: the fraction is written only when there is one. */
  function CreatedAt(m: Moment): string {
    Clock(Fields(m), 0) + Fraction(m.micro)
  }

  /** The text, piece by piece: every field in decimal digits of its width. */
  lemma CreatedAtMeans(m: Moment)
    ensures CreatedAt(m) ==
      (Padded(m.year, 4) + "-" + (Padded(m.month, 2) + "-" + (Padded(m.day, 2) + "T" + (Padded(m.hour, 2) + ":" +
      (Padded(m.minute, 2) + ":" + Padded(m.second, 2)))))) +
      if m.micro == 0 then "Z" else "." + Padded(m.micro, 6) + "Z"
  {
    var fields := Fields(m);
    assert Clock(fields, 6) == "";
    assert Clock(fields, 5) == Padded(m.second, 2) + "" + "" == Padded(m.second, 2);
    assert Clock(fields, 4) == Padded(m.minute, 2) + ":" + Clock(fields, 5);
    assert Clock(fields, 3) == Padded(m.hour, 2) + ":" + Clock(fields, 4);
    assert Clock(fields, 2) == Padded(m.day, 2) + "T" + Clock(fields, 3);
    assert Clock(fields, 1) == Padded(m.month, 2) + "-" + Clock(fields, 2);
    assert Clock(fields, 0) == Padded(m.year, 4) + "-" + Clock(fields, 1);
  }

  lemma {:induction false} PaddedMeans(n: nat, width: nat)
    requires n < Pow10(width)
    ensures AllDigits(Padded(n, width)) && DigitsValue(Padded(n, width)) == n
    decreases width
  {
    if width > 0 {
      PaddedMeans(n / 10, width - 1);
      var s := Padded(n, width);
      assert s[..|s| - 1] == Padded(n / 10, width - 1);
    }
  }

  /** A whole second sorts behind its own fractions. */
  predicate Swapped(a: Moment, b: Moment) {
    Fields(a) == Fields(b) && a.micro == 0 && b.micro != 0
  }

  ghost predicate Fit(fields: seq<nat>) {
    |fields| == |WIDTHS| && forall k :: 0 <= k < |fields| ==> fields[k] < Pow10(WIDTHS[k])
  }

  lemma MomentFits(m: Moment)
    requires IsMoment(m)
    ensures Fit(Fields(m)) && m.micro < Pow10(6)
  {
    assert Pow10(2) == 10 * (10 * Pow10(0)) && Pow10(4) == 10 * (10 * Pow10(2)) && Pow10(6) == 10 * (10 * Pow10(4));
  }

  /**
   Fields of fixed widths: the texts are in the fields' order, whatever follows; equal fields
   leave it to what follows.
   */
  lemma {:induction false} ClockOrder(a: seq<nat>, b: seq<nat>, k: nat, x: string, y: string)
    requires Fit(a) && Fit(b) && k <= |a|
    ensures EarlierFrom(a, b, k) ==> Less(Clock(a, k) + x, Clock(b, k) + y)
    ensures a[k..] == b[k..] ==> (Less(Clock(a, k) + x, Clock(b, k) + y) <==> Less(x, y))
    decreases |a| - k
  {
    if k == |a| {
      assert "" + x == x && "" + y == y;
    } else {
      ClockOrder(a, b, k + 1, x, y);
      assert a[k..] == [a[k]] + a[k + 1..] && b[k..] == [b[k]] + b[k + 1..];
      FieldOrder(a[k], b[k], WIDTHS[k], MARKS[k], Clock(a, k + 1) + x, Clock(b, k + 1) + y);
      Reassociate(Padded(a[k], WIDTHS[k]), MARKS[k], Clock(a, k + 1), x);
      Reassociate(Padded(b[k], WIDTHS[k]), MARKS[k], Clock(b, k + 1), y);
    }
  }

  lemma Reassociate(a: string, b: string, c: string, d: string)
    ensures a + b + c + d == a + (b + (c + d))
  {
  }

  lemma FieldOrder(a: nat, b: nat, width: nat, mark: string, x: string, y: string)
    requires a < Pow10(width) && b < Pow10(width)
    ensures a < b ==> Less(Padded(a, width) + (mark + x), Padded(b, width) + (mark + y))
    ensures a == b ==> (Less(Padded(a, width) + (mark + x), Padded(b, width) + (mark + y)) <==> Less(x, y))
  {
    if a < b {
      PaddedOrder(a, b, width);
      LessExtends(Padded(a, width), Padded(b, width), mark + x, mark + y);
    }
    LessAfterPrefix(Padded(a, width), mark + x, mark + y);
    LessAfterPrefix(mark, x, y);
  }

  /** The fractions of one second: in the order of time, except that none sorts last. */
  lemma FractionOrder(a: nat, b: nat)
    requires a < b < Pow10(6)
    ensures if a == 0 then Less(Fraction(b), Fraction(a)) else Less(Fraction(a), Fraction(b))
  {
    if a != 0 {
      PaddedOrder(a, b, 6);
      LessExtends(Padded(a, 6), Padded(b, 6), "Z", "Z");
      LessAfterPrefix(".", Padded(a, 6) + "Z", Padded(b, 6) + "Z");
      assert "." + (Padded(a, 6) + "Z") == Fraction(a);
      assert "." + (Padded(b, 6) + "Z") == Fraction(b);
    }
  }

  /**
   The order of `created_at` texts is the order of time for two jobs, unless one was created on a
   whole second and the other later within it; then the texts are the wrong way round.
   */
  lemma TextOrderIsTimeOrder(a: Moment, b: Moment)
    requires IsMoment(a) && IsMoment(b) && Before(a, b)
    ensures Less(CreatedAt(a), CreatedAt(b)) <==> !Swapped(a, b)
    ensures Swapped(a, b) ==> Less(CreatedAt(b), CreatedAt(a))
  {
    MomentFits(a);
    MomentFits(b);
    ClockOrder(Fields(a), Fields(b), 0, Fraction(a.micro), Fraction(b.micro));
    ClockOrder(Fields(b), Fields(a), 0, Fraction(b.micro), Fraction(a.micro));
    if !EarlierFrom(Fields(a), Fields(b), 0) {
      FractionOrder(a.micro, b.micro);
      LessIrreflexive(Fraction(a.micro), Fraction(b.micro));
    } else {
      NotSame(Fields(a), Fields(b), 0);
    }
  }

  lemma {:induction false} NotSame(a: seq<nat>, b: seq<nat>, k: nat)
    requires |a| == |b| && EarlierFrom(a, b, k)
    ensures a != b
    decreases |a| - k
  {
    if a[k] == b[k] {
      NotSame(a, b, k + 1);
    }
  }

  /** Such a pair: midnight sharp, and one microsecond later. */
  lemma WholeSecondSortsLast() returns (a: Moment, b: Moment)
    ensures IsMoment(a) && IsMoment(b) && Before(a, b) && Less(CreatedAt(b), CreatedAt(a))
  {
    a, b := Moment(2026, 1, 1, 0, 0, 0, 0), Moment(2026, 1, 1, 0, 0, 0, 1);
    assert Fields(a) == Fields(b);
    TextOrderIsTimeOrder(a, b);
  }

  /**
   Retention in terms of time: a prune deletes a job made later than a finished one it keeps only
   when the kept one was made on a whole second and the deleted one within that second.
   */
  lemma PruneKeepsNewestInTime(rows: seq<Row>, table: map<string, Row>, made: map<string, Moment>, d: string, k: string)
    requires Lists(rows, table) && NewestFirst(rows)
    requires forall id :: id in table ==> id in made && IsMoment(made[id]) && table[id].createdAt == CreatedAt(made[id])
    requires d in Deleted(rows) && Kept(rows, table, k) && !table[k].active
    ensures d in table && (Before(made[k], made[d]) ==> Swapped(made[k], made[d]))
  {
    PruneKeepsNewest(rows, table);
    if Before(made[k], made[d]) {
      TextOrderIsTimeOrder(made[k], made[d]);
    }
  }
}
