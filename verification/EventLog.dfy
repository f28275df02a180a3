/**
 The event log of a job: a file of numbered lines with one writer, read by position.

 Reading skips `after` lines before it looks at a number. That is right only because line k of
 every log carries number k + 1, and only for as long as it does.
 */
module EventLog {
  import opened Text

  datatype Event = Event(number: nat, data: string)

  /** A line of the file; a line that does not parse, such as one still being written, is torn. */
  datatype Line = Row(event: Event) | Torn

  ghost predicate Numbered(lines: seq<Line>) {
    forall k :: 0 <= k < |lines| ==> lines[k].Row? ==> lines[k].event.number == k + 1
  }

  /** Every event of the file with a number past `after`, in order. */
  function Past(lines: seq<Line>, after: nat): (r: seq<Event>)
    ensures forall k :: 0 <= k < |r| ==> r[k].number > after
  {
    if lines == [] then []
    else
      var n := |lines| - 1;
      Past(lines[..n], after) +
        if lines[n].Row? && lines[n].event.number > after then [lines[n].event] else []
  }

  function Skip(lines: seq<Line>, n: nat): (r: seq<Line>)
    ensures |r| == if n < |lines| then |lines| - n else 0
  {
    if n < |lines| then lines[n..] else []
  }

  /** How many rows a limit leaves out. */
  function LeftOut(n: nat, limit: Option<int>): nat {
    if limit.Some? && 0 <= limit.value < n then n - limit.value else 0
  }

  /** The code's `_events`. */
  method Events(lines: seq<Line>, after: nat, limit: Option<int>) returns (rows: seq<Event>, skipped: nat)
    ensures var all := Past(Skip(lines, after), after);
      skipped == LeftOut(|all|, limit) && rows == all[skipped..]
    ensures limit.None? || limit.value < 0 ==> skipped == 0
    ensures limit.Some? && limit.value >= 0 ==>
      |rows| <= limit.value && (skipped > 0 ==> |rows| == limit.value)
    ensures |rows| + skipped == |Past(Skip(lines, after), after)|
  {
    var slice := Skip(lines, after);
    rows := [];
    var i := 0;
    while i < |slice|
      invariant 0 <= i <= |slice|
      invariant rows == Past(slice[..i], after)
    {
      assert slice[..i + 1][..i] == slice[..i];
      if slice[i].Row? && slice[i].event.number > after {
        rows := rows + [slice[i].event];
      }
      i := i + 1;
    }
    assert slice[..i] == slice;
    skipped := 0;
    if limit.Some? && limit.value >= 0 && |rows| > limit.value {
      skipped := |rows| - limit.value;
      rows := rows[|rows| - limit.value..];
    }
  }

  lemma {:induction false} PastAppends(a: seq<Line>, b: seq<Line>, after: nat)
    ensures Past(a + b, after) == Past(a, after) + Past(b, after)
    decreases |b|
  {
    if b == [] {
      assert a + b == a;
    } else {
      var n := |b| - 1;
      assert (a + b)[..|a + b| - 1] == a + b[..n];
      PastAppends(a, b[..n], after);
    }
  }

  lemma {:induction false} NothingBefore(lines: seq<Line>, after: nat)
    requires Numbered(lines) && |lines| <= after
    ensures Past(lines, after) == []
    decreases |lines|
  {
    if lines != [] {
      assert Numbered(lines[..|lines| - 1]);
      NothingBefore(lines[..|lines| - 1], after);
    }
  }

  /** What is read of a log, line by line: a row past the number, and nothing of any other line. */
  lemma PastOfLine(e: Event, after: nat)
    ensures Past([Row(e)], after) == if e.number > after then [e] else []
    ensures Past([Torn], after) == [] && Past([], after) == []
  {
    assert [Row(e)][..0] == [] && [Torn][..0] == [];
  }

  /** Reading starts behind the first `n` lines; there may be fewer. */
  lemma SkipMeans(lines: seq<Line>, n: nat)
    ensures n <= |lines| ==> lines[..n] + Skip(lines, n) == lines
    ensures n >= |lines| ==> Skip(lines, n) == []
  {
  }

  /** On a numbered log, skipping by position and then filtering is filtering the whole file. */
  lemma SliceIsFilter(lines: seq<Line>, after: nat)
    requires Numbered(lines)
    ensures Past(Skip(lines, after), after) == Past(lines, after)
  {
    if after < |lines| {
      assert lines == lines[..after] + lines[after..];
      PastAppends(lines[..after], lines[after..], after);
      NothingBefore(lines[..after], after);
    } else {
      NothingBefore(lines, after);
    }
  }

  /** The numbering is needed: one lost line is enough for the two to differ. */
  lemma UnnumberedDiffers()
    ensures var lines := [Row(Event(2, "b"))]; Past(Skip(lines, 1), 1) != Past(lines, 1)
  {
    var lines := [Row(Event(2, "b"))];
    assert lines[..0] == [];
    assert Past(lines, 1) == [Event(2, "b")];
  }

  /** A log without torn lines gives back every number past `after`, each once and in order. */
  lemma {:induction false} PastIsComplete(lines: seq<Line>, after: nat)
    requires Numbered(lines) && forall k :: 0 <= k < |lines| ==> lines[k].Row?
    ensures |Past(lines, after)| == |Skip(lines, after)|
    ensures forall k :: 0 <= k < |Past(lines, after)| ==> Past(lines, after)[k] == lines[after + k].event
    decreases |lines|
  {
    if lines != [] {
      assert Numbered(lines[..|lines| - 1]);
      PastIsComplete(lines[..|lines| - 1], after);
    }
  }

  // ---------------------------------------------------------------- a log that grows

  /** A later state of the same log: lines are appended, and a torn last line may since have been completed. */
  ghost predicate Grown(a: seq<Line>, b: seq<Line>) {
    && |a| <= |b|
    && forall k :: 0 <= k < |a| ==> a[k] == b[k] || (k == |a| - 1 && a[k].Torn?)
  }

  /** What was read stays a prefix of what can be read. */
  lemma GrownReads(a: seq<Line>, b: seq<Line>, after: nat)
    requires Grown(a, b)
    ensures Past(a, after) <= Past(b, after)
  {
    var n := if a != [] && a[|a| - 1].Torn? then |a| - 1 else |a|;
    assert a[..n] == b[..n];
    assert b == b[..n] + b[n..];
    PastAppends(b[..n], b[n..], after);
    if n < |a| {
      assert Past(a, after) == Past(a[..n], after) + [];
    } else {
      assert a[..n] == a;
    }
  }

  /**
   The page opens a long job on a tail and fetches the rest later, when the log has grown: the
   first `skipped` rows of the later fetch, then the tail, are exactly the rows of the earlier log,
   and the later fetch continues them.
   */
  lemma TailThenRest(lines: seq<Line>, later: seq<Line>, after: nat, limit: Option<int>)
    requires Numbered(lines) && Numbered(later) && Grown(lines, later)
    ensures var all, full := Past(Skip(lines, after), after), Past(Skip(later, after), after);
      var skipped := LeftOut(|all|, limit);
      && skipped + |all[skipped..]| == |Past(lines, after)|
      && skipped <= |full| && full[..skipped] + all[skipped..] == Past(lines, after)
      && Past(lines, after) <= full
  {
    SliceIsFilter(lines, after);
    SliceIsFilter(later, after);
    GrownReads(lines, later, after);
    var all, full := Past(lines, after), Past(later, after);
    var skipped := LeftOut(|all|, limit);
    assert full[..skipped] == all[..skipped];
    assert all[..skipped] + all[skipped..] == all;
  }
}
