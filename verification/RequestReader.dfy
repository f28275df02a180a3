/**
 Reading one request off a byte stream that arrives in arbitrary pieces.

 A `Stream` is what the channel will deliver: the pieces, each available at once when it is
 reached, and then either the end of the stream or silence until the deadline. The bridge must
 not let the cut into pieces decide what the request was. The main results say when it does not:
 for every stream whose head fits the limit, and, at the limit itself, exactly up to which length.
 */
module RequestReader {
  import opened Text
  import opened RequestHead

  const HEAD_LIMIT: nat := 65536
  const BODY_LIMIT: nat := 1048576
  const READ_SIZE: nat := 65536
  const MAX_INT_DIGITS: nat := 4300

  // ---------------------------------------------------------------- the stream

  datatype End = Eof | Stalled

  datatype Stream = Stream(chunks: seq<string>, end: End)

  /** A piece is never empty: an empty read is the end of the stream. */
  ghost predicate Live(s: Stream) {
    forall i :: 0 <= i < |s.chunks| ==> s.chunks[i] != ""
  }

  function Joined(chunks: seq<string>): string {
    if chunks == [] then "" else chunks[0] + Joined(chunks[1..])
  }

  /** Everything the stream will deliver. */
  function Bytes(s: Stream): string {
    Joined(s.chunks)
  }

  /** One read of at most `n` bytes. */
  function Pull(s: Stream, n: nat): (r: (string, Stream))
    requires s.chunks != []
    ensures r.1.end == s.end
  {
    var c := s.chunks[0];
    if |c| <= n then (c, Stream(s.chunks[1..], s.end))
    else (c[..n], Stream([c[n..]] + s.chunks[1..], s.end))
  }

  lemma PullBytes(s: Stream, n: nat)
    requires Live(s) && s.chunks != [] && n > 0
    ensures var (got, rest) := Pull(s, n);
      && 0 < |got| <= n && Live(rest)
      && got + Bytes(rest) == Bytes(s)
  {
    var c, more := s.chunks[0], s.chunks[1..];
    if |c| > n {
      assert c == c[..n] + c[n..];
      var rest := [c[n..]] + more;
      assert rest[1..] == more;
      assert Joined(rest) == c[n..] + Joined(more);
      assert c[..n] + (c[n..] + Joined(more)) == c + Joined(more);
    }
  }

  lemma JoinedCons(first: string, rest: seq<string>)
    ensures Joined([first] + rest) == first + Joined(rest)
  {
    assert ([first] + rest)[1..] == rest;
  }

  // ---------------------------------------------------------------- the head

  /** Where the bridge cuts what it has read: after the blank line, or after a bare double LF. */
  function Cut(buf: string): (r: Option<nat>)
    ensures r.Some? ==> r.value <= |buf|
  {
    match Find(buf, CRLFCRLF)
    case Some(i) => Some(i + 4)
    case None =>
      match Find(buf, LFLF)
      case Some(i) => Some(i + 2)
      case None => None
  }

  datatype HeadRead = HeadRead(head: string, rest: string, stream: Stream)

  /** The line a stream that ended too soon started with. */
  function FirstLine(buf: string): string {
    Strip(match Find(buf, "\n") case Some(i) => buf[..i] case None => buf)
  }

  /** What `ReadHead` returns when `buf` has been read and `s` is still to come. */
  function HeadOf(buf: string, s: Stream): Result<HeadRead, Code>
    requires Live(s)
    decreases |Bytes(s)|
  {
    match Cut(buf)
    case Some(e) => Ok(HeadRead(buf[..e], buf[e..], s))
    case None =>
      if |buf| > HEAD_LIMIT then Err(HeadTooLarge)
      else if s.chunks == [] then
        if s.end == Stalled then Err(HeadTimeout)
        else if MatchRequestLine(FirstLine(buf)).None? then Err(NotHttp)
        else Err(Truncated)
      else
        PullBytes(s, READ_SIZE);
        var (got, rest) := Pull(s, READ_SIZE);
        HeadOf(buf + got, rest)
  }

  // ---------------------------------------------------------------- the body

  function BodyOf(body: string, s: Stream, length: nat): Result<(string, Stream), Code>
    requires Live(s)
    decreases |Bytes(s)|
  {
    if |body| >= length then Ok((body, s))
    else if s.chunks == [] then Err(if s.end == Stalled then BodyTimeout else Truncated)
    else
      var n := if length - |body| < READ_SIZE then length - |body| else READ_SIZE;
      PullBytes(s, n);
      var (got, rest) := Pull(s, n);
      BodyOf(body + got, rest, length)
  }

  function Prefix(s: string, n: nat): (r: string)
    ensures |r| == if n < |s| then n else |s|
  {
    if n < |s| then s[..n] else s
  }

  // ---------------------------------------------------------------- the channel

  /** The channel's standard input: it delivers its stream once. */
  class Channel {
    var stream: Stream

    constructor (s: Stream)
      ensures stream == s
    {
      stream := s;
    }

    /** Wait for something to read; false when nothing came before the deadline. */
    predicate Ready()
      reads this
    {
      stream.chunks != [] || stream.end == Eof
    }

    /** Read at most `n` bytes; the empty string is the end of the stream. */
    method Read(n: nat) returns (chunk: string)
      requires Ready() && Live(stream) && n > 0
      modifies this
      ensures Live(stream) && stream.end == old(stream.end)
      ensures old(stream.chunks) == [] ==> chunk == "" && stream == old(stream)
      ensures old(stream.chunks) != [] ==> (chunk, stream) == Pull(old(stream), n) && chunk != ""
      ensures chunk + Bytes(stream) == Bytes(old(stream))
    {
      if stream.chunks == [] {
        return "";
      }
      PullBytes(stream, n);
      var pulled := Pull(stream, n);
      stream := pulled.1;
      return pulled.0;
    }

    /** Read up to and including the blank line; what came along with it is handed back. */
    method ReadHead() returns (r: Result<(string, string), Code>)
      requires Live(stream)
      modifies this
      ensures Live(stream) && stream.end == old(stream.end)
      ensures match HeadOf("", old(stream))
        case Ok(h) => r == Ok((h.head, h.rest)) && stream == h.stream
        case Err(e) => r == Err(e)
    {
      var buf := "";
      while true
        invariant Live(stream) && stream.end == old(stream.end)
        invariant HeadOf("", old(stream)) == HeadOf(buf, stream)
        decreases |Bytes(stream)|
      {
        var cut := Cut(buf);
        if cut.Some? {
          return Ok((buf[..cut.value], buf[cut.value..]));
        }
        if |buf| > HEAD_LIMIT {
          return Err(HeadTooLarge);
        }
        if !Ready() {
          return Err(HeadTimeout);
        }
        var chunk := Read(READ_SIZE);
        if chunk == "" {
          if MatchRequestLine(FirstLine(buf)).None? {
            return Err(NotHttp);
          }
          return Err(Truncated);
        }
        buf := buf + chunk;
      }
    }

    /** Read exactly `length` bytes of body, counting what came along with the head. */
    method ReadBody(already: string, length: nat) returns (r: Result<string, Code>)
      requires Live(stream)
      modifies this
      ensures Live(stream) && stream.end == old(stream.end)
      ensures match BodyOf(Prefix(already, length), old(stream), length)
        case Ok(b) => r == Ok(b.0) && stream == b.1
        case Err(e) => r == Err(e)
    {
      var body := Prefix(already, length);
      while |body| < length
        invariant Live(stream) && stream.end == old(stream.end)
        invariant BodyOf(Prefix(already, length), old(stream), length) == BodyOf(body, stream, length)
        decreases |Bytes(stream)|
      {
        if !Ready() {
          return Err(BodyTimeout);
        }
        var chunk := Read(if length - |body| < READ_SIZE then length - |body| else READ_SIZE);
        if chunk == "" {
          return Err(Truncated);
        }
        body := body + chunk;
      }
      return Ok(body);
    }
  }

  // ---------------------------------------------------------------- nothing is lost

  /** Head, leftover and unread bytes always concatenate back to the stream. */
  lemma {:induction false} HeadConserves(buf: string, s: Stream)
    requires Live(s) && HeadOf(buf, s).Ok?
    ensures var h := HeadOf(buf, s).value;
      h.head + h.rest + Bytes(h.stream) == buf + Bytes(s) && Live(h.stream) && h.stream.end == s.end
    decreases |Bytes(s)|
  {
    if Cut(buf).None? {
      ReadMore(buf + Bytes(s), buf, s);
      var (got, rest) := Pull(s, READ_SIZE);
      HeadConserves(buf + got, rest);
    } else {
      var e := Cut(buf).value;
      assert buf[..e] + buf[e..] == buf;
    }
  }

  /** The body is the next `length` bytes, whatever the pieces; a short stream is an error. */
  lemma {:induction false} BodyIsPrefix(body: string, s: Stream, length: nat)
    requires Live(s) && |body| <= length
    ensures var all := body + Bytes(s);
      if |all| >= length then
        && BodyOf(body, s, length).Ok?
        && BodyOf(body, s, length).value.0 == all[..length]
        && Bytes(BodyOf(body, s, length).value.1) == all[length..]
      else
        BodyOf(body, s, length) == Err(if s.end == Stalled then BodyTimeout else Truncated)
    decreases |Bytes(s)|
  {
    var all := body + Bytes(s);
    if |body| == length {
      assert all[..length] == body && all[length..] == Bytes(s);
    } else if s.chunks != [] {
      var n := if length - |body| < READ_SIZE then length - |body| else READ_SIZE;
      PullBytes(s, n);
      var (got, rest) := Pull(s, n);
      BodyIsPrefix(body + got, rest, length);
      assert body + got + Bytes(rest) == body + (got + Bytes(rest));
    }
  }

  // ---------------------------------------------------------------- the head does not depend on the pieces

  /** The end of the head: just after the first CRLFCRLF. */
  function HeadEnd(t: string): Option<nat> {
    match Find(t, CRLFCRLF)
    case Some(i) => Some(i + 4)
    case None => None
  }

  /** A bare double LF occurs before the head ends, or there is no head end at all. */
  ghost predicate BareBlankLine(t: string) {
    exists j :: At(t, LFLF, j) && (HeadEnd(t).Some? ==> j + 2 <= HeadEnd(t).value)
  }

  /** A proper prefix of the head holds no cut. */
  lemma NoCutBefore(t: string, n: nat)
    requires n <= |t| && !BareBlankLine(t)
    requires HeadEnd(t).Some? ==> n < HeadEnd(t).value
    ensures Cut(t[..n]).None?
  {
    forall i ensures !At(t[..n], CRLFCRLF, i) {
      AtPrefix(t, n, CRLFCRLF, i);
    }
    forall i ensures !At(t[..n], LFLF, i) {
      AtPrefix(t, n, LFLF, i);
    }
  }

  /** A prefix that reaches the end of the head is cut there. */
  lemma CutAtHeadEnd(t: string, n: nat)
    requires HeadEnd(t).Some? && HeadEnd(t).value <= n <= |t|
    ensures Cut(t[..n]) == HeadEnd(t)
  {
    var i := Find(t, CRLFCRLF).value;
    AtPrefix(t, n, CRLFCRLF, i);
    forall j | 0 <= j < i ensures !At(t[..n], CRLFCRLF, j) {
      AtPrefix(t, n, CRLFCRLF, j);
    }
    FindIs(t[..n], CRLFCRLF, i);
  }

  lemma ReadMore(t: string, buf: string, s: Stream)
    requires Live(s) && t == buf + Bytes(s) && s.chunks != []
    ensures var (got, rest) := Pull(s, READ_SIZE);
      Live(rest) && t == (buf + got) + Bytes(rest) && |buf| < |buf + got| <= |t| && |got| <= READ_SIZE
      && |Bytes(rest)| < |Bytes(s)|
  {
    PullBytes(s, READ_SIZE);
    var (got, rest) := Pull(s, READ_SIZE);
    assert buf + got + Bytes(rest) == buf + (got + Bytes(rest));
  }

  /** Every way of delivering a head within the limit yields that head. */
  lemma {:induction false} HeadWithinLimit(t: string, buf: string, s: Stream)
    requires Live(s) && t == buf + Bytes(s)
    requires HeadEnd(t).Some? && HeadEnd(t).value <= HEAD_LIMIT + 1 && !BareBlankLine(t)
    ensures HeadOf(buf, s).Ok? && HeadOf(buf, s).value.head == t[..HeadEnd(t).value]
    decreases |Bytes(s)|
  {
    var e := HeadEnd(t).value;
    assert buf == t[..|buf|];
    if |buf| < e {
      NoCutBefore(t, |buf|);
      ReadMore(t, buf, s);
      var (got, rest) := Pull(s, READ_SIZE);
      HeadWithinLimit(t, buf + got, rest);
    } else {
      CutAtHeadEnd(t, |buf|);
      assert buf[..e] == t[..e];
    }
  }

  /** Every way of delivering a head longer than one read past the limit is refused. */
  lemma {:induction false} HeadPastReach(t: string, buf: string, s: Stream)
    requires Live(s) && t == buf + Bytes(s) && |buf| <= HEAD_LIMIT + READ_SIZE
    requires HeadEnd(t).Some? && HeadEnd(t).value > HEAD_LIMIT + READ_SIZE && !BareBlankLine(t)
    ensures HeadOf(buf, s) == Err(HeadTooLarge)
    decreases |Bytes(s)|
  {
    assert buf == t[..|buf|];
    NoCutBefore(t, |buf|);
    if |buf| <= HEAD_LIMIT {
      ReadMore(t, buf, s);
      var (got, rest) := Pull(s, READ_SIZE);
      HeadPastReach(t, buf + got, rest);
    }
  }

  /** Every way of delivering a head that never ends meets the same refusal. */
  lemma {:induction false} HeadNeverEnds(t: string, buf: string, s: Stream)
    requires Live(s) && t == buf + Bytes(s)
    requires HeadEnd(t).None? && !BareBlankLine(t)
    ensures HeadOf(buf, s) == Err(EndlessRefusal(t, s.end))
    decreases |Bytes(s)|
  {
    assert buf == t[..|buf|];
    NoCutBefore(t, |buf|);
    if |buf| <= HEAD_LIMIT && s.chunks != [] {
      ReadMore(t, buf, s);
      var (got, rest) := Pull(s, READ_SIZE);
      HeadNeverEnds(t, buf + got, rest);
    } else if s.chunks == [] {
      assert t == buf;
    }
  }

  /** Why bytes without a blank line are refused: too many, too slow, no request at all, or cut short. */
  function EndlessRefusal(t: string, end: End): Code {
    if |t| > HEAD_LIMIT then HeadTooLarge
    else if end == Stalled then HeadTimeout
    else if MatchRequestLine(FirstLine(t)).None? then NotHttp
    else Truncated
  }

  ghost predicate SameHead(a: Result<HeadRead, Code>, b: Result<HeadRead, Code>) {
    if a.Ok? && b.Ok? then a.value.head == b.value.head else a == b
  }

  /** No two deliveries of `t` that end alike give different heads. */
  ghost predicate ChunkingIndependent(t: string) {
    forall a: Stream, b: Stream ::
      Live(a) && Live(b) && Bytes(a) == t && Bytes(b) == t && a.end == b.end ==> SameHead(HeadOf("", a), HeadOf("", b))
  }

  /** In between, one delivery reaches the end of the head in a single last read... */
  lemma GenerousDelivery(t: string)
    requires HeadEnd(t).Some? && HEAD_LIMIT + 1 < HeadEnd(t).value <= HEAD_LIMIT + READ_SIZE && !BareBlankLine(t)
    ensures var s := Stream([t[..HEAD_LIMIT], t[HEAD_LIMIT..]], Eof);
      Live(s) && Bytes(s) == t && HeadOf("", s).Ok?
  {
    var e := HeadEnd(t).value;
    var first, second := t[..HEAD_LIMIT], t[HEAD_LIMIT..];
    var s := Stream([first, second], Eof);
    assert s.chunks[1..] == [second] && [second][1..] == [];
    assert first + second == t && Joined([second]) == second;
    var s1 := Pull(s, READ_SIZE).1;
    assert s1 == Stream([second], Eof);
    NoCutBefore(t, 0);
    assert t[..0] == "" && "" + first == first;
    assert HeadOf("", s) == HeadOf(first, s1);
    NoCutBefore(t, HEAD_LIMIT);
    ReadMore(t, first, s1);
    var (got, s2) := Pull(s1, READ_SIZE);
    var n := |first + got|;
    assert first + got == t[..n];
    assert HeadOf(first, s1) == HeadOf(first + got, s2);
    CutAtHeadEnd(t, n);
  }

  /** ... and another is caught one byte past the limit. */
  lemma GrudgingDelivery(t: string)
    requires HeadEnd(t).Some? && HEAD_LIMIT + 1 < HeadEnd(t).value && !BareBlankLine(t)
    ensures var s := Stream([t[..HEAD_LIMIT], t[HEAD_LIMIT..HEAD_LIMIT + 1], t[HEAD_LIMIT + 1..]], Eof);
      Live(s) && Bytes(s) == t && HeadOf("", s) == Err(HeadTooLarge)
  {
    var first, one, rest := t[..HEAD_LIMIT], t[HEAD_LIMIT..HEAD_LIMIT + 1], t[HEAD_LIMIT + 1..];
    var s := Stream([first, one, rest], Eof);
    JoinedCons(rest, []);
    JoinedCons(one, [rest]);
    JoinedCons(first, [one, rest]);
    assert [one] + [rest] == [one, rest] && [first] + [one, rest] == s.chunks && [rest] + [] == [rest];
    assert s.chunks[1..] == [one, rest] && [one, rest][1..] == [rest];
    assert first + (one + (rest + "")) == t;
    var s1, s2 := Stream([one, rest], Eof), Stream([rest], Eof);
    NoCutBefore(t, 0);
    assert t[..0] == "" && "" + first == first;
    assert HeadOf("", s) == HeadOf(first, s1);
    NoCutBefore(t, HEAD_LIMIT);
    assert HeadOf(first, s1) == HeadOf(first + one, s2);
    NoCutBefore(t, HEAD_LIMIT + 1);
    assert first + one == t[..HEAD_LIMIT + 1];
  }

  /** One delivery of a head out of reach is accepted and another is refused. */
  lemma PiecesDecide(t: string)
    requires HeadEnd(t).Some? && HEAD_LIMIT + 1 < HeadEnd(t).value <= HEAD_LIMIT + READ_SIZE && !BareBlankLine(t)
    ensures !ChunkingIndependent(t)
  {
    GenerousDelivery(t);
    GrudgingDelivery(t);
    var a := Stream([t[..HEAD_LIMIT], t[HEAD_LIMIT..]], Eof);
    var b := Stream([t[..HEAD_LIMIT], t[HEAD_LIMIT..HEAD_LIMIT + 1], t[HEAD_LIMIT + 1..]], Eof);
    assert !SameHead(HeadOf("", a), HeadOf("", b));
  }

  /**
   The exact reach of chunking independence. A head of at most `HEAD_LIMIT` bytes is safe, and so
   is one of `HEAD_LIMIT + 1`; from there up to one full read past the limit, the pieces decide
   whether the request is accepted; beyond that, and when the head never ends, it is always refused.
   */
  lemma ChunkingIndependentExactly(t: string)
    requires !BareBlankLine(t)
    ensures ChunkingIndependent(t) <==> !(HeadEnd(t).Some? && 65537 < HeadEnd(t).value <= 131072)
  {
    assert "" + t == t;
    if HeadEnd(t).None? {
      forall a: Stream | Live(a) && Bytes(a) == t ensures HeadOf("", a) == Err(EndlessRefusal(t, a.end)) {
        HeadNeverEnds(t, "", a);
      }
    } else {
      var e := HeadEnd(t).value;
      forall a: Stream | Live(a) && Bytes(a) == t
        ensures e <= HEAD_LIMIT + 1 ==> HeadOf("", a).Ok? && HeadOf("", a).value.head == t[..e]
        ensures e > HEAD_LIMIT + READ_SIZE ==> HeadOf("", a) == Err(HeadTooLarge)
      {
        if e <= HEAD_LIMIT + 1 {
          HeadWithinLimit(t, "", a);
        } else if e > HEAD_LIMIT + READ_SIZE {
          HeadPastReach(t, "", a);
        }
      }
      if HEAD_LIMIT + 1 < e <= HEAD_LIMIT + READ_SIZE {
        PiecesDecide(t);
      }
    }
  }

  // ---------------------------------------------------------------- a bare blank line is always refused

  lemma {:induction false} BareBlankLineRead(t: string, buf: string, s: Stream)
    requires Live(s) && t == buf + Bytes(s) && BareBlankLine(t)
    ensures HeadOf(buf, s).Ok? ==> Contains(HeadOf(buf, s).value.head, LFLF)
    decreases |Bytes(s)|
  {
    assert buf == t[..|buf|];
    if Cut(buf).None? {
      if |buf| <= HEAD_LIMIT && s.chunks != [] {
        ReadMore(t, buf, s);
        var (got, rest) := Pull(s, READ_SIZE);
        BareBlankLineRead(t, buf + got, rest);
      }
    } else {
      var e := Cut(buf).value;
      if Find(buf, CRLFCRLF).Some? {
        var i := Find(buf, CRLFCRLF).value;
        AtPrefix(t, |buf|, CRLFCRLF, i);
        forall j | 0 <= j < i ensures !At(t, CRLFCRLF, j) {
          AtPrefix(t, |buf|, CRLFCRLF, j);
        }
        FindIs(t, CRLFCRLF, i);
        var j :| At(t, LFLF, j) && j + 2 <= e;
        AtPrefix(t, e, LFLF, j);
        assert buf[..e] == t[..e];
      } else {
        var j := Find(buf, LFLF).value;
        AtPrefix(buf, e, LFLF, j);
      }
    }
  }

  lemma BareBlankLineUnclean(head: string)
    requires Contains(head, LFLF)
    ensures !CleanHead(head)
  {
    var j :| At(head, LFLF, j);
    assert head[j..j + 2][0] == LF && head[j..j + 2][1] == LF;
    assert head[j + 1] == LF && head[j] == LF;
    assert !CleanAt(head, j + 1);
  }

  // ---------------------------------------------------------------- the whole request

  /** Python's `int()` on a header value: an optional sign, then digits with single underscores inside. */
  function Undecorated(s: string): Option<string> {
    if s == "" then None
    else if |s| == 1 then if IsDigit(s[0]) then Some(s) else None
    else if IsDigit(s[0]) && s[1] == '_' then
      match Undecorated(s[2..]) case Some(d) => Some([s[0]] + d) case None => None
    else if IsDigit(s[0]) then
      match Undecorated(s[1..]) case Some(d) => Some([s[0]] + d) case None => None
    else None
  }

  lemma {:induction false} UndecoratedDigits(s: string)
    ensures Undecorated(s).Some? ==> AllDigits(Undecorated(s).value)
    ensures s != "" && AllDigits(s) ==> Undecorated(s) == Some(s)
    decreases |s|
  {
    if |s| > 1 {
      UndecoratedDigits(s[1..]);
      UndecoratedDigits(s[2..]);
      assert s == [s[0]] + s[1..];
    }
  }

  function Concat(pieces: seq<string>): string {
    if pieces == [] then "" else pieces[0] + Concat(pieces[1..])
  }

  predicate IsNumeral(piece: string) {
    piece != "" && AllDigits(piece)
  }

  /** What it reads: runs of digits with single underscores between them, and then the digits. */
  lemma {:induction false} UndecoratedMeans(s: string)
    ensures Undecorated(s) ==
      if forall piece :: piece in Split(s, "_") ==> IsNumeral(piece) then Some(Concat(Split(s, "_"))) else None
    decreases |s|
  {
    var pieces := Split(s, "_");
    match Find(s, "_")
    case None =>
      assert pieces == [s] && Concat([s]) == s + Concat([]) == s by {
        assert [s][1..] == [];
      }
      NoUnderscore(s);
    case Some(i) =>
      var first, rest := s[..i], s[i + 1..];
      UndecoratedMeans(rest);
      assert pieces == [first] + Split(rest, "_");
      assert pieces[1..] == Split(rest, "_");
      assert s[i..i + 1] == "_";
      assert s == first + "_" + rest;
      forall j | 0 <= j < i ensures first[j] != '_' {
        AtChar(s, '_', j);
      }
      UndecoratedCuts(first, rest);
      assert forall piece :: piece in pieces <==> piece == first || piece in Split(rest, "_");
  }

  lemma {:induction false} NoUnderscore(s: string)
    requires Find(s, "_") == None
    ensures Undecorated(s) == if IsNumeral(s) then Some(s) else None
    decreases |s|
  {
    forall j | 0 <= j < |s| ensures s[j] != '_' {
      AtChar(s, '_', j);
    }
    PlainDigits(s);
  }

  lemma {:induction false} PlainDigits(s: string)
    requires '_' !in s
    ensures Undecorated(s) == if IsNumeral(s) then Some(s) else None
    decreases |s|
  {
    if |s| > 1 {
      PlainDigits(s[1..]);
      assert s == [s[0]] + s[1..];
      assert AllDigits(s) <==> IsDigit(s[0]) && AllDigits(s[1..]);
    }
  }

  /** A run of digits, an underscore, and the rest. */
  lemma {:induction false} UndecoratedCuts(first: string, rest: string)
    requires '_' !in first
    ensures Undecorated(first + "_" + rest) ==
      if IsNumeral(first) && Undecorated(rest).Some? then Some(first + Undecorated(rest).value) else None
    decreases |first|
  {
    var s := first + "_" + rest;
    if |first| == 1 {
      assert s[2..] == rest && s[1] == '_';
      if s[0] == '_' || !IsDigit(s[0]) {
      } else if Undecorated(rest).Some? {
        assert [s[0]] + Undecorated(rest).value == first + Undecorated(rest).value;
      }
    } else if |first| > 1 {
      assert s[1..] == first[1..] + "_" + rest && s[1] == first[1];
      UndecoratedCuts(first[1..], rest);
      assert AllDigits(first) <==> IsDigit(first[0]) && AllDigits(first[1..]);
      if Undecorated(rest).Some? {
        assert [first[0]] + (first[1..] + Undecorated(rest).value) == first + Undecorated(rest).value;
      }
    } else {
      assert s[0] == '_';
    }
  }

  function ParseInt(value: string): Option<int> {
    var negative := value != "" && value[0] == '-';
    var digits := if value != "" && (value[0] == '-' || value[0] == '+') then value[1..] else value;
    UndecoratedDigits(digits);
    match Undecorated(digits)
    case None => None
    case Some(d) =>
      if |d| > MAX_INT_DIGITS then None
      else Some(if negative then -(DigitsValue(d) as int) else DigitsValue(d) as int)
  }

  /** The first Content-Length decides; none means no body. */
  function ContentLength(headers: seq<Header>): Result<nat, Code> {
    if headers == [] then Ok(0)
    else if Lower(headers[0].name) == "content-length" then
      match ParseInt(headers[0].value)
      case None => Err(BadLength)
      case Some(n) => if n < 0 then Err(BadLength) else if n > BODY_LIMIT then Err(BodyTooLarge) else Ok(n)
    else ContentLength(headers[1..])
  }

  /** The bridge's `_content_length`. */
  method FindContentLength(headers: seq<Header>) returns (r: Result<nat, Code>)
    ensures r == ContentLength(headers)
  {
    var i := 0;
    while i < |headers|
      invariant 0 <= i <= |headers|
      invariant ContentLength(headers) == ContentLength(headers[i..])
    {
      if Lower(headers[i].name) == "content-length" {
        var n := ParseInt(headers[i].value);
        if n.None? || n.value < 0 {
          return Err(BadLength);
        }
        return if n.value > BODY_LIMIT then Err(BodyTooLarge) else Ok(n.value);
      }
      assert headers[i..][1..] == headers[i + 1..];
      i := i + 1;
    }
    return Ok(0);
  }

  /** The digits of a number, without a sign and at most as many as Python reads. */
  ghost predicate Denotes(digits: string, n: nat) {
    && (forall piece :: piece in Split(digits, "_") ==> IsNumeral(piece))
    && AllDigits(Concat(Split(digits, "_"))) && |Concat(Split(digits, "_"))| <= 4300
    && n == DigitsValue(Concat(Split(digits, "_")))
  }

  /** Python's `int()`: digits in groups, with a sign or without. */
  lemma ParseIntMeans(digits: string, n: nat)
    requires digits == "" || (digits[0] != '-' && digits[0] != '+')
    ensures ParseInt(digits) == Some(n as int) <==> Denotes(digits, n)
    ensures ParseInt("+" + digits) == Some(n as int) <==> Denotes(digits, n)
    ensures ParseInt("-" + digits) == Some(-(n as int)) <==> Denotes(digits, n)
    ensures ParseInt(digits).Some? ==> ParseInt(digits).value >= 0
    ensures ParseInt("-" + digits).Some? ==> ParseInt("-" + digits).value <= 0
  {
    UndecoratedMeans(digits);
    UndecoratedDigits(digits);
    assert ("+" + digits)[1..] == digits && ("-" + digits)[1..] == digits;
  }

  /**
   The first Content-Length is the one that decides, and its value decides as `int()` reads it; without
   one there is no body.
   */
  lemma LengthMeans(headers: seq<Header>, i: nat)
    requires i <= |headers| && forall j :: 0 <= j < i ==> Lower(headers[j].name) != "content-length"
    ensures i == |headers| ==> ContentLength(headers) == Ok(0)
    ensures i < |headers| && Lower(headers[i].name) == "content-length" ==>
      ContentLength(headers) ==
        match ParseInt(headers[i].value)
        case None => Err(BadLength)
        case Some(n) => if n < 0 then Err(BadLength) else if n > 1048576 then Err(BodyTooLarge) else Ok(n)
  {
    if i > 0 {
      assert forall j :: 0 <= j < i - 1 ==> headers[1..][j] == headers[j + 1];
      LengthMeans(headers[1..], i - 1);
      assert i < |headers| ==> headers[1..][i - 1] == headers[i];
    }
  }

  datatype Received = Received(request: Request, body: string)

  /** What follows the parse: length and body, in the bridge's order. */
  function AfterParse(parsed: Result<Request, Code>, rest: string, s: Stream): Result<Received, Code>
    requires Live(s)
  {
    match parsed
    case Err(e) => Err(e)
    case Ok(r) =>
      match ContentLength(r.headers)
      case Err(e) => Err(e)
      case Ok(n) =>
        match BodyOf(Prefix(rest, n), s, n)
        case Err(e) => Err(e)
        case Ok(b) => Ok(Received(r, b.0))
  }

  function Receive(s: Stream): Result<Received, Code>
    requires Live(s)
  {
    match HeadOf("", s)
    case Err(e) => Err(e)
    case Ok(h) =>
      HeadConserves("", s);
      AfterParse(RequestOf(h.head), h.rest, h.stream)
  }

  /** A parsed request with the body that follows position `e` of the bytes. */
  ghost function BytesAfter(parsed: Result<Request, Code>, t: string, e: nat, end: End): Result<Received, Code>
    requires e <= |t|
  {
    match parsed
    case Err(code) => Err(code)
    case Ok(r) =>
      match ContentLength(r.headers)
      case Err(code) => Err(code)
      case Ok(n) =>
        if e + n <= |t| then Ok(Received(r, t[e..e + n]))
        else Err(if end == Stalled then BodyTimeout else Truncated)
  }

  /** What a received request is, said of the stream's bytes alone. */
  ghost function ReceiveBytes(t: string, end: End): Result<Received, Code>
    requires HeadEnd(t).Some?
  {
    var e := HeadEnd(t).value;
    BytesAfter(RequestOf(t[..e]), t, e, end)
  }

  lemma LeftoverBody(t: string, e: nat, rest: string, s: Stream, n: nat)
    requires Live(s) && e <= |t| && rest + Bytes(s) == t[e..]
    ensures var b := BodyOf(Prefix(rest, n), s, n);
      if e + n <= |t| then b.Ok? && b.value.0 == t[e..e + n]
      else b == Err(if s.end == Stalled then BodyTimeout else Truncated)
  {
    var body := Prefix(rest, n);
    BodyIsPrefix(body, s, n);
    if n < |rest| {
      assert BodyOf(body, s, n).value.0 == body == rest[..n];
      assert rest == t[e..e + |rest|];
    } else {
      assert (body + Bytes(s)) == t[e..];
      if e + n <= |t| {
        assert t[e..][..n] == t[e..e + n];
      }
    }
  }

  lemma AfterParseBytes(parsed: Result<Request, Code>, t: string, e: nat, rest: string, s: Stream)
    requires Live(s) && e <= |t| && rest + Bytes(s) == t[e..]
    ensures AfterParse(parsed, rest, s) == BytesAfter(parsed, t, e, s.end)
  {
    if parsed.Ok? && ContentLength(parsed.value.headers).Ok? {
      LeftoverBody(t, e, rest, s, ContentLength(parsed.value.headers).value);
    }
  }

  /**
   Chunking independence of the whole request: when the head is within the limit, the request,
   its body of exactly Content-Length bytes, and any refusal are functions of the bytes and of
   how the stream ended, never of the pieces. When a bare blank line comes first, every delivery
   is refused.
   */
  lemma ReceiveIgnoresChunking(s: Stream)
    requires Live(s)
    ensures BareBlankLine(Bytes(s)) ==> Receive(s).Err?
    ensures !BareBlankLine(Bytes(s)) && HeadEnd(Bytes(s)).Some? && HeadEnd(Bytes(s)).value <= 65537 ==>
      Receive(s) == ReceiveBytes(Bytes(s), s.end)
  {
    var t := Bytes(s);
    assert "" + t == t;
    if BareBlankLine(t) {
      RefusedWhenBare(t, s);
    } else if HeadEnd(t).Some? && HeadEnd(t).value <= HEAD_LIMIT + 1 {
      ReceiveWithinLimit(t, s);
    }
  }

  lemma ReceiveWithinLimit(t: string, s: Stream)
    requires Live(s) && t == Bytes(s) && !BareBlankLine(t)
    requires HeadEnd(t).Some? && HeadEnd(t).value <= HEAD_LIMIT + 1
    ensures Receive(s) == ReceiveBytes(t, s.end)
  {
    assert "" + t == t;
    HeadWithinLimit(t, "", s);
    HeadConserves("", s);
    var h, e := HeadOf("", s).value, HeadEnd(t).value;
    LeftBehind(h.head, h.rest, Bytes(h.stream), t, e);
    AfterParseBytes(RequestOf(h.head), t, e, h.rest, h.stream);
  }

  lemma LeftBehind(head: string, rest: string, unread: string, t: string, e: nat)
    requires head + rest + unread == t && e <= |t| && head == t[..e]
    ensures rest + unread == t[e..]
  {
    assert t == head + (rest + unread);
  }

  /** Out of reach or without end, a head is refused for the same reason in every delivery. */
  lemma RefusedAlike(s: Stream)
    requires Live(s) && !BareBlankLine(Bytes(s))
    ensures HeadEnd(Bytes(s)).None? ==> Receive(s) == Err(EndlessRefusal(Bytes(s), s.end))
    ensures HeadEnd(Bytes(s)).Some? && HeadEnd(Bytes(s)).value > 131072 ==> Receive(s) == Err(HeadTooLarge)
  {
    var t := Bytes(s);
    assert "" + t == t;
    if HeadEnd(t).None? {
      HeadNeverEnds(t, "", s);
    } else if HeadEnd(t).value > HEAD_LIMIT + READ_SIZE {
      HeadPastReach(t, "", s);
    }
  }

  /** The head ends behind the first CRLFCRLF. */
  lemma HeadEndMeans(t: string, e: nat)
    ensures HeadEnd(t) == Some(e) <==>
      e >= 4 && At(t, "\r\n\r\n", e - 4) && forall j :: 0 <= j < e - 4 ==> !At(t, "\r\n\r\n", j)
  {
    if e >= 4 && At(t, CRLFCRLF, e - 4) && forall j :: 0 <= j < e - 4 ==> !At(t, CRLFCRLF, j) {
      FindIs(t, CRLFCRLF, e - 4);
    }
  }

  /** What has been read is cut behind the first CRLFCRLF, or, when it has none, behind the first double LF. */
  lemma CutMeans(buf: string, e: nat)
    ensures Cut(buf) == Some(e) <==>
      if Contains(buf, "\r\n\r\n") then HeadEnd(buf) == Some(e)
      else e >= 2 && At(buf, "\n\n", e - 2) && forall j :: 0 <= j < e - 2 ==> !At(buf, "\n\n", j)
  {
    if e >= 2 && At(buf, LFLF, e - 2) && forall j :: 0 <= j < e - 2 ==> !At(buf, LFLF, j) {
      FindIs(buf, LFLF, e - 2);
    }
    if Find(buf, CRLFCRLF).Some? {
      assert At(buf, CRLFCRLF, Find(buf, CRLFCRLF).value);
    }
  }

  /** A bare double LF comes before the end of the head, or there is one and the head never ends. */
  lemma BareBlankLineMeans(t: string)
    ensures BareBlankLine(t) <==>
      exists j :: At(t, "\n\n", j) && (HeadEnd(t).None? || j + 2 <= HeadEnd(t).value)
  {
  }

  /** The line before the first LF, or everything when there is none, without the blanks around it. */
  lemma FirstLineMeans(line: string, rest: string)
    requires '\n' !in line
    ensures FirstLine(line + "\n" + rest) == Strip(line) && FirstLine(line) == Strip(line)
  {
    var s := line + "\n" + rest;
    forall j | 0 <= j < |line| ensures !At(s, "\n", j) && !At(line, "\n", j) {
      AtChar(s, '\n', j);
      AtChar(line, '\n', j);
    }
    assert s[|line|..|line| + 1] == "\n";
    FindIs(s, "\n", |line|);
    assert s[..|line|] == line;
    FindNone(line, "\n");
  }

  /** How bytes without a blank line are refused. */
  lemma EndlessMeans(t: string, end: End)
    ensures EndlessRefusal(t, end) ==
      if |t| > 65536 then HeadTooLarge
      else if end == Stalled then HeadTimeout
      else if HasRequestLine(FirstLine(t)) then Truncated
      else NotHttp
  {
    NoRequestLine(FirstLine(t));
  }

  lemma RefusedWhenBare(t: string, s: Stream)
    requires Live(s) && t == Bytes(s) && BareBlankLine(t)
    ensures Receive(s).Err?
  {
    assert "" + t == t;
    BareBlankLineRead(t, "", s);
    if HeadOf("", s).Ok? {
      var h := HeadOf("", s).value;
      HeadConserves("", s);
      BareBlankLineUnclean(h.head);
      assert RequestOf(h.head).Err?;
    }
  }
}
