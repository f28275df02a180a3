/**
 One channel of the bridge, from standard input to the bytes the daemon receives: the grant
 check, the gates in order, and the forward.

 The functions of other parts of the system are parameters, so the results hold for any of them:
 how a line of `authorized_keys` reads, a key's fingerprint, how a target's path is taken, how a
 body decodes as JSON, and what stripping a Unicode string leaves.
 */
module Bridge {
  import opened Text
  import opened Json
  import opened RequestHead
  import opened RequestReader
  import opened Rewrite

  // ---------------------------------------------------------------- the grant

  const BRIDGE_MODULE: string := "caffeinated_whale_cli.bridge"

  /**
   A line of `authorized_keys` that has the shape of a grant; `command` is None when it does not
   split as a shell line.
   */
  datatype GrantLine = GrantLine(command: Option<seq<string>>, blob: string, hub: string)

  datatype Parts = Parts(
    grantLine: string -> Option<GrantLine>,
    fingerprint: string -> Option<string>,
    pathOf: string -> string,
    decode: string -> Option<Json>,
    strip: string -> string)

  /** This channel's own command line. */
  datatype Args = Args(hub: string, cap: Role, keyFp: string, argv: seq<string>)

  predicate Grants(p: Parts, args: Args, line: string) {
    match p.grantLine(line)
    case None => false
    case Some(g) =>
      && g.hub == args.hub
      && g.command.Some? && |g.command.value| >= 3
      && g.command.value[1..3] == ["-m", BRIDGE_MODULE]
      && g.command.value[3..] == args.argv
      && p.fingerprint(g.blob) == Some(args.keyFp)
  }

  /** The file can be read and carries this channel's own grant. */
  ghost predicate Granted(p: Parts, args: Args, keys: Option<seq<string>>) {
    keys.Some? && exists line :: line in keys.value && Grants(p, args, line)
  }

  /** The bridge's `still_allowed`: a scan for the grant; an unreadable file is a missing one. */
  method StillAllowed(p: Parts, args: Args, keys: Option<seq<string>>) returns (ok: bool)
    ensures ok <==> Granted(p, args, keys)
  {
    if keys.None? {
      return false;
    }
    var lines := keys.value;
    var i := 0;
    while i < |lines|
      invariant 0 <= i <= |lines|
      invariant forall j :: 0 <= j < i ==> !Grants(p, args, lines[j])
    {
      if Grants(p, args, lines[i]) {
        return true;
      }
      i := i + 1;
    }
    return false;
  }

  /** A line another hub's grant, or no grant at all, could be. */
  ghost predicate Foreign(p: Parts, args: Args, line: string) {
    p.grantLine(line).None? || p.grantLine(line).value.hub != args.hub
  }

  /**
   The verdict depends only on which of this hub's own lines are in the file: not on their order,
   not on repeats, not on any other line.
   */
  lemma GrantIsOwnLines(p: Parts, args: Args, a: seq<string>, b: seq<string>)
    requires forall line :: !Foreign(p, args, line) ==> (line in a <==> line in b)
    ensures Granted(p, args, Some(a)) <==> Granted(p, args, Some(b))
  {
    if Granted(p, args, Some(a)) {
      var line :| line in a && Grants(p, args, line);
      assert !Foreign(p, args, line);
    }
    if Granted(p, args, Some(b)) {
      var line :| line in b && Grants(p, args, line);
      assert !Foreign(p, args, line);
    }
  }

  // ---------------------------------------------------------------- code changes

  const JOBS_PATH: string := "/api/v1/jobs"
  const INTEGRATIONS_PATH: string := "/api/v1/integrations"
  const BRIDGE_PATH: string := "/api/v1/bridge"

  /** The payload field a POST to `path` names its operation in, and the values a hub may never send. */
  function Rule(path: string): Option<(string, set<string>)> {
    if path == INTEGRATIONS_PATH then Some(("op", {"community_add", "community_update"}))
    else if path == JOBS_PATH then Some(("verb", {"self-update"}))
    else None
  }

  function Field(payload: Option<Json>, key: string): Option<Json> {
    match payload
    case Some(Obj(fields)) => if key in fields then Some(fields[key]) else None
    case _ => None
  }

  /** The operation a POST names, when the path has a rule and the payload names one. */
  function Named(path: string, payload: Option<Json>): Option<Json> {
    match Rule(path)
    case None => None
    case Some(rule) => Field(payload, rule.0)
  }

  predicate CodeChange(path: string, payload: Option<Json>) {
    match Named(path, payload)
    case Some(Str(s)) => s in Rule(path).value.1
    case _ => false
  }

  predicate Canonical(p: Parts, path: string, payload: Option<Json>) {
    match Named(path, payload)
    case None => true
    case Some(Str(s)) => s != "" && s == p.strip(s)
    case Some(_) => false
  }

  /** The daemon's `job_verb`: the value itself when it is a known verb exactly. */
  function JobVerb(allowed: set<string>, value: Option<Json>): Option<string> {
    match value
    case Some(Str(s)) => if s in allowed then Some(s) else None
    case _ => None
  }

  // ---------------------------------------------------------------- one channel

  datatype Endpoint = Endpoint(port: nat, token: string)

  /**
   What a channel leaves behind: its exit code, the refusal written to the hub, whether it
   answered itself, the bytes sent to the daemon.
   */
  datatype Outcome = Outcome(exit: int, refused: Option<Code>, answered: bool, sent: Option<string>)

  function Refuse(code: Code): Outcome {
    Outcome(1, Some(code), false, None)
  }

  const SILENT: Outcome := Outcome(2, None, false, None)

  /** Refusals of what is not a request at all: nothing is written to standard output. */
  predicate IsSilent(code: Code) {
    code in {NotHttp, Truncated, HeadTimeout, BadHeader, DelegationRepeated}
  }

  predicate AsksTheBridge(r: Request) {
    r.httpMethod == "GET" && Split(r.target, "?")[0] == BRIDGE_PATH
  }

  function IdentityOf(args: Args, daemon: Endpoint): Identity {
    Identity(args.hub, args.cap, daemon.port, daemon.token)
  }

  /** The gates between a whole request and the daemon. */
  ghost function PipeOf(p: Parts, args: Args, daemon: Option<Endpoint>, got: Received): Outcome {
    var r := got.request;
    var path, payload := p.pathOf(r.target), p.decode(got.body);
    if RefusedTarget(r.target) then Refuse(PathRefused)
    else if r.httpMethod == "POST" && !Canonical(p, path, payload) then Refuse(NotCanonical)
    else if r.httpMethod == "POST" && CodeChange(path, payload) then Refuse(CodeChangeRefused)
    else
      match daemon
      case None => Outcome(0, Some(DaemonDown), false, None)
      case Some(d) =>
        match Forwarded(r, IdentityOf(args, d), |got.body|)
        case Err(code) => Refuse(code)
        case Ok(f) => Outcome(0, None, false, Some(PrintHead(f) + got.body))
  }

  ghost function AfterGrant(p: Parts, args: Args, daemon: Option<Endpoint>, got: Result<Received, Code>): Outcome {
    match got
    case Err(code) => Refuse(code)
    case Ok(g) => if AsksTheBridge(g.request) then Outcome(0, None, true, None) else PipeOf(p, args, daemon, g)
  }

  /** What a channel does, from the stream it was given. */
  ghost function MainOf(p: Parts, args: Args, command: bool, s: Stream, keys: Option<seq<string>>,
      daemon: Option<Endpoint>): Outcome
    requires Live(s)
  {
    if command then SILENT
    else
      match HeadOf("", s)
      case Err(code) => if IsSilent(code) then SILENT else Refuse(code)
      case Ok(h) =>
        match RequestOf(h.head)
        case Err(code) => if IsSilent(code) then SILENT else Refuse(code)
        case Ok(r) =>
          if !Granted(p, args, keys) then Refuse(Revoked)
          else
            HeadConserves("", s);
            AfterGrant(p, args, daemon, AfterParse(Ok(r), h.rest, h.stream))
  }

  /** The bridge's `_pipe`. */
  method Pipe(p: Parts, args: Args, daemon: Option<Endpoint>, got: Received) returns (out: Outcome)
    ensures out == PipeOf(p, args, daemon, got)
  {
    var r := got.request;
    if RefusedTarget(r.target) {
      return Refuse(PathRefused);
    }
    if r.httpMethod == "POST" {
      var path, payload := p.pathOf(r.target), p.decode(got.body);
      if !Canonical(p, path, payload) {
        return Refuse(NotCanonical);
      }
      if CodeChange(path, payload) {
        return Refuse(CodeChangeRefused);
      }
    }
    if daemon.None? {
      return Outcome(0, Some(DaemonDown), false, None);
    }
    var headers := RewriteHeaders(r, IdentityOf(args, daemon.value), |got.body|);
    if headers.Err? {
      return Refuse(headers.error);
    }
    return Outcome(0, None, false, Some(PrintHead(Request(r.httpMethod, r.target, headers.value)) + got.body));
  }

  /** The bridge's `main`: one request, the gates in order. */
  method RunChannel(p: Parts, args: Args, command: bool, channel: Channel, keys: Option<seq<string>>,
      daemon: Option<Endpoint>)
    returns (out: Outcome)
    requires Live(channel.stream)
    modifies channel
    ensures out == MainOf(p, args, command, old(channel.stream), keys, daemon)
    ensures command ==> channel.stream == old(channel.stream)
  {
    if command {
      return SILENT;
    }
    ghost var s := channel.stream;
    var read := channel.ReadHead();
    if read.Err? {
      return if IsSilent(read.error) then SILENT else Refuse(read.error);
    }
    var (head, rest) := read.value;
    var parsed := ParseRequest(head);
    if parsed.Err? {
      return if IsSilent(parsed.error) then SILENT else Refuse(parsed.error);
    }
    var allowed := StillAllowed(p, args, keys);
    if !allowed {
      return Refuse(Revoked);
    }
    var got := ReceiveRest(parsed.value, rest, channel);
    if got.Err? {
      return Refuse(got.error);
    }
    if AsksTheBridge(parsed.value) {
      return Outcome(0, None, true, None);
    }
    out := Pipe(p, args, daemon, got.value);
  }

  /** The length, then the body when there is one. */
  method ReceiveRest(r: Request, rest: string, channel: Channel) returns (got: Result<Received, Code>)
    requires Live(channel.stream)
    modifies channel
    ensures got == AfterParse(Ok(r), rest, old(channel.stream))
    ensures got.Ok? ==> got.value.request == r
  {
    var length := FindContentLength(r.headers);
    if length.Err? {
      return Err(length.error);
    }
    if length.value == 0 {
      return Ok(Received(r, ""));
    }
    var body := channel.ReadBody(rest, length.value);
    if body.Err? {
      return Err(body.error);
    }
    return Ok(Received(r, body.value));
  }

  // ---------------------------------------------------------------- the gates, spelled out

  /**
   A line that grants: this hub's, for this key, whose command is any Python running the bridge with
   these very arguments.
   */
  ghost predicate GrantsAs(p: Parts, args: Args, line: string, g: GrantLine, python: string) {
    && p.grantLine(line) == Some(g) && g.hub == args.hub
    && g.command == Some([python, "-m", "caffeinated_whale_cli.bridge"] + args.argv)
    && p.fingerprint(g.blob) == Some(args.keyFp)
  }

  /** The channel is granted exactly when the file can be read and has such a line. */
  lemma GrantMeans(p: Parts, args: Args, keys: Option<seq<string>>)
    ensures Granted(p, args, keys) <==>
      keys.Some? && exists line, g, python :: line in keys.value && GrantsAs(p, args, line, g, python)
  {
    if Granted(p, args, keys) {
      var line :| line in keys.value && Grants(p, args, line);
      LineGrants(p, args, line);
    }
    if keys.Some? {
      forall line, g, python | line in keys.value && GrantsAs(p, args, line, g, python) ensures Grants(p, args, line) {
        CommandReads(g.command.value, python, args.argv);
      }
    }
  }

  lemma CommandReads(command: seq<string>, python: string, argv: seq<string>)
    requires command == [python, "-m", BRIDGE_MODULE] + argv
    ensures |command| >= 3 && command[1..3] == ["-m", BRIDGE_MODULE] && command[3..] == argv
  {
  }

  lemma LineGrants(p: Parts, args: Args, line: string)
    requires Grants(p, args, line)
    ensures exists g, python :: GrantsAs(p, args, line, g, python)
  {
    var g := p.grantLine(line).value;
    var command := g.command.value;
    assert command == [command[0]] + command[1..3] + command[3..];
    assert command == [command[0], "-m", BRIDGE_MODULE] + args.argv;
    assert GrantsAs(p, args, line, g, command[0]);
  }

  /** The payload is an object that holds `v` under `key`. */
  ghost predicate Holds(payload: Option<Json>, key: string, v: Json) {
    payload.Some? && payload.value.Obj? && key in payload.value.fields && payload.value.fields[key] == v
  }

  lemma FieldMeans(payload: Option<Json>, key: string, v: Json)
    ensures Field(payload, key) == Some(v) <==> Holds(payload, key, v)
  {
  }

  lemma JobVerbMeans(allowed: set<string>, value: Option<Json>, v: string)
    ensures JobVerb(allowed, value) == Some(v) <==> value == Some(Str(v)) && v in allowed
  {
  }

  /** Whatever stands under `key` is a non-empty string with nothing around it. */
  ghost predicate ExactUnder(p: Parts, payload: Option<Json>, key: string) {
    forall v :: Holds(payload, key, v) ==> v.Str? && v.s != "" && v.s == p.strip(v.s)
  }

  /** The operation or the verb a POST names is sent exactly. */
  ghost predicate SentExact(p: Parts, path: string, payload: Option<Json>) {
    && (path == "/api/v1/integrations" ==> ExactUnder(p, payload, "op"))
    && (path == "/api/v1/jobs" ==> ExactUnder(p, payload, "verb"))
  }

  /** A POST that would install or update foreign code, or replace the program itself. */
  ghost predicate ChangesCode(path: string, payload: Option<Json>) {
    || (path == "/api/v1/integrations"
        && (Holds(payload, "op", Str("community_add")) || Holds(payload, "op", Str("community_update"))))
    || (path == "/api/v1/jobs" && Holds(payload, "verb", Str("self-update")))
  }

  lemma PathsDiffer()
    ensures INTEGRATIONS_PATH != JOBS_PATH
  {
    assert INTEGRATIONS_PATH[8] != JOBS_PATH[8];
  }

  lemma CanonicalMeans(p: Parts, path: string, payload: Option<Json>)
    ensures Canonical(p, path, payload) <==> SentExact(p, path, payload)
  {
    PathsDiffer();
    forall key, v ensures Field(payload, key) == Some(v) <==> Holds(payload, key, v) {
      FieldMeans(payload, key, v);
    }
    if Field(payload, "op").Some? {
      assert Holds(payload, "op", Field(payload, "op").value);
    }
    if Field(payload, "verb").Some? {
      assert Holds(payload, "verb", Field(payload, "verb").value);
    }
  }

  lemma CodeChangeMeans(path: string, payload: Option<Json>)
    ensures CodeChange(path, payload) <==> ChangesCode(path, payload)
  {
    PathsDiffer();
    forall key, v ensures Field(payload, key) == Some(v) <==> Holds(payload, key, v) {
      FieldMeans(payload, key, v);
    }
  }

  /** A GET for the bridge's own answer, with a query or without. */
  predicate AsksBridge(r: Request) {
    r.httpMethod == "GET" && (r.target == "/api/v1/bridge" || StartsWith(r.target, "/api/v1/bridge?"))
  }

  lemma AsksMeans(r: Request)
    ensures AsksTheBridge(r) <==> AsksBridge(r)
  {
    var path := BRIDGE_PATH;
    assert '?' !in path;
    assert path + "?" == "/api/v1/bridge?";
    if r.target == path {
      forall j ensures !At(path, "?", j) {
        if At(path, "?", j) {
          AtIndex(path, "?", j, 0);
        }
      }
      FindNone(path, "?");
    } else if StartsWith(r.target, path + "?") {
      var rest := r.target[|path| + 1..];
      assert r.target == path + "?" + rest;
      SplitHead(path, "?", rest);
    } else {
      NotAsked(r.target, path);
    }
  }

  lemma NotAsked(target: string, path: string)
    requires target != path && !StartsWith(target, path + "?")
    ensures Split(target, "?")[0] != path
  {
    var at := Find(target, "?");
    if at.Some? {
      assert target[at.value..at.value + 1] == "?";
      assert target[..at.value + 1] == target[..at.value] + "?";
    }
  }

  /** What becomes of a whole request, gate by gate, in the order of the gates, each with its own code. */
  lemma GatesExactly(p: Parts, args: Args, daemon: Option<Endpoint>, got: Received)
    ensures var r, out := got.request, PipeOf(p, args, daemon, got);
      var path, payload := p.pathOf(r.target), p.decode(got.body);
      if OutOfReach(r.target) then out == Outcome(1, Some(PathRefused), false, None)
      else if r.httpMethod == "POST" && !SentExact(p, path, payload) then
        out == Outcome(1, Some(NotCanonical), false, None)
      else if r.httpMethod == "POST" && ChangesCode(path, payload) then
        out == Outcome(1, Some(CodeChangeRefused), false, None)
      else if daemon.None? then out == Outcome(0, Some(DaemonDown), false, None)
      else if forall h :: h in r.headers ==> Harmless(h) then out.sent.Some? && out == Outcome(0, None, false, out.sent)
      else exists i, code ::
        0 <= i < |r.headers| && FirstOffends(r.headers, i, code) && out == Outcome(1, Some(code), false, None)
  {
    var r := got.request;
    var path, payload := p.pathOf(r.target), p.decode(got.body);
    ReachMeans(r.target);
    CanonicalMeans(p, path, payload);
    CodeChangeMeans(path, payload);
    if daemon.Some? {
      var id := IdentityOf(args, daemon.value);
      var rewritten := Rewritten(r, id, |got.body|);
      RefusesExactly(r, id, |got.body|, if rewritten.Err? then rewritten.error else PathRefused);
    }
  }

  lemma ReachMeans(target: string)
    ensures RefusedTarget(target) <==> OutOfReach(target)
  {
  }

  /** What a channel does at each stage before the gates: its exit code, and what the hub is told. */
  lemma ChannelExactly(p: Parts, args: Args, command: bool, s: Stream, keys: Option<seq<string>>,
      daemon: Option<Endpoint>)
    requires Live(s)
    ensures var out, head := MainOf(p, args, command, s, keys, daemon), HeadOf("", s);
      if command then out == Outcome(2, None, false, None)
      else if head.Err? then
        out == if head.error in {NotHttp, Truncated, HeadTimeout} then Outcome(2, None, false, None)
               else Outcome(1, Some(head.error), false, None)
      else if RequestOf(head.value.head).Err? then out == Outcome(2, None, false, None)
      else if !Granted(p, args, keys) then out == Outcome(1, Some(Revoked), false, None)
      else if Receive(s).Err? then out == Outcome(1, Some(Receive(s).error), false, None)
      else if AsksBridge(Receive(s).value.request) then out == Outcome(0, None, true, None)
      else out == PipeOf(p, args, daemon, Receive(s).value)
  {
    HeadRefusals("", s);
    if HeadOf("", s).Ok? {
      HeadConserves("", s);
      RefusedHeadMeans(HeadOf("", s).value.head);
      if Receive(s).Ok? {
        AsksMeans(Receive(s).value.request);
      }
    }
  }

  lemma {:induction false} HeadRefusals(buf: string, s: Stream)
    requires Live(s)
    ensures HeadOf(buf, s).Err? ==> HeadOf(buf, s).error in {NotHttp, Truncated, HeadTimeout, HeadTooLarge}
    decreases |Bytes(s)|
  {
    if Cut(buf).None? && |buf| <= HEAD_LIMIT && s.chunks != [] {
      PullBytes(s, READ_SIZE);
      var (got, rest) := Pull(s, READ_SIZE);
      HeadRefusals(buf + got, rest);
    }
  }

  /**
   A request reaches the daemon exactly when the channel runs no command and is granted, the request
   came in whole and is not for the bridge itself, its path is not one no hub reaches, a POST names
   its operation exactly and changes no code, no header refuses it, and the daemon is up.
   */
  lemma SentExactlyWhen(p: Parts, args: Args, command: bool, s: Stream, keys: Option<seq<string>>,
      daemon: Option<Endpoint>)
    requires Live(s)
    ensures MainOf(p, args, command, s, keys, daemon).sent.Some? <==>
      && !command && Granted(p, args, keys) && daemon.Some? && Receive(s).Ok?
      && var got := Receive(s).value;
      && !AsksBridge(got.request) && !OutOfReach(got.request.target)
      && (got.request.httpMethod == "POST" ==>
            && SentExact(p, p.pathOf(got.request.target), p.decode(got.body))
            && !ChangesCode(p.pathOf(got.request.target), p.decode(got.body)))
      && forall h :: h in got.request.headers ==> Harmless(h)
  {
    ChannelExactly(p, args, command, s, keys, daemon);
    if Receive(s).Ok? {
      GatesExactly(p, args, daemon, Receive(s).value);
    }
  }

  // ---------------------------------------------------------------- the forwarded bytes read back

  /** The blank line of a printed block is its first, whatever body follows. */
  lemma {:induction false} BlockEnds(line: string, headers: seq<Header>, body: string)
    requires line != "" && AllPrintable(line)
    requires AllFit(headers)
    ensures var before := line + CRLF + PrintFields(headers);
      Find(before + CRLF + body, CRLFCRLF) == Some(|before| - 2)
    decreases headers
  {
    if headers == [] {
      NoBlockEnds(line, body);
      assert line + CRLF + PrintFields(headers) == line + CRLF;
    } else {
      var h, rest := headers[0], headers[1..];
      var next := h.name + ": " + h.value;
      PrintedLine(h);
      assert AllFit(rest);
      BlockEnds(next, rest, body);
      BlockEndsCons(line, next, PrintFields(rest), body);
      assert PrintFields(headers) == next + CRLF + PrintFields(rest);
    }
  }

  lemma NoBlockEnds(line: string, body: string)
    requires AllPrintable(line)
    ensures Find(line + CRLF + CRLF + body, CRLFCRLF) == Some(|line|)
  {
    var s := line + CRLF + CRLF + body;
    assert s[|line|..|line| + 4] == CRLFCRLF;
    assert s[..|line|] == line;
    NoCrIn(line, s);
    FindIs(s, CRLFCRLF, |line|);
  }

  lemma BlockEndsCons(line: string, next: string, more: string, body: string)
    requires AllPrintable(line) && next != "" && AllPrintable(next)
    requires var before := next + CRLF + more; Find(before + CRLF + body, CRLFCRLF) == Some(|before| - 2)
    ensures var before := line + CRLF + (next + CRLF + more);
      Find(before + CRLF + body, CRLFCRLF) == Some(|before| - 2)
  {
    var inner := next + CRLF + more;
    ShiftFind(line, inner + CRLF + body, |inner| - 2);
    assert line + CRLF + (inner + CRLF + body) == line + CRLF + inner + CRLF + body;
  }

  lemma NoCrIn(line: string, s: string)
    requires AllPrintable(line) && |line| <= |s| && s[..|line|] == line
    ensures forall j :: 0 <= j < |line| ==> !At(s, CRLFCRLF, j)
  {
    forall j | 0 <= j < |line| ensures !At(s, CRLFCRLF, j) {
      assert s[j] == line[j] && IsPrintable(line[j]);
      if At(s, CRLFCRLF, j) {
        AtIndex(s, CRLFCRLF, j, 0);
      }
    }
  }

  lemma ShiftFind(line: string, tail: string, k: nat)
    requires AllPrintable(line)
    requires tail != "" && tail[0] != CR
    requires Find(tail, CRLFCRLF) == Some(k)
    ensures Find(line + CRLF + tail, CRLFCRLF) == Some(|line| + 2 + k)
  {
    var s := line + CRLF + tail;
    var n := |line| + 2;
    assert s[..|line|] == line;
    NoCrIn(line, s);
    forall j ensures At(tail, CRLFCRLF, j) <==> j >= 0 && At(s, CRLFCRLF, j + n) {
      if 0 <= j && j + 4 <= |tail| {
        assert tail[j..j + 4] == s[j + n..j + n + 4];
      }
    }
    forall j | 0 <= j < n + k ensures !At(s, CRLFCRLF, j) {
      if j == |line| {
        if At(s, CRLFCRLF, j) {
          AtIndex(s, CRLFCRLF, j, 2);
        }
      } else if j == |line| + 1 {
        if At(s, CRLFCRLF, j) {
          AtIndex(s, CRLFCRLF, j, 0);
        }
      } else if j >= n {
        assert !At(tail, CRLFCRLF, j - n);
      }
    }
    FindIs(s, CRLFCRLF, n + k);
  }

  lemma {:induction false} DecimalShort(n: nat, k: nat)
    requires k > 0 && n < Pow10(k)
    ensures |Decimal(n)| <= k
    decreases k
  {
    if n >= 10 {
      assert k > 1;
      DecimalShort(n / 10, k - 1);
    }
  }

  lemma DecimalParses(n: nat)
    requires n <= BODY_LIMIT
    ensures ParseInt(Decimal(n)) == Some(n as int)
  {
    assert Pow10(7) == 10 * (10 * (10 * (10 * (10 * (10 * (10 * Pow10(0)))))));
    DecimalShort(n, 7);
    DecimalValue(n);
    UndecoratedDigits(Decimal(n));
    assert IsDigit(Decimal(n)[0]);
  }

  lemma {:induction false} LengthSkips(a: seq<Header>, b: seq<Header>)
    requires CountOf(a, "content-length") == 0
    ensures ContentLength(a + b) == ContentLength(b)
  {
    if a == [] {
      assert a + b == b;
    } else {
      assert (a + b)[1..] == a[1..] + b;
      LengthSkips(a[1..], b);
    }
  }

  /** The one Content-Length of a forwarded request is the length of the body behind it. */
  lemma ForwardedLength(r: Request, id: Identity, n: nat)
    requires n <= BODY_LIMIT && Rewritten(r, id, n).Ok?
    ensures ContentLength(Rewritten(r, id, n).value) == Ok(n)
  {
    var host, kept := [HostHeader(id)], Kept(r.headers);
    var stamp := Stamp(r.httpMethod, r.headers, id, n);
    var four := stamp[..4];
    var more := stamp[4..];
    StampNames();
    KeptCarriesNone(r.headers, "content-length");
    CountSum(host, kept, "content-length");
    assert host[1..] == [];
    StampCounts(four, "content-length");
    CountSum(host + kept, four, "content-length");
    LengthSkips(host + kept + four, more);
    assert host + kept + stamp == host + kept + four + more by {
      assert stamp == four + more;
    }
    if more != [] {
      DecimalParses(n);
      assert more[0] == Header("Content-Length", Decimal(n));
    }
  }

  lemma BodyWithinLimit(headers: seq<Header>)
    ensures ContentLength(headers).Ok? ==> ContentLength(headers).value <= BODY_LIMIT
  {
  }

  /** What was forwarded was received whole, passed every gate, and is the rewritten request followed by its body. */
  lemma SentIsForwarded(p: Parts, args: Args, command: bool, s: Stream, keys: Option<seq<string>>,
      daemon: Option<Endpoint>)
    returns (got: Received, f: Request)
    requires Live(s) && MainOf(p, args, command, s, keys, daemon).sent.Some?
    ensures !command && Granted(p, args, keys) && daemon.Some?
    ensures Receive(s) == Ok(got) && |got.body| <= 1048576
    ensures Forwarded(got.request, IdentityOf(args, daemon.value), |got.body|) == Ok(f)
    ensures MainOf(p, args, command, s, keys, daemon).sent.value == PrintHead(f) + got.body
    ensures RequestOf(HeadOf("", s).value.head) == Ok(got.request)
    ensures PipeOf(p, args, daemon, got).sent.Some?
  {
    HeadConserves("", s);
    var h := HeadOf("", s).value;
    var r := RequestOf(h.head).value;
    got := AfterParse(Ok(r), h.rest, h.stream).value;
    f := Forwarded(r, IdentityOf(args, daemon.value), |got.body|).value;
    var n := ContentLength(r.headers).value;
    BodyWithinLimit(r.headers);
    BodyIsPrefix(Prefix(h.rest, n), h.stream, n);
  }

  /**
   The daemon reads exactly what the bridge checked. Whatever the pieces its own stream arrived
   in, the bytes sent parse, under the same grammar and the same Content-Length rule, to the
   hub's own method and target, the rewritten headers, and the whole body: no more and no less.
   */
  lemma DaemonReadsTheSameRequest(p: Parts, args: Args, command: bool, s: Stream, keys: Option<seq<string>>,
                                  daemon: Option<Endpoint>, end: End)
    returns (got: Received, f: Request)
    requires Live(s) && MainOf(p, args, command, s, keys, daemon).sent.Some?
    requires EndsField(args.hub) && EndsField(daemon.value.token) && daemon.value.token != ""
    ensures var sent := MainOf(p, args, command, s, keys, daemon).sent.value;
      && Receive(s) == Ok(got)
      && HeadEnd(sent).Some?
      && ReceiveBytes(sent, end) == Ok(Received(f, got.body))
      && f.httpMethod == got.request.httpMethod && f.target == got.request.target
    ensures Forwarded(got.request, IdentityOf(args, daemon.value), |got.body|) == Ok(f)
    ensures PipeOf(p, args, daemon, got).sent.Some? && Granted(p, args, keys)
  {
    got, f := SentIsForwarded(p, args, command, s, keys, daemon);
    ForwardedReads(HeadOf("", s).value.head, got, IdentityOf(args, daemon.value), f, end);
  }

  lemma ForwardedReads(head: string, got: Received, id: Identity, f: Request, end: End)
    requires RequestOf(head) == Ok(got.request) && |got.body| <= BODY_LIMIT
    requires Forwarded(got.request, id, |got.body|) == Ok(f)
    requires EndsField(id.hub) && EndsField(id.token) && id.token != ""
    ensures var sent := PrintHead(f) + got.body;
      HeadEnd(sent).Some? && ReceiveBytes(sent, end) == Ok(Received(f, got.body))
    ensures f.httpMethod == got.request.httpMethod && f.target == got.request.target
  {
    ForwardedFits(head, got.request, id, |got.body|);
    ForwardedLength(got.request, id, |got.body|);
    FitReads(f, got.body, end);
  }

  lemma ForwardedFits(head: string, r: Request, id: Identity, n: nat)
    requires RequestOf(head) == Ok(r) && Forwarded(r, id, n).Ok?
    requires EndsField(id.hub) && EndsField(id.token) && id.token != ""
    ensures Fit(Forwarded(r, id, n).value)
  {
    var f := Forwarded(r, id, n).value;
    ForwardedHeadRoundTrip(head, r, id, n);
    ParsedIsFit(PrintHead(f), f);
  }

  /** The blank line a printed head ends with is its first. */
  lemma HeadEndsOnce(f: Request, body: string)
    requires Fit(f)
    ensures var before := f.httpMethod + " " + f.target + " HTTP/1.1" + CRLF + PrintFields(f.headers);
      Find(before + CRLF + body, CRLFCRLF) == Some(|before| - 2)
  {
    FitIs(f);
    RequestLineText(f, "1.1");
    assert f.httpMethod + " " + f.target + " HTTP/" + "1.1" == f.httpMethod + " " + f.target + " HTTP/1.1";
    BlockEnds(f.httpMethod + " " + f.target + " HTTP/1.1", f.headers, body);
  }

  lemma FitReads(f: Request, body: string, end: End)
    requires Fit(f) && ContentLength(f.headers) == Ok(|body|)
    ensures var sent := PrintHead(f) + body;
      HeadEnd(sent).Some? && ReceiveBytes(sent, end) == Ok(Received(f, body))
  {
    HeadEndsOnce(f, body);
    PrintedHeadParses(f);
    SentReads(f, body, end);
  }

  lemma SentReads(f: Request, body: string, end: End)
    requires var before := f.httpMethod + " " + f.target + " HTTP/1.1" + CRLF + PrintFields(f.headers);
      Find(before + CRLF + body, CRLFCRLF) == Some(|before| - 2)
    requires RequestOf(PrintHead(f)) == Ok(f) && ContentLength(f.headers) == Ok(|body|)
    ensures var sent := PrintHead(f) + body;
      HeadEnd(sent) == Some(|PrintHead(f)|) && ReceiveBytes(sent, end) == Ok(Received(f, body))
  {
    var before := f.httpMethod + " " + f.target + " HTTP/1.1" + CRLF + PrintFields(f.headers);
    EndsAfter(before, body);
    assert PrintHead(f) == before + CRLF;
    var sent, e := PrintHead(f) + body, |PrintHead(f)|;
    AfterFit(f, sent, e, body, end);
  }

  lemma EndsAfter(before: string, body: string)
    requires Find(before + CRLF + body, CRLFCRLF) == Some(|before| - 2)
    ensures var head := before + CRLF;
      HeadEnd(head + body) == Some(|head|) && (head + body)[..|head|] == head
      && (head + body)[|head|..|head| + |body|] == body
  {
  }

  lemma AfterFit(f: Request, t: string, e: nat, body: string, end: End)
    requires e + |body| == |t| && t[e..e + |body|] == body && ContentLength(f.headers) == Ok(|body|)
    ensures BytesAfter(Ok(f), t, e, end) == Ok(Received(f, body))
  {
  }

  /** Whatever verb the daemon's `job_verb` accepts in a payload is the string the gates let through. */
  ghost predicate VerbChecked(p: Parts, path: string, payload: Option<Json>, allowed: set<string>) {
    path == "/api/v1/jobs" ==>
      forall v :: JobVerb(allowed, Field(payload, "verb")) == Some(v) ==>
        Holds(payload, "verb", Str(v)) && v in allowed && v == p.strip(v) && v != "" && v != "self-update"
  }

  lemma GatesCheckVerb(p: Parts, path: string, payload: Option<Json>, allowed: set<string>)
    requires Canonical(p, path, payload) && !CodeChange(path, payload)
    ensures VerbChecked(p, path, payload, allowed)
  {
    CanonicalMeans(p, path, payload);
    CodeChangeMeans(path, payload);
    forall v ensures Field(payload, "verb") == Some(v) <==> Holds(payload, "verb", v) {
      FieldMeans(payload, "verb", v);
    }
  }

  lemma SentPassedGates(p: Parts, args: Args, daemon: Option<Endpoint>, got: Received)
    requires PipeOf(p, args, daemon, got).sent.Some? && got.request.httpMethod == "POST"
    ensures var path, payload := p.pathOf(got.request.target), p.decode(got.body);
      Canonical(p, path, payload) && !CodeChange(path, payload)
  {
  }

  /**
   Bridge and daemon read the same verb. For every request that reached the daemon as a POST to
   the jobs path, if the daemon's `job_verb` accepts a verb in what it received, that verb is the
   very string the bridge compared, exact, and not one a hub is refused; and the grant held.
   */
  lemma SameVerb(p: Parts, args: Args, command: bool, s: Stream, keys: Option<seq<string>>, daemon: Option<Endpoint>,
                 end: End, allowed: set<string>)
    requires Live(s) && MainOf(p, args, command, s, keys, daemon).sent.Some?
    requires EndsField(args.hub) && EndsField(daemon.value.token) && daemon.value.token != ""
    ensures Granted(p, args, keys)
    ensures var sent := MainOf(p, args, command, s, keys, daemon).sent.value;
      && Receive(s).Ok? && HeadEnd(sent).Some? && ReceiveBytes(sent, end).Ok?
      && var mine, theirs := Receive(s).value, ReceiveBytes(sent, end).value;
      && theirs.request.httpMethod == mine.request.httpMethod && theirs.request.target == mine.request.target
        && theirs.body == mine.body
      && (theirs.request.httpMethod == "POST" ==>
            VerbChecked(p, p.pathOf(theirs.request.target), p.decode(theirs.body), allowed))
  {
    var got, f := DaemonReadsTheSameRequest(p, args, command, s, keys, daemon, end);
    if f.httpMethod == "POST" {
      SentPassedGates(p, args, daemon, got);
      GatesCheckVerb(p, p.pathOf(got.request.target), p.decode(got.body), allowed);
    }
  }

  /**
   What the daemon is told, of every request that reaches it: a target of the API that is no session
   and no host, none of the hub's cookies or provenance, the bare user the hub claimed under this
   channel's own hub name, the lower of the claimed role and this channel's cap, and the daemon's own
   token and address.
   */
  lemma DaemonIsTold(p: Parts, args: Args, command: bool, s: Stream, keys: Option<seq<string>>,
      daemon: Option<Endpoint>, h: Header, user: Option<string>, role: Option<string>)
      returns (got: Received, f: Request)
    requires Live(s) && MainOf(p, args, command, s, keys, daemon).sent.Some?
    ensures MainOf(p, args, command, s, keys, daemon).sent.value == PrintHead(f) + got.body && Receive(s) == Ok(got)
    ensures |f.target| >= 8 && f.target[..8] == "/api/v1/" && !OutOfReach(f.target) && f.target == got.request.target
    ensures f.httpMethod == got.request.httpMethod && (f.httpMethod == "GET" || f.httpMethod == "POST")
    ensures h in f.headers ==> !StaysBehind(Lower(h.name))
    ensures h in f.headers && LastClaim(got.request.headers, "x-cwcli-delegated-user", user) ==>
      Lower(h.name) == "x-cwcli-delegated-user" ==> TellsUser(h.value, user, args.hub)
    ensures h in f.headers && LastClaim(got.request.headers, "x-cwcli-delegated-role", role) ==>
      Lower(h.name) == "x-cwcli-delegated-role" ==> TellsRole(h.value, role, args.cap)
    ensures h in f.headers && Lower(h.name) == "authorization" ==> h.value == "Bearer " + daemon.value.token
    ensures h in f.headers && Lower(h.name) == "host" ==>
      exists port :: h.value == "127.0.0.1:" + port && AllDigits(port) && DigitsValue(port) == daemon.value.port
  {
    got, f := SentIsForwarded(p, args, command, s, keys, daemon);
    AcceptedHeadMeans(HeadOf("", s).value.head, got.request);
    SentExactlyWhen(p, args, command, s, keys, daemon);
    if h in f.headers {
      ForwardedSays(got.request, IdentityOf(args, daemon.value), |got.body|, h, user, role);
    }
  }

  lemma ForwardedSays(r: Request, id: Identity, n: nat, h: Header, user: Option<string>, role: Option<string>)
    requires Rewritten(r, id, n).Ok? && h in Rewritten(r, id, n).value
    ensures !StaysBehind(Lower(h.name))
    ensures LastClaim(r.headers, "x-cwcli-delegated-user", user) && Lower(h.name) == "x-cwcli-delegated-user" ==>
      TellsUser(h.value, user, id.hub)
    ensures LastClaim(r.headers, "x-cwcli-delegated-role", role) && Lower(h.name) == "x-cwcli-delegated-role" ==>
      TellsRole(h.value, role, id.cap)
    ensures Lower(h.name) == "authorization" ==> h.value == "Bearer " + id.token
    ensures Lower(h.name) == "host" ==>
      exists port :: h.value == "127.0.0.1:" + port && AllDigits(port) && DigitsValue(port) == id.port
  {
    var claimedUser, claimedRole := Claim(r.headers, DELEGATED_USER), Claim(r.headers, DELEGATED_ROLE);
    ClaimIsLast(r.headers, DELEGATED_USER, claimedUser);
    ClaimIsLast(r.headers, DELEGATED_ROLE, claimedRole);
    ClaimIsLast(r.headers, DELEGATED_USER, user);
    ClaimIsLast(r.headers, DELEGATED_ROLE, role);
    ToldExactly(r, id, n, h, claimedUser, claimedRole);
    ForwardedNames(r, id, n, h);
  }

  /** Names that stay on the hub's side: its cookies, its own connection, and where it came from. */
  predicate StaysBehind(low: string) {
    || low in ["cookie", "keep-alive", "te", "trailer", "transfer-encoding", "upgrade", "origin", "referer"]
    || StartsWith(low, "proxy-") || StartsWith(low, "sec-fetch-") || StartsWith(low, "x-forwarded-")
  }

  lemma ForwardedNames(r: Request, id: Identity, n: nat, h: Header)
    requires Rewritten(r, id, n).Ok? && h in Rewritten(r, id, n).value
    ensures !StaysBehind(Lower(h.name))
  {
    if h in Kept(r.headers) {
      var k :| 0 <= k < |Kept(r.headers)| && Kept(r.headers)[k] == h;
      KeptCrosses(r.headers, k);
      CrossesMeans(r.headers, h);
    } else {
      OwnNames(r.httpMethod, r.headers, id, n, h);
      OwnCross(Lower(h.name));
    }
  }

  lemma OwnNames(httpMethod: string, headers: seq<Header>, id: Identity, n: nat, h: Header)
    requires h == HostHeader(id) || h in Stamp(httpMethod, headers, id, n)
    ensures Lower(h.name) in
      ["host", "authorization", "x-cwcli-delegated-user", "x-cwcli-delegated-role", "connection", "content-length"]
  {
    StampNames();
  }

  lemma OwnCross(low: string)
    requires low in
      ["host", "authorization", "x-cwcli-delegated-user", "x-cwcli-delegated-role", "connection", "content-length"]
    ensures !StaysBehind(low)
  {
    NotPrefix(low, "proxy-", 0);
    NotPrefix(low, "sec-fetch-", 0);
    NotPrefix(low, "x-forwarded-", 2);
  }

  lemma NotPrefix(low: string, prefix: string, k: nat)
    requires k < |prefix|
    ensures k < |low| && low[k] != prefix[k] ==> !StartsWith(low, prefix)
  {
    if StartsWith(low, prefix) {
      assert low[..|prefix|][k] == low[k];
    }
  }
}
