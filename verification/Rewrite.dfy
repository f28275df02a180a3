/**
 What the bridge forwards of a hub's headers, and the identity it writes in their place.

 The daemon trusts the identity headers it is sent, so the point of this module is that the
 only ones it can be sent are the bridge's own: one user under this hub's name, one role no
 higher than the cap.
 */
module Rewrite {
  import opened Text
  import opened RequestHead

  // ---------------------------------------------------------------- roles

  datatype Role = Viewer | Operator | Admin

  function Rank(r: Role): nat {
    match r
    case Viewer => 0
    case Operator => 1
    case Admin => 2
  }

  function RoleName(r: Role): string {
    match r
    case Viewer => "viewer"
    case Operator => "operator"
    case Admin => "admin"
  }

  function RoleNamed(s: string): (r: Option<Role>)
    ensures r.Some? ==> s == RoleName(r.value)
    ensures r.None? ==> forall role :: s != RoleName(role)
  {
    if s == "viewer" then Some(Viewer)
    else if s == "operator" then Some(Operator)
    else if s == "admin" then Some(Admin)
    else None
  }

  function OrEmpty(s: Option<string>): string {
    if s.Some? then s.value else ""
  }

  /** The role a claim amounts to before the cap: no role at all reads as the lowest one. */
  function ClaimedRole(claimed: Option<string>): Role {
    match RoleNamed(Lower(Strip(OrEmpty(claimed))))
    case Some(r) => r
    case None => Viewer
  }

  /** The bridge's `_cap_role`: the minimum, in rank, of the claim and the cap. */
  function CapRole(claimed: Option<string>, cap: Role): (r: Role)
    ensures Rank(r) <= Rank(cap)
    ensures Rank(r) <= Rank(ClaimedRole(claimed))
    ensures r == cap || r == ClaimedRole(claimed)
  {
    var role := ClaimedRole(claimed);
    if Rank(role) <= Rank(cap) then role else cap
  }

  /** A lower cap never yields a higher role, and capping twice is capping once at the lower cap. */
  lemma CapIsMeet(claimed: Option<string>, cap: Role, other: Role)
    ensures Rank(cap) <= Rank(other) ==> Rank(CapRole(claimed, cap)) <= Rank(CapRole(claimed, other))
    ensures CapRole(Some(RoleName(CapRole(claimed, cap))), other)
         == CapRole(Some(RoleName(CapRole(claimed, other))), cap)
    ensures CapRole(claimed, Admin) == ClaimedRole(claimed)
  {
    forall r: Role ensures ClaimedRole(Some(RoleName(r))) == r {
      RoleNameReads(r);
    }
  }

  lemma RoleNameReads(r: Role)
    ensures Lower(Strip(RoleName(r))) == RoleName(r)
  {
    StripTrimmed(RoleName(r));
    RoleNameIsLower(r);
  }

  lemma RoleNameIsLower(r: Role)
    ensures Lower(RoleName(r)) == RoleName(r)
  {
  }

  // ---------------------------------------------------------------- the delegated user

  predicate IsUserChar(c: char) {
    'A' <= c <= 'Z' || 'a' <= c <= 'z' || IsDigit(c) || c == '.' || c == '_' || c == '+' || c == '-'
  }

  predicate IsUser(s: string) {
    1 <= |s| <= 80 && forall i :: 0 <= i < |s| ==> IsUserChar(s[i])
  }

  function BareUser(claimed: Option<string>): (r: string)
    ensures IsUser(r)
  {
    var bare := Split(Strip(OrEmpty(claimed)), "@")[0];
    if IsUser(bare) then bare else "hub"
  }

  /** The bridge's `_delegated_user`. */
  function DelegatedUser(claimed: Option<string>, hub: string): string {
    BareUser(claimed) + "@" + hub
  }

  /** Read back at its first `@`, a delegated user is a valid bare name under this hub and no other. */
  lemma DelegatedUserSplits(claimed: Option<string>, hub: string, user: string, at: string)
    ensures var s := DelegatedUser(claimed, hub);
      var i := Find(s, "@");
      i.Some? && IsUser(s[..i.value]) && s[i.value + 1..] == hub
    ensures '@' !in user && DelegatedUser(claimed, hub) == user + "@" + at ==>
      user == BareUser(claimed) && at == hub
  {
    var bare := BareUser(claimed);
    var s := DelegatedUser(claimed, hub);
    assert '@' !in bare;
    FirstAt(bare, hub);
    assert s[..|bare|] == bare && s[|bare| + 1..] == hub;
    if '@' !in user && s == user + "@" + at {
      FirstAt(user, at);
      assert s[..|user|] == user && s[|user| + 1..] == at;
    }
  }

  /** A claim that is a valid bare name, with or without a hub of its own behind it, keeps that name. */
  lemma ValidClaimKept(user: string, rest: string)
    requires IsUser(user)
    ensures BareUser(Some(user)) == user
    ensures BareUser(Some(user + "@" + rest)) == user
  {
    UserChars(user);
    StripTrimmed(user);
    FindNoAt(user);
    assert Split(user, "@") == [user];
    var u := StripKeepsHead(user, rest);
    SplitHead(user, "@", u);
  }

  /** Nothing else gets through: a name other than `hub` is the valid text before the claim's first `@`. */
  lemma BareUserIsClaimed(claimed: Option<string>)
    ensures var bare, s := BareUser(claimed), Strip(OrEmpty(claimed));
      bare == "hub" || (IsUser(bare) && (s == bare || StartsWith(s, bare + "@")))
  {
    var s := Strip(OrEmpty(claimed));
    var at := Find(s, "@");
    if at.Some? {
      assert s[at.value..at.value + 1] == "@";
      assert s[..at.value + 1] == s[..at.value] + "@";
    }
  }

  lemma UserChars(user: string)
    requires IsUser(user)
    ensures '@' !in user && !IsSpace(user[0]) && Trimmed(user)
  {
    assert IsUserChar(user[0]) && IsUserChar(user[|user| - 1]);
  }

  lemma StripKeepsHead(user: string, rest: string) returns (u: string)
    requires user != "" && !IsSpace(user[0])
    ensures Strip(user + "@" + rest) == user + "@" + u
  {
    var s := user + "@" + rest;
    var left, right := StripCuts(s);
    var t := Strip(s);
    NotCut(left, t, right, 0);
    NotCut(left, t, right, |user|);
    assert t == s[..|t|];
    u := t[|user| + 1..];
  }

  lemma FindNoAt(s: string)
    requires '@' !in s
    ensures Find(s, "@") == None
  {
    forall i ensures !At(s, "@", i) {
      if At(s, "@", i) {
        AtIndex(s, "@", i, 0);
      }
    }
  }

  lemma FirstAt(a: string, b: string)
    requires '@' !in a
    ensures Find(a + "@" + b, "@") == Some(|a|)
  {
    var s := a + "@" + b;
    assert s[|a|..|a| + 1] == "@";
    forall j | 0 <= j < |a| ensures !At(s, "@", j) {
      if At(s, "@", j) {
        AtIndex(s, "@", j, 0);
      }
    }
    FindIs(s, "@", |a|);
  }

  // ---------------------------------------------------------------- which headers cross

  const DELEGATED_USER: string := "x-cwcli-delegated-user"
  const DELEGATED_ROLE: string := "x-cwcli-delegated-role"

  const DROP: set<string> := {
    "authorization", "cookie", "host", "connection", "keep-alive", "te", "trailer",
    "transfer-encoding", "upgrade", "content-length", "origin", "referer",
    DELEGATED_USER, DELEGATED_ROLE
  }

  predicate DropPrefixed(low: string) {
    StartsWith(low, "proxy-") || StartsWith(low, "sec-fetch-") || StartsWith(low, "x-forwarded-")
  }

  predicate RefusedTarget(target: string) {
    StartsWith(target, "/api/v1/session") || StartsWith(target, "/api/v1/hosts")
  }

  predicate IsDelegation(low: string) {
    low == DELEGATED_USER || low == DELEGATED_ROLE
  }

  /** One name of a Connection value's list, as the bridge reads it. */
  function Listed(piece: string): string {
    Lower(Strip(piece))
  }

  ghost predicate Lists(pieces: seq<string>, low: string) {
    exists k :: 0 <= k < |pieces| && Listed(pieces[k]) == low
  }

  /** `h` is a Connection header that names `low` (section 6.1 of RFC 7230). */
  ghost predicate NamedIn(h: Header, low: string) {
    Lower(h.name) == "connection" && low != "" && Lists(Split(h.value, ","), low)
  }

  ghost predicate HopByHop(headers: seq<Header>, low: string) {
    exists i :: 0 <= i < |headers| && NamedIn(headers[i], low)
  }

  /** Why one header refuses the whole request, if it does. */
  ghost function Offence(h: Header): Option<Code> {
    if NamedIn(h, DELEGATED_USER) || NamedIn(h, DELEGATED_ROLE) then Some(ConnectionHeader)
    else if Lower(h.name) == "transfer-encoding" then Some(LengthRequired)
    else None
  }

  /** The first offence, in header order. */
  ghost function FirstOffence(headers: seq<Header>): (r: Option<Code>)
    ensures r.None? <==> forall i :: 0 <= i < |headers| ==> Offence(headers[i]).None?
  {
    if headers == [] then None
    else if Offence(headers[0]).Some? then Offence(headers[0])
    else
      assert forall i :: 0 <= i < |headers[1..]| ==> headers[1..][i] == headers[i + 1];
      FirstOffence(headers[1..])
  }

  /** The last value sent under a delegation name. */
  function Claim(headers: seq<Header>, low: string): Option<string> {
    if headers == [] then None
    else
      var last := headers[|headers| - 1];
      if Lower(last.name) == low then Some(last.value) else Claim(headers[..|headers| - 1], low)
  }

  ghost predicate Crosses(headers: seq<Header>, h: Header) {
    var low := Lower(h.name);
    low !in DROP && !DropPrefixed(low) && !HopByHop(headers, low)
  }

  /** The headers that cross, in order. */
  ghost function Kept(headers: seq<Header>): seq<Header> {
    Filter(headers, h => Crosses(headers, h))
  }

  datatype Identity = Identity(hub: string, cap: Role, port: nat, token: string)

  /** The headers the bridge itself writes after the hub's own. */
  function StampOf(httpMethod: string, user: Option<string>, role: Option<string>, id: Identity,
      bodyLength: nat): seq<Header> {
    [ Header("Authorization", "Bearer " + id.token),
      Header("X-Cwcli-Delegated-User", DelegatedUser(user, id.hub)),
      Header("X-Cwcli-Delegated-Role", RoleName(CapRole(role, id.cap))),
      Header("Connection", "close") ]
    + if httpMethod == "POST" || bodyLength > 0 then [Header("Content-Length", Decimal(bodyLength))] else []
  }

  function Stamp(httpMethod: string, headers: seq<Header>, id: Identity, bodyLength: nat): seq<Header> {
    StampOf(httpMethod, Claim(headers, DELEGATED_USER), Claim(headers, DELEGATED_ROLE), id, bodyLength)
  }

  function HostHeader(id: Identity): Header {
    Header("Host", "127.0.0.1:" + Decimal(id.port))
  }

  /** The exact specification of the rewrite. */
  ghost function Rewritten(r: Request, id: Identity, bodyLength: nat): Result<seq<Header>, Code> {
    if RefusedTarget(r.target) then Err(PathRefused)
    else
      match FirstOffence(r.headers)
      case Some(code) => Err(code)
      case None =>
        Ok([HostHeader(id)] + Kept(r.headers) + Stamp(r.httpMethod, r.headers, id, bodyLength))
  }

  /** The names one Connection value adds, or None when it names a delegation header. */
  method ScanConnection(h: Header) returns (names: Option<set<string>>)
    requires Lower(h.name) == "connection"
    ensures names.None? <==> NamedIn(h, DELEGATED_USER) || NamedIn(h, DELEGATED_ROLE)
    ensures names.Some? ==> forall low :: low in names.value <==> NamedIn(h, low)
  {
    names := ScanNames(Split(h.value, ","));
    assert DELEGATED_USER != "" && DELEGATED_ROLE != "";
  }

  method ScanNames(pieces: seq<string>) returns (names: Option<set<string>>)
    ensures names.None? <==> Lists(pieces, DELEGATED_USER) || Lists(pieces, DELEGATED_ROLE)
    ensures names.Some? ==> forall low :: low in names.value <==> low != "" && Lists(pieces, low)
  {
    var found: set<string> := {};
    var k := 0;
    while k < |pieces|
      invariant 0 <= k <= |pieces|
      invariant forall j :: 0 <= j < k ==> !IsDelegation(Listed(pieces[j]))
      invariant forall low :: low in found ==> low != "" && Lists(pieces, low)
      invariant forall j :: 0 <= j < k && Listed(pieces[j]) != "" ==> Listed(pieces[j]) in found
    {
      var named := Lower(Strip(pieces[k]));
      assert named == Listed(pieces[k]);
      if IsDelegation(named) {
        return None;
      }
      if named != "" {
        found := found + {named};
      }
      k := k + 1;
    }
    return Some(found);
  }

  /** The bridge's `rewrite`: one pass to find what is named and claimed, one to copy. */
  method RewriteHeaders(r: Request, id: Identity, bodyLength: nat) returns (out: Result<seq<Header>, Code>)
    ensures out == Rewritten(r, id, bodyLength)
  {
    if RefusedTarget(r.target) {
      return Err(PathRefused);
    }
    var refusal, hop, user, role := ScanHeaders(r.headers);
    if refusal.Some? {
      return Err(refusal.value);
    }
    var kept := CopyKept(r.headers, hop);
    return Ok([HostHeader(id)] + kept + StampOf(r.httpMethod, user, role, id, bodyLength));
  }

  method ScanHeaders(headers: seq<Header>)
    returns (refusal: Option<Code>, hop: set<string>, user: Option<string>, role: Option<string>)
    ensures refusal == FirstOffence(headers)
    ensures refusal.None? ==>
      && user == Claim(headers, DELEGATED_USER) && role == Claim(headers, DELEGATED_ROLE)
      && forall low :: low in hop <==> HopByHop(headers, low)
  {
    refusal, hop, user, role := None, {}, None, None;
    var i := 0;
    while i < |headers|
      invariant 0 <= i <= |headers|
      invariant forall j :: 0 <= j < i ==> Offence(headers[j]).None?
      invariant forall low :: low in hop ==> HopByHop(headers, low)
      invariant forall j, low :: 0 <= j < i && NamedIn(headers[j], low) ==> low in hop
      invariant user == Claim(headers[..i], DELEGATED_USER)
      invariant role == Claim(headers[..i], DELEGATED_ROLE)
    {
      ClaimNext(headers, i, DELEGATED_USER);
      ClaimNext(headers, i, DELEGATED_ROLE);
      var names;
      refusal, names, user, role := ScanOne(headers[i], user, role);
      if refusal.Some? {
        OffenceFirst(headers, i);
        return;
      }
      hop := hop + names;
      i := i + 1;
    }
    refusal := None;
    assert headers[..i] == headers;
  }

  /** One header of the first pass: what it names, what it claims, and whether it refuses the request. */
  method ScanOne(h: Header, user: Option<string>, role: Option<string>)
    returns (refusal: Option<Code>, names: set<string>, user': Option<string>, role': Option<string>)
    ensures refusal == Offence(h)
    ensures refusal.None? ==> forall low :: low in names <==> NamedIn(h, low)
    ensures user' == if Lower(h.name) == DELEGATED_USER then Some(h.value) else user
    ensures role' == if Lower(h.name) == DELEGATED_ROLE then Some(h.value) else role
  {
    var low := Lower(h.name);
    refusal, names, user', role' := None, {}, user, role;
    assert DELEGATED_USER[18] == 'u' && DELEGATED_ROLE[18] == 'r';
    if low == "connection" {
      var named := ScanConnection(h);
      if named.None? {
        refusal := Some(ConnectionHeader);
      } else {
        names := named.value;
      }
    } else if low == DELEGATED_USER {
      user' := Some(h.value);
    } else if low == DELEGATED_ROLE {
      role' := Some(h.value);
    } else if low == "transfer-encoding" {
      refusal := Some(LengthRequired);
    }
  }

  lemma ClaimNext(headers: seq<Header>, i: nat, low: string)
    requires i < |headers|
    ensures Claim(headers[..i + 1], low) ==
      if Lower(headers[i].name) == low then Some(headers[i].value) else Claim(headers[..i], low)
  {
    assert headers[..i + 1][..i] == headers[..i];
  }

  method CopyKept(headers: seq<Header>, hop: set<string>) returns (kept: seq<Header>)
    requires forall low :: low in hop <==> HopByHop(headers, low)
    ensures kept == Kept(headers)
  {
    kept := [];
    var i := 0;
    while i < |headers|
      invariant 0 <= i <= |headers|
      invariant kept == Filter(headers[..i], h => Crosses(headers, h))
    {
      var low := Lower(headers[i].name);
      FilterNext(headers, h => Crosses(headers, h), i);
      if !(low in DROP || low in hop || DropPrefixed(low)) {
        kept := kept + [headers[i]];
      }
      i := i + 1;
    }
    assert headers[..i] == headers;
  }

  lemma {:induction false} OffenceFirst(headers: seq<Header>, i: nat)
    requires i < |headers| && Offence(headers[i]).Some?
    requires forall j :: 0 <= j < i ==> Offence(headers[j]).None?
    ensures FirstOffence(headers) == Offence(headers[i])
  {
    if i > 0 {
      assert forall j :: 0 <= j < |headers[1..]| ==> headers[1..][j] == headers[j + 1];
      OffenceFirst(headers[1..], i - 1);
    }
  }

  // ---------------------------------------------------------------- what the rewrite guarantees

  /** Every crossing header crosses once, at its own place in the order: `at` lists exactly the crossing positions. */
  lemma KeptPositions(headers: seq<Header>) returns (at: seq<nat>)
    ensures |at| == |Kept(headers)|
    ensures forall k :: 0 <= k < |at| ==> at[k] < |headers| && Kept(headers)[k] == headers[at[k]]
    ensures forall k, l :: 0 <= k < l < |at| ==> at[k] < at[l]
    ensures forall i :: 0 <= i < |headers| ==> (i in at <==> Crosses(headers, headers[i]))
  {
    at := FilterPositions(headers, h => Crosses(headers, h));
  }

  /** How many of `headers` carry the name `low`, whatever its case. */
  function CountOf(headers: seq<Header>, low: string): nat {
    if headers == [] then 0
    else (if Lower(headers[0].name) == low then 1 else 0) + CountOf(headers[1..], low)
  }

  lemma {:induction false} CountSum(a: seq<Header>, b: seq<Header>, low: string)
    ensures CountOf(a + b, low) == CountOf(a, low) + CountOf(b, low)
  {
    if a == [] {
      assert a + b == b;
    } else {
      assert (a + b)[1..] == a[1..] + b;
      CountSum(a[1..], b, low);
    }
  }

  lemma {:induction false} CountNone(headers: seq<Header>, low: string)
    requires forall i :: 0 <= i < |headers| ==> Lower(headers[i].name) != low
    ensures CountOf(headers, low) == 0
  {
    if headers != [] {
      CountNone(headers[1..], low);
    }
  }

  lemma KeptCrosses(headers: seq<Header>, k: nat)
    requires k < |Kept(headers)|
    ensures Crosses(headers, Kept(headers)[k])
  {
    FilterKeeps(headers, h => Crosses(headers, h), k);
  }

  lemma KeptCarriesNone(headers: seq<Header>, low: string)
    requires low in DROP
    ensures CountOf(Kept(headers), low) == 0
  {
    forall k | 0 <= k < |Kept(headers)| ensures Lower(Kept(headers)[k].name) != low {
      KeptCrosses(headers, k);
    }
    CountNone(Kept(headers), low);
  }

  lemma UserName()
    ensures Lower("X-Cwcli-Delegated-User") == DELEGATED_USER
  {
  }

  lemma RoleHeaderName()
    ensures Lower("X-Cwcli-Delegated-Role") == DELEGATED_ROLE
  {
  }

  lemma PlainNames()
    ensures Lower("Host") == "host" && Lower("Authorization") == "authorization"
    ensures Lower("Connection") == "connection" && Lower("Content-Length") == "content-length"
  {
  }

  lemma StampNames()
    ensures Lower("Host") == "host"
    ensures Lower("Authorization") == "authorization"
    ensures Lower("X-Cwcli-Delegated-User") == DELEGATED_USER
    ensures Lower("X-Cwcli-Delegated-Role") == DELEGATED_ROLE
    ensures Lower("Connection") == "connection"
    ensures Lower("Content-Length") == "content-length"
  {
    UserName();
    RoleHeaderName();
    PlainNames();
  }

  /** A run of four or five headers with known distinct names, counted. */
  lemma StampCounts(stamp: seq<Header>, low: string)
    requires |stamp| == 4 || |stamp| == 5
    ensures CountOf(stamp, low) ==
      (if Lower(stamp[0].name) == low then 1 else 0) + (if Lower(stamp[1].name) == low then 1 else 0) +
      (if Lower(stamp[2].name) == low then 1 else 0) + (if Lower(stamp[3].name) == low then 1 else 0) +
      (if |stamp| == 5 && Lower(stamp[4].name) == low then 1 else 0)
  {
    assert stamp[1..][1..] == stamp[2..] && stamp[2..][1..] == stamp[3..] && stamp[3..][1..] == stamp[4..];
    assert CountOf(stamp[3..], low) == (if Lower(stamp[3].name) == low then 1 else 0) + CountOf(stamp[4..], low);
    if |stamp| == 5 {
      assert stamp[4..] == [stamp[4]] && [stamp[4]][1..] == [];
    }
    assert CountOf(stamp[2..], low) == (if Lower(stamp[2].name) == low then 1 else 0) + CountOf(stamp[3..], low);
    assert CountOf(stamp[1..], low) == (if Lower(stamp[1].name) == low then 1 else 0) + CountOf(stamp[2..], low);
  }

  /** Each identity and framing name reaches the daemon once, and Content-Length exactly when there may be a body. */
  lemma OneIdentity(r: Request, id: Identity, bodyLength: nat, low: string)
    requires Rewritten(r, id, bodyLength).Ok?
    ensures var out := Rewritten(r, id, bodyLength).value;
      && (low in {"host", "authorization", DELEGATED_USER, DELEGATED_ROLE, "connection"} ==> CountOf(out, low) == 1)
      && CountOf(out, "content-length") == (if r.httpMethod == "POST" || bodyLength > 0 then 1 else 0)
      && (low in {"cookie", "keep-alive", "te", "trailer", "transfer-encoding", "upgrade", "origin", "referer"} ==>
            CountOf(out, low) == 0)
  {
    StampNames();
    if low in DROP {
      CountForwarded(r, id, bodyLength, low);
    }
    CountForwarded(r, id, bodyLength, "content-length");
  }

  lemma CountForwarded(r: Request, id: Identity, bodyLength: nat, low: string)
    requires Rewritten(r, id, bodyLength).Ok? && low in DROP
    ensures CountOf(Rewritten(r, id, bodyLength).value, low) ==
      (if low == "host" then 1 else 0) + CountOf(Stamp(r.httpMethod, r.headers, id, bodyLength), low)
    ensures CountOf(Stamp(r.httpMethod, r.headers, id, bodyLength), low) ==
      (if low in {"authorization", DELEGATED_USER, DELEGATED_ROLE, "connection"} then 1 else 0) +
      (if low == "content-length" && (r.httpMethod == "POST" || bodyLength > 0) then 1 else 0)
  {
    var stamp := Stamp(r.httpMethod, r.headers, id, bodyLength);
    var kept := Kept(r.headers);
    var host := [HostHeader(id)];
    StampNames();
    KeptCarriesNone(r.headers, low);
    CountSum(host + kept, stamp, low);
    CountSum(host, kept, low);
    assert host[1..] == [];
    StampCounts(stamp, low);
  }

  // ---------------------------------------------------------------- the forwarded head

  /** A forwarded request: same method and target, rewritten headers. */
  ghost function Forwarded(r: Request, id: Identity, bodyLength: nat): Result<Request, Code> {
    match Rewritten(r, id, bodyLength)
    case Err(e) => Err(e)
    case Ok(headers) => Ok(Request(r.httpMethod, r.target, headers))
  }

  /** Text that can end a header value: printable ASCII with no blank at its end. */
  predicate EndsField(s: string) {
    AllPrintable(s) && (s != "" ==> s[|s| - 1] != ' ')
  }

  lemma StampFit(h: Header, prefix: string, s: string)
    requires IsToken(h.name) && h.value == prefix + s
    requires prefix != "" && AllPrintable(prefix) && prefix[0] != ' '
    ensures HeaderFit(h) <==> EndsField(s) && (s == "" ==> prefix[|prefix| - 1] != ' ')
  {
    PrintableParts(prefix, s, "");
    assert prefix + s + "" == prefix + s;
    assert h.value[0] == prefix[0] && IsPrintable(prefix[0]);
    if s != "" {
      assert h.value[|h.value| - 1] == s[|s| - 1];
    }
  }

  lemma DecimalText(n: nat)
    ensures EndsField(Decimal(n)) && Decimal(n) != ""
  {
  }

  lemma HostFit(id: Identity)
    ensures HeaderFit(HostHeader(id))
  {
    DecimalText(id.port);
    StampFit(HostHeader(id), "127.0.0.1:", Decimal(id.port));
  }

  lemma UserFit(claimed: Option<string>, hub: string)
    ensures HeaderFit(Header("X-Cwcli-Delegated-User", DelegatedUser(claimed, hub))) <==> EndsField(hub)
  {
    var prefix := BareUser(claimed) + "@";
    forall i | 0 <= i < |prefix| ensures IsPrintable(prefix[i]) && prefix[i] != ' ' {
      assert i < |BareUser(claimed)| ==> IsUserChar(prefix[i]);
    }
    StampFit(Header("X-Cwcli-Delegated-User", DelegatedUser(claimed, hub)), prefix, hub);
  }

  lemma RoleFit(role: Role)
    ensures HeaderFit(Header("X-Cwcli-Delegated-Role", RoleName(role)))
  {
  }

  lemma CloseFit()
    ensures HeaderFit(Header("Connection", "close"))
  {
  }

  lemma LengthFit(n: nat)
    ensures HeaderFit(Header("Content-Length", Decimal(n)))
  {
    DecimalText(n);
  }

  lemma TokenFit(token: string)
    ensures HeaderFit(Header("Authorization", "Bearer " + token)) <==> EndsField(token) && token != ""
  {
    StampFit(Header("Authorization", "Bearer " + token), "Bearer ", token);
  }

  ghost predicate AllFit(headers: seq<Header>) {
    forall i :: 0 <= i < |headers| ==> HeaderFit(headers[i])
  }

  lemma AllFitSum(a: seq<Header>, b: seq<Header>)
    ensures AllFit(a + b) <==> AllFit(a) && AllFit(b)
  {
    if AllFit(a + b) {
      forall i | 0 <= i < |a| ensures HeaderFit(a[i]) {
        assert (a + b)[i] == a[i];
      }
      forall i | 0 <= i < |b| ensures HeaderFit(b[i]) {
        assert (a + b)[|a| + i] == b[i];
      }
    }
  }

  lemma AllFitFour(a: Header, b: Header, c: Header, d: Header)
    ensures AllFit([a, b, c, d]) <==> HeaderFit(a) && HeaderFit(b) && HeaderFit(c) && HeaderFit(d)
  {
    var s := [a, b, c, d];
    if AllFit(s) {
      assert HeaderFit(s[0]) && HeaderFit(s[1]) && HeaderFit(s[2]) && HeaderFit(s[3]);
    }
  }

  lemma StampsFit(httpMethod: string, headers: seq<Header>, id: Identity, bodyLength: nat)
    ensures AllFit(Stamp(httpMethod, headers, id, bodyLength)) <==>
      EndsField(id.hub) && EndsField(id.token) && id.token != ""
  {
    var user := DelegatedUser(Claim(headers, DELEGATED_USER), id.hub);
    var role := CapRole(Claim(headers, DELEGATED_ROLE), id.cap);
    TokenFit(id.token);
    UserFit(Claim(headers, DELEGATED_USER), id.hub);
    RoleFit(role);
    CloseFit();
    LengthFit(bodyLength);
    var four := [Header("Authorization", "Bearer " + id.token), Header("X-Cwcli-Delegated-User", user),
                 Header("X-Cwcli-Delegated-Role", RoleName(role)), Header("Connection", "close")];
    var more := if httpMethod == "POST" || bodyLength > 0 then [Header("Content-Length", Decimal(bodyLength))] else [];
    AllFitFour(four[0], four[1], four[2], four[3]);
    AllFitSum(four, more);
    assert Stamp(httpMethod, headers, id, bodyLength) == four + more;
  }

  lemma StampDelegated(stamp: seq<Header>, i: nat)
    requires i < |stamp| && (|stamp| == 4 || |stamp| == 5)
    requires stamp[0].name == "Authorization" && stamp[1].name == "X-Cwcli-Delegated-User"
    requires stamp[2].name == "X-Cwcli-Delegated-Role" && stamp[3].name == "Connection"
    requires |stamp| == 5 ==> stamp[4].name == "Content-Length"
    ensures IsDelegated(stamp[i].name) <==> i == 1 || i == 2
    ensures i == 1 ==> Lower(stamp[i].name) == DELEGATED_USER
    ensures i == 2 ==> Lower(stamp[i].name) == DELEGATED_ROLE
    ensures DELEGATED_USER != DELEGATED_ROLE
  {
    StampNames();
    assert !StartsWith("authorization", DELEGATED_PREFIX);
    assert !StartsWith("connection", DELEGATED_PREFIX) && !StartsWith("content-length", DELEGATED_PREFIX);
    assert DELEGATED_USER[18] != DELEGATED_ROLE[18];
  }

  lemma OnceTogether(host: Header, kept: seq<Header>, stamp: seq<Header>)
    requires !IsDelegated(host.name)
    requires DelegatedOnce(kept)
    requires forall i :: 0 <= i < |kept| ==> !IsDelegation(Lower(kept[i].name))
    requires DelegatedOnce(stamp)
    requires forall i :: 0 <= i < |stamp| && IsDelegated(stamp[i].name) ==> IsDelegation(Lower(stamp[i].name))
    ensures DelegatedOnce([host] + kept + stamp)
  {
    var out, n := [host] + kept + stamp, |kept|;
    forall i, j | 0 <= i < j < |out| && IsDelegated(out[i].name)
      ensures Lower(out[i].name) != Lower(out[j].name)
    {
      if i > n {
        assert out[i] == stamp[i - n - 1] && out[j] == stamp[j - n - 1];
      } else if i > 0 {
        assert out[i] == kept[i - 1];
        if j <= n {
          assert out[j] == kept[j - 1];
        } else {
          assert out[j] == stamp[j - n - 1];
          if IsDelegated(out[j].name) {
            assert IsDelegation(Lower(stamp[j - n - 1].name));
          }
        }
      }
    }
  }

  lemma KeptOnce(headers: seq<Header>)
    requires DelegatedOnce(headers)
    ensures DelegatedOnce(Kept(headers))
    ensures forall i :: 0 <= i < |Kept(headers)| ==> !IsDelegation(Lower(Kept(headers)[i].name))
  {
    var kept := Kept(headers);
    forall i | 0 <= i < |kept| ensures !IsDelegation(Lower(kept[i].name)) {
      KeptCrosses(headers, i);
    }
    var at := KeptPositions(headers);
    forall i, j | 0 <= i < j < |kept| && IsDelegated(kept[i].name)
      ensures Lower(kept[i].name) != Lower(kept[j].name)
    {
      assert at[i] < at[j];
    }
  }

  lemma ForwardedOnce(r: Request, id: Identity, bodyLength: nat)
    requires DelegatedOnce(r.headers) && Rewritten(r, id, bodyLength).Ok?
    ensures DelegatedOnce(Rewritten(r, id, bodyLength).value)
  {
    var stamp := Stamp(r.httpMethod, r.headers, id, bodyLength);
    KeptOnce(r.headers);
    forall i | 0 <= i < |stamp|
      ensures IsDelegated(stamp[i].name) ==> IsDelegation(Lower(stamp[i].name))
    {
      StampDelegated(stamp, i);
    }
    forall i, j | 0 <= i < j < |stamp| && IsDelegated(stamp[i].name)
      ensures Lower(stamp[i].name) != Lower(stamp[j].name)
    {
      StampDelegated(stamp, i);
      StampDelegated(stamp, j);
    }
    assert !IsDelegated("Host") by {
      StampNames();
    }
    OnceTogether(HostHeader(id), Kept(r.headers), stamp);
  }

  /**
   Print/parse round trip. The daemon, parsing the printed head, reads back exactly the method,
   target and rewritten headers when and only when the hub name and the token are printable
   ASCII that does not end in a blank, and the token is not empty.
   */
  lemma ForwardedHeadRoundTrip(head: string, r: Request, id: Identity, bodyLength: nat)
    requires RequestOf(head) == Ok(r) && Forwarded(r, id, bodyLength).Ok?
    ensures var f := Forwarded(r, id, bodyLength).value;
      RequestOf(PrintHead(f)) == Ok(f) <==> EndsField(id.hub) && EndsField(id.token) && id.token != ""
  {
    ParsedIsFit(head, r);
    var f := Forwarded(r, id, bodyLength).value;
    var host, kept := [HostHeader(id)], Kept(r.headers);
    var stamp := Stamp(r.httpMethod, r.headers, id, bodyLength);
    KeptFit(r.headers);
    HostFit(id);
    StampsFit(r.httpMethod, r.headers, id, bodyLength);
    AllFitSum(host, kept);
    AllFitSum(host + kept, stamp);
    ForwardedOnce(r, id, bodyLength);
    FitIs(f);
    PrintParseRoundTrip(f);
  }

  lemma FitIs(r: Request)
    ensures Fit(r) <==> IsMethod(r.httpMethod) && IsTarget(r.target) && AllFit(r.headers) && DelegatedOnce(r.headers)
  {
  }

  lemma KeptFit(headers: seq<Header>)
    requires AllFit(headers)
    ensures AllFit(Kept(headers))
  {
    var at := KeptPositions(headers);
  }

  // ---------------------------------------------------------------- what the daemon is told, spelled out

  /** The claim under a name is the last value sent under it, in whatever case. */
  ghost predicate LastClaim(headers: seq<Header>, low: string, claim: Option<string>) {
    match claim
    case None => forall h :: h in headers ==> Lower(h.name) != low
    case Some(v) => exists i :: 0 <= i < |headers| && LastAt(headers, low, v, i)
  }

  predicate LastAt(headers: seq<Header>, low: string, v: string, i: nat)
    requires i < |headers|
  {
    && Lower(headers[i].name) == low && headers[i].value == v
    && forall j :: i < j < |headers| ==> Lower(headers[j].name) != low
  }

  lemma {:induction false} ClaimIsLast(headers: seq<Header>, low: string, claim: Option<string>)
    ensures LastClaim(headers, low, claim) <==> claim == Claim(headers, low)
  {
    if headers != [] {
      var n := |headers| - 1;
      var before, last := headers[..n], headers[n];
      ClaimIsLast(before, low, claim);
      assert headers == before + [last];
      if Lower(last.name) == low {
        assert last in headers;
        if claim == Some(last.value) {
          assert LastAt(headers, low, last.value, n);
        }
      } else {
        ClaimBefore(headers, low, claim);
      }
    }
  }

  lemma ClaimBefore(headers: seq<Header>, low: string, claim: Option<string>)
    requires headers != [] && Lower(headers[|headers| - 1].name) != low
    ensures LastClaim(headers, low, claim) <==> LastClaim(headers[..|headers| - 1], low, claim)
  {
    var n := |headers| - 1;
    var before := headers[..n];
    assert headers == before + [headers[n]];
    if claim.Some? {
      forall i: nat | i < n ensures LastAt(headers, low, claim.value, i) <==> LastAt(before, low, claim.value, i) {
        assert headers[i] == before[i];
        assert forall j :: i < j < n ==> headers[j] == before[j];
      }
    }
  }

  /** The role a claim is told as under a cap. */
  predicate TellsRole(value: string, claim: Option<string>, cap: Role) {
    var c := if claim.Some? then Lower(Strip(claim.value)) else "";
    match cap
    case Viewer => value == "viewer"
    case Operator => value == if c == "operator" || c == "admin" then "operator" else "viewer"
    case Admin => value == if c == "admin" then "admin" else if c == "operator" then "operator" else "viewer"
  }

  /** A bare user name: one to eighty letters, digits, dots, underscores, pluses and minuses. */
  predicate IsBare(s: string) {
    && 1 <= |s| <= 80
    && forall i :: 0 <= i < |s| ==>
         'A' <= s[i] <= 'Z' || 'a' <= s[i] <= 'z' || '0' <= s[i] <= '9' || s[i] in "._+-"
  }

  /** `bare` is all of `t`, or what stands before an `@` in it. */
  predicate Heads(bare: string, t: string) {
    t == bare || StartsWith(t, bare + "@")
  }

  /** The user told for a claim: the valid name at its head, or `hub` when there is none, under this hub. */
  ghost predicate TellsUser(value: string, claim: Option<string>, hub: string) {
    var t := if claim.Some? then Strip(claim.value) else "";
    exists bare ::
      && value == bare + "@" + hub
      && if (exists b :: IsBare(b) && Heads(b, t)) then IsBare(bare) && Heads(bare, t) else bare == "hub"
  }

  lemma BareSpelled(s: string)
    ensures IsUser(s) <==> IsBare(s)
  {
    var marks := "._+-";
    assert marks == ['.', '_', '+', '-'];
    assert forall i :: 0 <= i < |s| ==> (IsUserChar(s[i]) <==>
      'A' <= s[i] <= 'Z' || 'a' <= s[i] <= 'z' || '0' <= s[i] <= '9' || s[i] in marks);
  }

  lemma RoleSpelled(claim: Option<string>, cap: Role)
    ensures TellsRole(RoleName(CapRole(claim, cap)), claim, cap)
  {
  }

  lemma UserSpelled(claim: Option<string>, hub: string)
    ensures TellsUser(DelegatedUser(claim, hub), claim, hub)
  {
    var t := Strip(OrEmpty(claim));
    StripEmpty();
    var bare := BareUser(claim);
    if b :| IsBare(b) && Heads(b, t) {
      BareSpelled(b);
      HeadIsBare(claim, b);
    } else {
      BareUserIsClaimed(claim);
      BareSpelled(bare);
      assert !(IsBare(bare) && Heads(bare, t));
    }
    assert DelegatedUser(claim, hub) == bare + "@" + hub;
  }

  lemma StripEmpty()
    ensures Strip("") == ""
  {
  }

  /** A valid name at the head of the claim is the one taken. */
  lemma HeadIsBare(claim: Option<string>, b: string)
    requires IsUser(b) && Heads(b, Strip(OrEmpty(claim)))
    ensures BareUser(claim) == b
  {
    var t := Strip(OrEmpty(claim));
    UserChars(b);
    if t == b {
      FindNoAt(b);
    } else {
      assert t == b + "@" + t[|b| + 1..];
      SplitHead(b, "@", t[|b| + 1..]);
    }
  }

  /** The list in order: Host, the headers that cross, then the bridge's own. */
  lemma RewrittenOrder(r: Request, id: Identity, n: nat)
    requires Rewritten(r, id, n).Ok?
    ensures var out, k := Rewritten(r, id, n).value, |Kept(r.headers)|;
      && |out| == k + 5 + (if r.httpMethod == "POST" || n > 0 then 1 else 0)
      && out[0].name == "Host" && out[1..k + 1] == Kept(r.headers)
      && out[k + 1].name == "Authorization" && out[k + 2].name == "X-Cwcli-Delegated-User"
      && out[k + 3].name == "X-Cwcli-Delegated-Role" && out[k + 4].name == "Connection"
      && (|out| == k + 6 ==> out[k + 5].name == "Content-Length")
  {
  }

  /** A header under one of the bridge's own names is the bridge's own. */
  lemma OwnHeader(r: Request, id: Identity, n: nat, h: Header)
    requires Rewritten(r, id, n).Ok? && h in Rewritten(r, id, n).value && Lower(h.name) in DROP
    ensures h == HostHeader(id) || h in Stamp(r.httpMethod, r.headers, id, n)
  {
    if h in Kept(r.headers) {
      var k :| 0 <= k < |Kept(r.headers)| && Kept(r.headers)[k] == h;
      KeptCrosses(r.headers, k);
    }
  }

  /**
   Every identity and framing header the daemon receives, by what it says: this hub's user under the
   name the hub claimed, the role that is the lower of claim and cap, the daemon's own token, this
   machine's own address, and the length of the body. No other header carries any of these names.
   */
  lemma ToldExactly(r: Request, id: Identity, n: nat, h: Header, user: Option<string>, role: Option<string>)
    requires Rewritten(r, id, n).Ok? && h in Rewritten(r, id, n).value
    requires LastClaim(r.headers, "x-cwcli-delegated-user", user)
    requires LastClaim(r.headers, "x-cwcli-delegated-role", role)
    ensures Lower(h.name) == "x-cwcli-delegated-role" ==> TellsRole(h.value, role, id.cap)
    ensures Lower(h.name) == "x-cwcli-delegated-user" ==> TellsUser(h.value, user, id.hub)
    ensures Lower(h.name) == "authorization" ==> h.value == "Bearer " + id.token
    ensures Lower(h.name) == "host" ==>
      exists port :: h.value == "127.0.0.1:" + port && AllDigits(port) && DigitsValue(port) == id.port
    ensures Lower(h.name) == "connection" ==> h.value == "close"
    ensures Lower(h.name) == "content-length" ==> AllDigits(h.value) && DigitsValue(h.value) == n
  {
    if Lower(h.name) in DROP {
      OwnHeader(r, id, n, h);
      ClaimIsLast(r.headers, DELEGATED_USER, user);
      ClaimIsLast(r.headers, DELEGATED_ROLE, role);
      OwnSays(r.httpMethod, user, role, id, n, h);
    }
  }

  lemma OwnSays(httpMethod: string, user: Option<string>, role: Option<string>, id: Identity, n: nat, h: Header)
    requires h == HostHeader(id) || h in StampOf(httpMethod, user, role, id, n)
    ensures Lower(h.name) == "x-cwcli-delegated-role" ==> TellsRole(h.value, role, id.cap)
    ensures Lower(h.name) == "x-cwcli-delegated-user" ==> TellsUser(h.value, user, id.hub)
    ensures Lower(h.name) == "authorization" ==> h.value == "Bearer " + id.token
    ensures Lower(h.name) == "host" ==>
      exists port :: h.value == "127.0.0.1:" + port && AllDigits(port) && DigitsValue(port) == id.port
    ensures Lower(h.name) == "connection" ==> h.value == "close"
    ensures Lower(h.name) == "content-length" ==> AllDigits(h.value) && DigitsValue(h.value) == n
  {
    StampNames();
    RoleSpelled(role, id.cap);
    UserSpelled(user, id.hub);
    DecimalValue(id.port);
    DecimalValue(n);
    assert DELEGATED_USER[18] != DELEGATED_ROLE[18];
  }

  // ---------------------------------------------------------------- what crosses and what refuses, spelled out

  /** A name of a list: `low` in any case, with blanks around it. */
  ghost predicate Pads(piece: string, low: string) {
    exists left, core, right :: PadsAs(piece, low, left, core, right)
  }

  predicate PadsAs(piece: string, low: string, left: string, core: string, right: string) {
    && piece == left + core + right
    && AllSpace(left) && AllSpace(right) && Trimmed(core) && Lower(core) == low
  }

  lemma PadsIsListed(piece: string, low: string)
    ensures Pads(piece, low) <==> Listed(piece) == low
  {
    if left, core, right :| PadsAs(piece, low, left, core, right) {
      StripIs(left, core, right);
    }
    var left, right := StripCuts(piece);
    assert Listed(piece) == low ==> PadsAs(piece, low, left, Strip(piece), right);
  }

  /** A Connection header names `low` when one of its comma-separated pieces is that name (section 6.1 of RFC 7230). */
  lemma NamedInMeans(h: Header, low: string)
    ensures NamedIn(h, low) <==>
      && Lower(h.name) == "connection" && low != ""
      && exists piece :: piece in Split(h.value, ",") && Pads(piece, low)
  {
    var pieces := Split(h.value, ",");
    forall piece ensures Pads(piece, low) <==> Listed(piece) == low {
      PadsIsListed(piece, low);
    }
    if Lists(pieces, low) {
      var k :| 0 <= k < |pieces| && Listed(pieces[k]) == low;
      assert pieces[k] in pieces;
    }
  }

  /** Which of the hub's headers reach the daemon. */
  lemma CrossesMeans(headers: seq<Header>, h: Header)
    ensures Crosses(headers, h) <==>
      var low := Lower(h.name);
      && low !in ["authorization", "cookie", "host", "connection", "keep-alive", "te", "trailer",
                  "transfer-encoding", "upgrade", "content-length", "origin", "referer",
                  "x-cwcli-delegated-user", "x-cwcli-delegated-role"]
      && !StartsWith(low, "proxy-") && !StartsWith(low, "sec-fetch-") && !StartsWith(low, "x-forwarded-")
      && forall i :: 0 <= i < |headers| ==> !NamedIn(headers[i], low)
  {
  }

  /** A header that refuses the whole request, and how. */
  ghost predicate Offends(h: Header, code: Code) {
    || (code == ConnectionHeader && (NamedIn(h, "x-cwcli-delegated-user") || NamedIn(h, "x-cwcli-delegated-role")))
    || (code == LengthRequired && Lower(h.name) == "transfer-encoding")
  }

  ghost predicate Harmless(h: Header) {
    !Offends(h, ConnectionHeader) && !Offends(h, LengthRequired)
  }

  /** A path no hub reaches. */
  predicate OutOfReach(target: string) {
    StartsWith(target, "/api/v1/session") || StartsWith(target, "/api/v1/hosts")
  }

  lemma OffenceMeans(h: Header, code: Code)
    ensures Offence(h) == Some(code) <==> Offends(h, code)
    ensures Offence(h).None? <==> Harmless(h)
  {
    assert "connection"[0] != "transfer-encoding"[0];
  }

  /** When the rewrite refuses, and with which code: the path first, then the first offending header. */
  lemma RefusesExactly(r: Request, id: Identity, n: nat, code: Code)
    ensures Rewritten(r, id, n).Ok? <==> !OutOfReach(r.target) && forall h :: h in r.headers ==> Harmless(h)
    ensures Rewritten(r, id, n) == Err(code) <==>
      if OutOfReach(r.target) then code == PathRefused
      else exists i :: 0 <= i < |r.headers| && FirstOffends(r.headers, i, code)
  {
    FirstOffenceMeans(r.headers, code);
    NoOffenceMeans(r.headers);
  }

  ghost predicate FirstOffends(headers: seq<Header>, i: nat, code: Code)
    requires i < |headers|
  {
    Offends(headers[i], code) && forall j :: 0 <= j < i ==> Harmless(headers[j])
  }

  lemma NoOffenceMeans(headers: seq<Header>)
    ensures FirstOffence(headers).None? <==> forall h :: h in headers ==> Harmless(h)
  {
    forall i | 0 <= i < |headers| ensures Offence(headers[i]).None? <==> Harmless(headers[i]) {
      OffenceMeans(headers[i], LengthRequired);
    }
  }

  lemma FirstOffenceMeans(headers: seq<Header>, code: Code)
    ensures FirstOffence(headers) == Some(code) <==> exists i :: 0 <= i < |headers| && FirstOffends(headers, i, code)
  {
    forall i | 0 <= i < |headers|
      ensures Offence(headers[i]) == Some(code) <==> Offends(headers[i], code)
      ensures Offence(headers[i]).None? <==> Harmless(headers[i])
    {
      OffenceMeans(headers[i], code);
    }
    if i :| 0 <= i < |headers| && FirstOffends(headers, i, code) {
      OffenceFirst(headers, i);
    }
    if FirstOffence(headers) == Some(code) {
      var i := OffenceAt(headers);
      assert FirstOffends(headers, i, code);
    }
  }

  lemma {:induction false} OffenceAt(headers: seq<Header>) returns (i: nat)
    requires FirstOffence(headers).Some?
    ensures i < |headers| && Offence(headers[i]) == FirstOffence(headers)
    ensures forall j :: 0 <= j < i ==> Offence(headers[j]).None?
  {
    if Offence(headers[0]).Some? {
      i := 0;
    } else {
      i := OffenceAt(headers[1..]);
      assert forall j :: 0 <= j < i ==> headers[1..][j] == headers[j + 1];
      i := i + 1;
      assert forall j :: 0 < j < i ==> headers[j] == headers[1..][j - 1];
    }
  }
}
