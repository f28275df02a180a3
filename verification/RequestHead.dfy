/**
 The request head: the strict parser of the bridge, and the printer of the head it forwards.

 `RequestOf` is what `ParseRequest` computes. `IsHead` is the grammar it is meant to accept,
 stated without reference to the parser: section 3.2 of RFC 7230 with SP as the only optional
 whitespace, no folded line (section 3.2.4), token names (section 3.2.6), and no
 `X-Cwcli-Delegated-*` name twice.
 */
module RequestHead {
  import opened Text

  /** Why a request is refused; the bridge's own error codes. */
  datatype Code =
    | NotHttp
    | BadHeader
    | DelegationRepeated
    | HeadTooLarge
    | HeadTimeout
    | Truncated
    | BodyTimeout
    | BadLength
    | BodyTooLarge
    | PathRefused
    | ConnectionHeader
    | LengthRequired
    | Revoked
    | NotCanonical
    | CodeChangeRefused
    | DaemonDown

  datatype Header = Header(name: string, value: string)

  datatype Request = Request(httpMethod: string, target: string, headers: seq<Header>)

  const API: string := "/api/v1/"
  const DELEGATED_PREFIX: string := "x-cwcli-delegated-"

  // ---------------------------------------------------------------- the grammar

  predicate IsTokenChar(c: char) {
    || c == '!' || '#' <= c <= '\'' || c == '*' || c == '+' || c == '-' || c == '.'
    || IsDigit(c) || 'A' <= c <= 'Z' || '^' <= c <= 'z' || c == '|' || c == '~'
  }

  predicate IsToken(s: string) {
    s != "" && forall i :: 0 <= i < |s| ==> IsTokenChar(s[i])
  }

  predicate IsMethod(s: string) {
    s == "GET" || s == "POST"
  }

  predicate IsTarget(s: string) {
    StartsWith(s, API) && forall i :: 0 <= i < |s| ==> '!' <= s[i] <= '~'
  }

  /** Printable ASCII, with every CR and LF part of a CRLF. */
  predicate CleanAt(s: string, i: nat)
    requires i < |s|
  {
    if s[i] == CR then i + 1 < |s| && s[i + 1] == LF
    else if s[i] == LF then 0 < i && s[i - 1] == CR
    else IsPrintable(s[i])
  }

  predicate CleanHead(s: string) {
    forall i :: 0 <= i < |s| ==> CleanAt(s, i)
  }

  predicate IsDelegated(name: string) {
    StartsWith(Lower(name), DELEGATED_PREFIX)
  }

  /** No two headers carry the same `X-Cwcli-Delegated-*` name, whatever their case. */
  ghost predicate DelegatedOnce(headers: seq<Header>) {
    forall i, j :: 0 <= i < j < |headers| && IsDelegated(headers[i].name) ==>
      Lower(headers[i].name) != Lower(headers[j].name)
  }

  function Spaces(n: nat): (r: string)
    ensures |r| == n && AllSpace(r) && forall i :: 0 <= i < n ==> r[i] == ' '
  {
    seq(n, i => ' ')
  }

  /** `field-name ":" OWS field-value OWS`. */
  ghost predicate IsField(raw: string, h: Header) {
    && IsToken(h.name)
    && AllPrintable(h.value) && Trimmed(h.value)
    && exists a: nat, b: nat :: raw == h.name + ":" + Spaces(a) + h.value + Spaces(b)
  }

  /** The request line, which the bridge reads after stripping blanks around it. */
  ghost predicate IsRequestLine(line: string, r: Request) {
    && IsMethod(r.httpMethod)
    && IsTarget(r.target)
    && (line == r.httpMethod + " " + r.target + " HTTP/1.0" || line == r.httpMethod + " " + r.target + " HTTP/1.1")
  }

  function NonBlank(lines: seq<string>): (r: seq<string>)
    ensures forall i :: 0 <= i < |r| ==> r[i] != ""
  {
    if lines == [] then []
    else if lines[0] == "" then NonBlank(lines[1..])
    else [lines[0]] + NonBlank(lines[1..])
  }

  /** Line by line, the fields denote the headers. */
  ghost predicate AllFields(fields: seq<string>, headers: seq<Header>) {
    |headers| == |fields| && forall i :: 0 <= i < |fields| ==> IsField(fields[i], headers[i])
  }

  /** The grammar: `head` is a request head that denotes `r`. */
  ghost predicate IsHead(head: string, r: Request) {
    var lines := Split(head, CRLF);
    var fields := NonBlank(lines[1..]);
    && CleanHead(head)
    && IsRequestLine(Strip(lines[0]), r)
    && AllFields(fields, r.headers)
    && DelegatedOnce(r.headers)
  }

  // ---------------------------------------------------------------- the parser

  function LineTail(line: string): (r: Option<string>)
    ensures r.Some? ==> line == r.value + " HTTP/1.0" || line == r.value + " HTTP/1.1"
  {
    var n := |line| - 9;
    if n >= 0 && (line[n..] == " HTTP/1.0" || line[n..] == " HTTP/1.1") then
      assert line == line[..n] + line[n..];
      Some(line[..n])
    else
      None
  }

  /** The method and target of a request line. */
  function MatchRequestLine(line: string): Option<(string, string)> {
    match LineTail(line)
    case None => None
    case Some(s) =>
      if StartsWith(s, "GET ") && IsTarget(s[4..]) then Some(("GET", s[4..]))
      else if StartsWith(s, "POST ") && IsTarget(s[5..]) then Some(("POST", s[5..]))
      else None
  }

  /** One raw header line. */
  function FieldOf(raw: string): Result<Header, Code> {
    if raw != "" && raw[0] == ' ' then Err(BadHeader)
    else
      match Find(raw, ":")
      case None => Err(BadHeader)
      case Some(c) =>
        if IsToken(raw[..c]) then Ok(Header(raw[..c], Strip(raw[c + 1..]))) else Err(BadHeader)
  }

  /** The delegation names met once `h` is read too. */
  function Met(met: set<string>, h: Header): set<string> {
    if IsDelegated(h.name) then met + {Lower(h.name)} else met
  }

  /** The header lines left to right, with the delegation names already met. */
  function FieldsOf(lines: seq<string>, met: set<string>): Result<seq<Header>, Code> {
    if lines == [] then Ok([])
    else if lines[0] == "" then FieldsOf(lines[1..], met)
    else
      match FieldOf(lines[0])
      case Err(e) => Err(e)
      case Ok(h) =>
        if IsDelegated(h.name) && Lower(h.name) in met then Err(DelegationRepeated)
        else
          match FieldsOf(lines[1..], Met(met, h))
          case Err(e) => Err(e)
          case Ok(rest) => Ok([h] + rest)
  }

  function RequestOf(head: string): Result<Request, Code> {
    var lines := Split(head, CRLF);
    match MatchRequestLine(Strip(lines[0]))
    case None => Err(NotHttp)
    case Some((m, target)) =>
      if !CleanHead(head) then Err(BadHeader)
      else
        match FieldsOf(lines[1..], {})
        case Err(e) => Err(e)
        case Ok(headers) => Ok(Request(m, target, headers))
  }

  /** The bridge's parser: the request line first, then the bytes, then the fields. */
  method ParseRequest(head: string) returns (r: Result<Request, Code>)
    ensures r == RequestOf(head)
  {
    var lines := Split(head, CRLF);
    var matched := MatchRequestLine(Strip(lines[0]));
    if matched.None? {
      return Err(NotHttp);
    }
    if !CleanHead(head) {
      return Err(BadHeader);
    }
    var headers := ParseFields(lines[1..]);
    if headers.Err? {
      return Err(headers.error);
    }
    return Ok(Request(matched.value.0, matched.value.1, headers.value));
  }

  /** The headers met so far, followed by what the remaining lines give. */
  ghost function Continue(headers: seq<Header>, rest: Result<seq<Header>, Code>): Result<seq<Header>, Code> {
    match rest
    case Err(_) => rest
    case Ok(more) => Ok(headers + more)
  }

  /** One pass over the lines, refusing at the first bad one. */
  method ParseFields(lines: seq<string>) returns (r: Result<seq<Header>, Code>)
    ensures r == FieldsOf(lines, {})
  {
    var headers: seq<Header> := [];
    var met: set<string> := {};
    assert FieldsOf(lines, {}).Ok? ==> headers + FieldsOf(lines, {}).value == FieldsOf(lines, {}).value;
    var i := 0;
    while i < |lines|
      invariant 0 <= i <= |lines|
      invariant FieldsOf(lines, {}) == Continue(headers, FieldsOf(lines[i..], met))
    {
      var raw := lines[i];
      assert lines[i..][0] == raw && lines[i..][1..] == lines[i + 1..];
      i := i + 1;
      if raw != "" {
        if raw[0] == ' ' {
          return Err(BadHeader);
        }
        var colon := Find(raw, ":");
        if colon.None? || !IsToken(raw[..colon.value]) {
          return Err(BadHeader);
        }
        var name, value := raw[..colon.value], Strip(raw[colon.value + 1..]);
        if IsDelegated(name) && Lower(name) in met {
          return Err(DelegationRepeated);
        }
        ContinueOne(headers, Header(name, value), FieldsOf(lines[i..], Met(met, Header(name, value))));
        met := Met(met, Header(name, value));
        headers := headers + [Header(name, value)];
      }
    }
    assert lines[i..] == [] && headers + [] == headers;
    return Ok(headers);
  }

  lemma ContinueOne(headers: seq<Header>, h: Header, rest: Result<seq<Header>, Code>)
    ensures Continue(headers, Continue([h], rest)) == Continue(headers + [h], rest)
  {
    if rest.Ok? {
      assert headers + ([h] + rest.value) == headers + [h] + rest.value;
    }
  }

  // ---------------------------------------------------------------- parser and grammar agree

  lemma RequestLineAgrees(line: string, r: Request)
    ensures IsRequestLine(line, r) <==> MatchRequestLine(line) == Some((r.httpMethod, r.target))
  {
    var s := r.httpMethod + " " + r.target;
    if IsRequestLine(line, r) {
      var tail := LineTail(line);
      assert line[..|line| - 9] == s;
      assert tail == Some(s);
      if r.httpMethod == "GET" {
        assert s[..4] == "GET " && s[4..] == r.target;
      } else {
        assert s[..4][0] == 'P';
        assert s[..5] == "POST " && s[5..] == r.target;
      }
    }
    if MatchRequestLine(line) == Some((r.httpMethod, r.target)) {
      var head := LineTail(line).value;
      if r.httpMethod == "GET" {
        assert head == head[..4] + head[4..];
        assert head == "GET" + " " + r.target;
      } else {
        assert head == head[..5] + head[5..];
        assert head == "POST" + " " + r.target;
      }
      assert line == s + " HTTP/1.0" || line == s + " HTTP/1.1";
    }
  }

  lemma TokenHasNoColon(s: string, i: nat)
    requires IsToken(s) && i < |s|
    ensures s[i] != ':' && s[i] != ' '
  {
    assert IsTokenChar(s[i]);
  }

  /** Blank characters among printable ones are spaces. */
  lemma PrintableBlank(s: string)
    requires AllPrintable(s) && AllSpace(s)
    ensures s == Spaces(|s|)
  {
    forall i | 0 <= i < |s| ensures s[i] == ' ' {
      assert IsPrintable(s[i]) && IsSpace(s[i]);
    }
  }

  lemma FieldParses(raw: string, h: Header)
    requires IsField(raw, h)
    ensures FieldOf(raw) == Ok(h)
  {
    var a: nat, b: nat :| raw == h.name + ":" + Spaces(a) + h.value + Spaces(b);
    var c := |h.name|;
    var rest := Spaces(a) + h.value + Spaces(b);
    assert raw == h.name + ":" + rest;
    assert raw[..c] == h.name && raw[c + 1..] == rest && raw[c..c + 1] == ":";
    forall j | 0 <= j < c ensures !At(raw, ":", j) {
      TokenHasNoColon(h.name, j);
      assert raw[j..j + 1][0] == h.name[j];
    }
    FindIs(raw, ":", c);
    TokenHasNoColon(h.name, 0);
    StripIs(Spaces(a), h.value, Spaces(b));
  }

  lemma FieldIsField(raw: string)
    requires AllPrintable(raw) && FieldOf(raw).Ok?
    ensures IsField(raw, FieldOf(raw).value)
  {
    var c := Find(raw, ":").value;
    var name, rest := raw[..c], raw[c + 1..];
    var value := Strip(rest);
    assert raw[c..c + 1] == ":";
    assert raw == name + ":" + rest;
    PrintableParts(name, ":", rest);
    var left, right := StripCuts(rest);
    PrintableParts(left, value, right);
    PrintableBlank(left);
    PrintableBlank(right);
    FieldAssembles(raw, name, value, |left|, |right|);
  }

  lemma FieldAssembles(raw: string, name: string, value: string, a: nat, b: nat)
    requires raw == name + ":" + (Spaces(a) + value + Spaces(b))
    requires IsToken(name) && AllPrintable(value) && Trimmed(value)
    ensures IsField(raw, Header(name, value))
  {
    assert raw == name + ":" + Spaces(a) + value + Spaces(b);
  }

  ghost predicate Fresh(headers: seq<Header>, met: set<string>) {
    forall i :: 0 <= i < |headers| && IsDelegated(headers[i].name) ==> Lower(headers[i].name) !in met
  }

  lemma AllFieldsSplits(raw: string, fields: seq<string>, h: Header, rest: seq<Header>)
    ensures AllFields([raw] + fields, [h] + rest) <==> IsField(raw, h) && AllFields(fields, rest)
  {
    if AllFields([raw] + fields, [h] + rest) {
      assert IsField(([raw] + fields)[0], ([h] + rest)[0]);
      forall i | 0 <= i < |fields| ensures IsField(fields[i], rest[i]) {
        assert IsField(([raw] + fields)[i + 1], ([h] + rest)[i + 1]);
      }
    }
  }

  /** Lines of printable characters parse to `headers` exactly when each denotes its header. */
  lemma {:induction false} FieldsAgree(lines: seq<string>, met: set<string>, headers: seq<Header>)
    requires forall i :: 0 <= i < |lines| ==> AllPrintable(lines[i])
    ensures FieldsOf(lines, met) == Ok(headers) <==>
      AllFields(NonBlank(lines), headers) && DelegatedOnce(headers) && Fresh(headers, met)
  {
    if lines == [] {
    } else if lines[0] == "" {
      FieldsAgree(lines[1..], met, headers);
    } else if headers != [] {
      var h, rest := headers[0], headers[1..];
      assert headers == [h] + rest;
      FieldsAgree(lines[1..], Met(met, h), rest);
      FieldsAgreeCons(lines, met, h, rest);
    }
  }

  lemma FieldsAgreeCons(lines: seq<string>, met: set<string>, h: Header, rest: seq<Header>)
    requires lines != [] && lines[0] != "" && AllPrintable(lines[0])
    requires FieldsOf(lines[1..], Met(met, h)) == Ok(rest) <==>
      AllFields(NonBlank(lines[1..]), rest) && DelegatedOnce(rest) && Fresh(rest, Met(met, h))
    ensures FieldsOf(lines, met) == Ok([h] + rest) <==>
      AllFields(NonBlank(lines), [h] + rest) && DelegatedOnce([h] + rest) && Fresh([h] + rest, met)
  {
    FieldAgrees(lines[0], h);
    FreshSplits(h, rest, met);
    AllFieldsSplits(lines[0], NonBlank(lines[1..]), h, rest);
    FieldsOfCons(lines, met, h, rest);
  }

  lemma FieldAgrees(raw: string, h: Header)
    requires AllPrintable(raw)
    ensures FieldOf(raw) == Ok(h) <==> IsField(raw, h)
  {
    if IsField(raw, h) {
      FieldParses(raw, h);
    }
    if FieldOf(raw) == Ok(h) {
      FieldIsField(raw);
    }
  }

  lemma FieldsOfCons(lines: seq<string>, met: set<string>, h: Header, rest: seq<Header>)
    requires lines != [] && lines[0] != ""
    ensures FieldsOf(lines, met) == Ok([h] + rest) <==>
      && FieldOf(lines[0]) == Ok(h)
      && !(IsDelegated(h.name) && Lower(h.name) in met)
      && FieldsOf(lines[1..], Met(met, h)) == Ok(rest)
  {
    if FieldsOf(lines, met) == Ok([h] + rest) {
      assert FieldsOf(lines, met).value[0] == h && FieldsOf(lines, met).value[1..] == rest;
    }
  }

  lemma FreshSplits(h: Header, rest: seq<Header>, met: set<string>)
    ensures DelegatedOnce([h] + rest) && Fresh([h] + rest, met) <==>
      DelegatedOnce(rest) && Fresh(rest, Met(met, h)) && (IsDelegated(h.name) ==> Lower(h.name) !in met)
  {
    var all := [h] + rest;
    if DelegatedOnce(all) && Fresh(all, met) {
      forall i, j | 0 <= i < j < |rest| && IsDelegated(rest[i].name)
        ensures Lower(rest[i].name) != Lower(rest[j].name)
      {
        assert all[i + 1] == rest[i] && all[j + 1] == rest[j];
      }
      forall i | 0 <= i < |rest| && IsDelegated(rest[i].name) ensures Lower(rest[i].name) !in Met(met, h) {
        assert all[i + 1] == rest[i] && all[0] == h;
      }
      assert all[0] == h;
    }
    if DelegatedOnce(rest) && Fresh(rest, Met(met, h)) && (IsDelegated(h.name) ==> Lower(h.name) !in met) {
      forall i, j | 0 <= i < j < |all| && IsDelegated(all[i].name)
        ensures Lower(all[i].name) != Lower(all[j].name)
      {
        assert all[j] == rest[j - 1];
        if i == 0 && IsDelegated(all[j].name) {
          assert Lower(rest[j - 1].name) !in Met(met, h);
        }
      }
    }
  }

  /** In a clean head, what is not printable is at the first or the second place of a CRLF. */
  lemma CleanBreak(s: string, k: nat)
    requires k < |s| && CleanAt(s, k)
    ensures IsPrintable(s[k]) || At(s, CRLF, k) || At(s, CRLF, k - 1)
  {
    if s[k] == CR {
      assert s[k..k + 2] == CRLF;
    } else if s[k] == LF {
      assert s[k - 1..k + 1] == CRLF;
    }
  }

  /** Lines of a clean head hold printable characters only. */
  lemma {:induction false} CleanLines(s: string, i: nat)
    requires CleanHead(s) && i < |Split(s, CRLF)|
    ensures AllPrintable(Split(s, CRLF)[i])
    decreases |s|
  {
    var cut := Find(s, CRLF);
    var first := if cut.None? then s else s[..cut.value];
    forall k | 0 <= k < |first| ensures IsPrintable(first[k]) {
      CleanBreak(s, k);
    }
    if cut.Some? {
      var j := cut.value;
      assert s[j..j + 2] == CRLF && s[j + 1] == CRLF[1] == LF;
      var rest := s[j + 2..];
      forall k | 0 <= k < |rest| ensures CleanAt(rest, k) {
        assert CleanAt(s, j + 2 + k);
      }
      if i > 0 {
        CleanLines(rest, i - 1);
      }
    }
  }

  /** The parser accepts exactly the grammar, and returns the one request the head denotes. */
  lemma ParserMeetsGrammar(head: string, r: Request)
    ensures RequestOf(head) == Ok(r) <==> IsHead(head, r)
  {
    var lines := Split(head, CRLF);
    RequestLineAgrees(Strip(lines[0]), r);
    if CleanHead(head) {
      forall i | 0 <= i < |lines[1..]| ensures AllPrintable(lines[1..][i]) {
        CleanLines(head, i + 1);
      }
      FieldsAgree(lines[1..], {}, r.headers);
    }
  }

  // ---------------------------------------------------------------- the printer

  function PrintFields(headers: seq<Header>): string {
    if headers == [] then "" else headers[0].name + ": " + headers[0].value + CRLF + PrintFields(headers[1..])
  }

  /** The head the bridge writes to the daemon. */
  function PrintHead(r: Request): string {
    r.httpMethod + " " + r.target + " HTTP/1.1" + CRLF + PrintFields(r.headers) + CRLF
  }

  ghost predicate HeaderFit(h: Header) {
    IsToken(h.name) && AllPrintable(h.value) && Trimmed(h.value)
  }

  /** What a request must satisfy for its printed head to mean it. */
  ghost predicate Fit(r: Request) {
    && IsMethod(r.httpMethod) && IsTarget(r.target)
    && (forall i :: 0 <= i < |r.headers| ==> HeaderFit(r.headers[i]))
    && DelegatedOnce(r.headers)
  }

  function FieldLines(headers: seq<Header>): (r: seq<string>)
    ensures |r| == |headers|
    ensures forall i :: 0 <= i < |r| ==> r[i] == headers[i].name + ": " + headers[i].value
  {
    seq(|headers|, i requires 0 <= i < |headers| => headers[i].name + ": " + headers[i].value)
  }

  lemma PrintedLine(h: Header)
    requires HeaderFit(h)
    ensures var line := h.name + ": " + h.value; line != "" && AllPrintable(line) && IsField(line, h)
  {
    var line := h.name + ": " + h.value;
    forall i | 0 <= i < |line| ensures IsPrintable(line[i]) {
      if i < |h.name| {
        assert line[i] == h.name[i] && IsTokenChar(h.name[i]);
      } else if i >= |h.name| + 2 {
        assert line[i] == h.value[i - |h.name| - 2];
      }
    }
    assert Spaces(1) == " " && Spaces(0) == "";
    assert line == h.name + ":" + Spaces(1) + h.value + Spaces(0);
  }

  lemma {:induction false} NonBlankAll(lines: seq<string>)
    requires forall i :: 0 <= i < |lines| ==> lines[i] != ""
    ensures NonBlank(lines + ["", ""]) == lines
  {
    if lines == [] {
      assert NonBlank(["", ""]) == NonBlank([""]) == [];
      assert lines + ["", ""] == ["", ""];
    } else {
      assert (lines + ["", ""])[1..] == lines[1..] + ["", ""];
      NonBlankAll(lines[1..]);
    }
  }

  /** The printed head, byte for byte: the request line, a line for each header in order, and a blank line. */
  lemma PrintedBytes(r: Request)
    ensures PrintHead(r) ==
      Join([r.httpMethod + " " + r.target + " HTTP/1.1"] + FieldLines(r.headers) + ["", ""], "\r\n")
  {
    var line := r.httpMethod + " " + r.target + " HTTP/1.1";
    var rest := FieldLines(r.headers) + ["", ""];
    PrintedFields(r.headers);
    JoinCons(line, rest, CRLF);
    assert [line] + FieldLines(r.headers) + ["", ""] == [line] + rest;
    assert PrintHead(r) == line + CRLF + (PrintFields(r.headers) + CRLF);
  }

  lemma {:induction false} PrintedFields(headers: seq<Header>)
    ensures PrintFields(headers) + CRLF == Join(FieldLines(headers) + ["", ""], CRLF)
  {
    if headers == [] {
      assert FieldLines(headers) + ["", ""] == [""] + [""];
      JoinCons("", [""], CRLF);
    } else {
      var line, rest := headers[0].name + ": " + headers[0].value, FieldLines(headers[1..]) + ["", ""];
      PrintedFields(headers[1..]);
      JoinCons(line, rest, CRLF);
      assert FieldLines(headers) + ["", ""] == [line] + rest;
      assert PrintFields(headers) + CRLF == line + CRLF + (PrintFields(headers[1..]) + CRLF);
    }
  }

  /** Lines of printable characters, joined, are a clean head and split back into the lines. */
  lemma {:induction false} JoinedLines(lines: seq<string>)
    requires lines != [] && forall i :: 0 <= i < |lines| ==> AllPrintable(lines[i])
    ensures Split(Join(lines, CRLF), CRLF) == lines && CleanHead(Join(lines, CRLF))
  {
    if |lines| == 1 {
      var line := lines[0];
      assert forall i :: 0 <= i < |line| ==> IsPrintable(line[i]);
      assert Find(line, CRLF) == None by {
        forall i ensures !At(line, CRLF, i) {
          if At(line, CRLF, i) {
            AtIndex(line, CRLF, i, 0);
          }
        }
      }
    } else {
      var tail := Join(lines[1..], CRLF);
      JoinedLines(lines[1..]);
      PrependLine(lines[0], tail);
      assert lines == [lines[0]] + lines[1..];
    }
  }

  lemma PrependLine(line: string, tail: string)
    requires AllPrintable(line) && CleanHead(tail)
    ensures Split(line + CRLF + tail, CRLF) == [line] + Split(tail, CRLF)
    ensures CleanHead(line + CRLF + tail)
  {
    assert CR !in line;
    SplitHead(line, CRLF, tail);
    var s := line + CRLF + tail;
    forall i | 0 <= i < |s| ensures CleanAt(s, i) {
      if i < |line| {
        assert s[i] == line[i] && IsPrintable(line[i]);
      } else if i >= |line| + 2 {
        var k := i - |line| - 2;
        assert CleanAt(tail, k);
        assert s[i] == tail[k];
        if tail[k] == CR {
          assert s[i + 1] == tail[k + 1];
        } else if tail[k] == LF {
          assert s[i - 1] == tail[k - 1];
        }
      } else {
        assert s[|line|] == CR && s[|line| + 1] == LF;
      }
    }
  }

  lemma RequestLineText(r: Request, version: string)
    requires IsMethod(r.httpMethod) && IsTarget(r.target) && (version == "1.0" || version == "1.1")
    ensures var line := r.httpMethod + " " + r.target + " HTTP/" + version;
      line != "" && AllPrintable(line) && Trimmed(line) && IsRequestLine(line, r)
  {
    var line := r.httpMethod + " " + r.target + " HTTP/" + version;
    PrintableParts(r.httpMethod, " ", r.target);
    PrintableParts(r.httpMethod + " " + r.target, " HTTP/", version);
    assert line[0] == r.httpMethod[0] && line[|line| - 1] == version[2];
    assert " HTTP/" + "1.0" == " HTTP/1.0" && " HTTP/" + "1.1" == " HTTP/1.1";
    assert line == r.httpMethod + " " + r.target + (" HTTP/" + version);
  }

  lemma FieldLinePrintable(raw: string, h: Header)
    requires IsField(raw, h)
    ensures raw != "" && AllPrintable(raw)
  {
    var a: nat, b: nat :| raw == h.name + ":" + Spaces(a) + h.value + Spaces(b);
    forall i | 0 <= i < |h.name| ensures IsPrintable(h.name[i]) {
      assert IsTokenChar(h.name[i]);
    }
    PrintableParts(h.name, ":", Spaces(a));
    PrintableParts(h.name + ":" + Spaces(a), h.value, Spaces(b));
  }

  /**
   What is accepted, built from its parts: either HTTP version, any number of spaces around the
   request line, and any number of spaces on both sides of every value.
   */
  lemma AcceptsEveryLayout(r: Request, version: string, before: nat, after: nat, fields: seq<string>)
    requires Fit(r) && (version == "1.0" || version == "1.1") && |fields| == |r.headers|
    requires forall i :: 0 <= i < |fields| ==> Lays(fields[i], r.headers[i])
    ensures RequestOf(Join(
      [Spaces(before) + (r.httpMethod + " " + r.target + " HTTP/" + version) + Spaces(after)] + fields + ["", ""],
      "\r\n")) == Ok(r)
  {
    var line := r.httpMethod + " " + r.target + " HTTP/" + version;
    var padded := Spaces(before) + line + Spaces(after);
    RequestLineText(r, version);
    PrintableParts(Spaces(before), line, Spaces(after));
    StripIs(Spaces(before), line, Spaces(after));
    FieldsLaid(r.headers, fields);
    AcceptsLines(padded, fields, r);
  }

  lemma FieldsLaid(headers: seq<Header>, fields: seq<string>)
    requires |fields| == |headers|
    requires forall i :: 0 <= i < |fields| ==> HeaderFit(headers[i]) && Lays(fields[i], headers[i])
    ensures AllFields(fields, headers)
    ensures forall i :: 0 <= i < |fields| ==> fields[i] != "" && AllPrintable(fields[i])
  {
    forall i | 0 <= i < |fields| ensures fields[i] != "" && AllPrintable(fields[i]) && IsField(fields[i], headers[i]) {
      FieldLinePrintable(fields[i], headers[i]);
    }
  }

  lemma AcceptsLines(first: string, fields: seq<string>, r: Request)
    requires AllPrintable(first) && IsRequestLine(Strip(first), r) && DelegatedOnce(r.headers)
    requires AllFields(fields, r.headers)
    requires forall i :: 0 <= i < |fields| ==> fields[i] != "" && AllPrintable(fields[i])
    ensures RequestOf(Join([first] + fields + ["", ""], CRLF)) == Ok(r)
  {
    var lines := [first] + fields + ["", ""];
    LinesPrintable(first, fields, lines);
    JoinedLines(lines);
    NonBlankAll(fields);
    HeadOfLines(Join(lines, CRLF), lines, r);
  }

  lemma LinesPrintable(first: string, fields: seq<string>, lines: seq<string>)
    requires lines == [first] + fields + ["", ""] && AllPrintable(first)
    requires forall i :: 0 <= i < |fields| ==> AllPrintable(fields[i])
    ensures lines[0] == first && lines[1..] == fields + ["", ""]
    ensures forall i :: 0 <= i < |lines| ==> AllPrintable(lines[i])
  {
    forall i | 0 <= i < |lines| ensures AllPrintable(lines[i]) {
      if 0 < i <= |fields| {
        assert lines[i] == fields[i - 1];
      }
    }
  }

  lemma HeadOfLines(head: string, lines: seq<string>, r: Request)
    requires Split(head, CRLF) == lines && CleanHead(head)
    requires IsRequestLine(Strip(lines[0]), r) && AllFields(NonBlank(lines[1..]), r.headers) && DelegatedOnce(r.headers)
    ensures RequestOf(head) == Ok(r)
  {
    ParserMeetsGrammar(head, r);
  }

  /** `raw` is the header's name, a colon, and its value between any number of spaces. */
  ghost predicate Lays(raw: string, h: Header) {
    exists a: nat, b: nat :: raw == h.name + ":" + Spaces(a) + h.value + Spaces(b)
  }

  /** A fit request survives printing and parsing unchanged. */
  lemma PrintedHeadParses(r: Request)
    requires Fit(r)
    ensures RequestOf(PrintHead(r)) == Ok(r)
  {
    var line := r.httpMethod + " " + r.target + " HTTP/" + "1.1";
    assert line == r.httpMethod + " " + r.target + " HTTP/1.1";
    assert Spaces(0) + line + Spaces(0) == line;
    forall i | 0 <= i < |r.headers| ensures Lays(FieldLines(r.headers)[i], r.headers[i]) {
      PrintedLine(r.headers[i]);
    }
    PrintedBytes(r);
    AcceptsEveryLayout(r, "1.1", 0, 0, FieldLines(r.headers));
  }

  /** Whatever the parser returns is fit to be printed again. */
  lemma ParsedIsFit(head: string, r: Request)
    requires RequestOf(head) == Ok(r)
    ensures Fit(r)
  {
    ParserMeetsGrammar(head, r);
    var fields := NonBlank(Split(head, CRLF)[1..]);
    forall i | 0 <= i < |r.headers| ensures HeaderFit(r.headers[i]) {
      assert IsField(fields[i], r.headers[i]);
    }
  }

  /** Printing then parsing gives a request back exactly when it is fit. */
  lemma PrintParseRoundTrip(r: Request)
    ensures RequestOf(PrintHead(r)) == Ok(r) <==> Fit(r)
  {
    if Fit(r) {
      PrintedHeadParses(r);
    }
    if RequestOf(PrintHead(r)) == Ok(r) {
      ParsedIsFit(PrintHead(r), r);
    }
  }

  // ---------------------------------------------------------------- the terms of the grammar, spelled out

  /** The characters section 3.2.6 of RFC 7230 lists for a token. */
  predicate IsTchar(c: char) {
    c in "!#$%&'*+-.^_`|~" || '0' <= c <= '9' || 'A' <= c <= 'Z' || 'a' <= c <= 'z'
  }

  lemma TokenAlphabet(c: char)
    ensures IsTokenChar(c) <==> IsTchar(c)
  {
    var marks := "!#$%&'*+-.^_`|~";
    assert marks == ['!', '#', '$', '%', '&', '\'', '*', '+', '-', '.', '^', '_', '`', '|', '~'];
  }

  /** What every accepted head is made of. */
  lemma AcceptedHeadMeans(head: string, r: Request)
    requires RequestOf(head) == Ok(r)
    ensures r.httpMethod == "GET" || r.httpMethod == "POST"
    ensures |r.target| >= 8 && r.target[..8] == "/api/v1/"
    ensures forall i :: 0 <= i < |r.target| ==> '!' <= r.target[i] <= '~'
    ensures forall h, i :: h in r.headers && 0 <= i < |h.name| ==> IsTchar(h.name[i])
    ensures forall h :: h in r.headers ==> h.name != "" && PlainValue(h.value)
    ensures forall i, j :: 0 <= i < j < |r.headers| && Lower(r.headers[i].name) == Lower(r.headers[j].name) ==>
      !StartsWith(Lower(r.headers[i].name), "x-cwcli-delegated-")
    ensures forall i :: 0 <= i < |head| ==> PlainByte(head, i)
  {
    ParsedIsFit(head, r);
    ParserMeetsGrammar(head, r);
    FitMeans(r);
    forall i | 0 <= i < |head| ensures PlainByte(head, i) {
      assert CleanAt(head, i);
    }
  }

  /** Printable ASCII that neither begins nor ends with a space. */
  predicate PlainValue(v: string) {
    && (forall i :: 0 <= i < |v| ==> ' ' <= v[i] <= '~')
    && (v != "" ==> v[0] != ' ' && v[|v| - 1] != ' ')
  }

  /** Printable ASCII, or half of a CRLF. */
  predicate PlainByte(s: string, i: nat)
    requires i < |s|
  {
    || ' ' <= s[i] <= '~'
    || (s[i] == '\r' && i + 1 < |s| && s[i + 1] == '\n')
    || (s[i] == '\n' && 0 < i && s[i - 1] == '\r')
  }

  lemma FitHeaderMeans(h: Header)
    ensures HeaderFit(h) <==>
      h.name != "" && (forall i :: 0 <= i < |h.name| ==> IsTchar(h.name[i])) && PlainValue(h.value)
  {
    forall i | 0 <= i < |h.name| ensures IsTokenChar(h.name[i]) <==> IsTchar(h.name[i]) {
      TokenAlphabet(h.name[i]);
    }
    if AllPrintable(h.value) && h.value != "" {
      assert IsPrintable(h.value[0]) && IsPrintable(h.value[|h.value| - 1]);
    }
  }

  /** What a request must be to be fit, and all it must be. */
  lemma FitMeans(r: Request)
    ensures Fit(r) <==>
      && (r.httpMethod == "GET" || r.httpMethod == "POST")
      && |r.target| >= 8 && r.target[..8] == "/api/v1/"
      && (forall i :: 0 <= i < |r.target| ==> '!' <= r.target[i] <= '~')
      && (forall h :: h in r.headers ==>
            h.name != "" && (forall i :: 0 <= i < |h.name| ==> IsTchar(h.name[i])) && PlainValue(h.value))
      && (forall i, j :: 0 <= i < j < |r.headers| && Lower(r.headers[i].name) == Lower(r.headers[j].name) ==>
            !StartsWith(Lower(r.headers[i].name), "x-cwcli-delegated-"))
  {
    forall h | h in r.headers
      ensures HeaderFit(h) <==>
        h.name != "" && (forall i :: 0 <= i < |h.name| ==> IsTchar(h.name[i])) && PlainValue(h.value)
    {
      FitHeaderMeans(h);
    }
    TargetMeans(r.target);
    assert (forall i :: 0 <= i < |r.headers| ==> HeaderFit(r.headers[i])) <==>
      (forall h :: h in r.headers ==> HeaderFit(h));
  }

  lemma TargetMeans(target: string)
    ensures IsTarget(target) <==>
      |target| >= 8 && target[..8] == "/api/v1/" && forall i :: 0 <= i < |target| ==> '!' <= target[i] <= '~'
  {
  }

  /** Why a head is refused: no request line comes first, then a bad byte, then the first bad or repeated field. */
  lemma RefusedHeadMeans(head: string)
    ensures RequestOf(head) == Err(NotHttp) <==> !HasRequestLine(Strip(Split(head, "\r\n")[0]))
    ensures RequestOf(head).Err? ==> RequestOf(head).error in {NotHttp, BadHeader, DelegationRepeated}
  {
    var lines := Split(head, CRLF);
    NoRequestLine(Strip(lines[0]));
    FieldRefusals(lines[1..], {});
  }

  ghost predicate HasRequestLine(line: string) {
    exists r :: IsRequestLine(line, r)
  }

  lemma NoRequestLine(line: string)
    ensures HasRequestLine(line) <==> MatchRequestLine(line).Some?
  {
    forall r ensures IsRequestLine(line, r) <==> MatchRequestLine(line) == Some((r.httpMethod, r.target)) {
      RequestLineAgrees(line, r);
    }
    if MatchRequestLine(line).Some? {
      var (m, target) := MatchRequestLine(line).value;
      assert IsRequestLine(line, Request(m, target, []));
    }
  }

  lemma {:induction false} FieldRefusals(lines: seq<string>, met: set<string>)
    ensures FieldsOf(lines, met).Err? ==> FieldsOf(lines, met).error in {BadHeader, DelegationRepeated}
  {
    if lines != [] {
      if lines[0] == "" {
        FieldRefusals(lines[1..], met);
      } else if FieldOf(lines[0]).Ok? {
        FieldRefusals(lines[1..], Met(met, FieldOf(lines[0]).value));
      }
    }
  }
}
