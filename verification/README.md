# The hub bridge and the detached job system, verified

Two parts of the caffeinated-whale CLI hold real state machines: the bridge that lets a hub reach
this machine's daemon over one SSH channel, and the system of detached jobs that the daemon and
its worker processes share through files. This project models both and proves what they are for.

**The bridge** (`src/caffeinated_whale_cli/bridge.py`) reads one HTTP request from a byte stream,
parses its head strictly, checks that the hub's grant still stands, rewrites the headers so that
the only identity in them is its own, and forwards the result. Its modules are `Text` (string
operations), `RequestHead` (grammar, parser, printer), `Rewrite` (roles, users, headers),
`RequestReader` (the stream and its cutting into pieces) and `Bridge` (the grant, the gates, one
whole channel). The chain of results ends in `Bridge.DaemonReadsTheSameRequest` and
`Bridge.SameVerb`: what the bridge checked is what the daemon reads.

**The job system** (`src/caffeinated_whale_cli/jobs.py`): `StateFile` is `state.json` under a
kernel lock with lock-free readers; `Lifecycle` is every interleaving of creation, refresh,
interrupt, termination, continue and the workers, `LifecycleDaemon` the daemon's own writes to a
record, and `LifecycleRuns` the runs that show what can happen and what does not hold; `Watcher` is
the incremental watch against arbitrary concurrent writers; `EventLog`, `Recorder` and
`RecorderThreads` are the numbered log and its count; `Retention` and `Grace` are the prune and the
Windows terminator; `Chains` is admission, retry and continue; `Redaction` is the scrub of secrets;
`Instance` is two operations that take an instance down and up. `Json` is the values both parts pass
around.

Code that changes things step by step is a class or a loop with its own contract, which ties it to
a function or a step relation; the results are lemmas about those. Results are stated for all
inputs, all cuttings, all interleavings and runs of any length; where a result needs an assumption
about the machine, its row names it.

## What the code does not promise as written

Where a natural reading of the code's comments or documentation is false of the code, the code is
modelled as it is, a lemma exhibits the failing input, and the exact condition is proved.

- The head limit is checked between reads of 65536 bytes. A head of 65538 to 131072 bytes is
  accepted or refused by how it was cut; every other length is decided by the bytes alone
  (`RequestReader.ChunkingIndependentExactly`). Heads within the limit are always safe.
- One key can have two live worker *processes*: a finished job's worker lives on for a moment after
  its terminal record. A run has two exactly when it spawns one while another lives
  (`LifecycleRuns.TwoLiveExactly`), and that other is then past its terminal record
  (`LifecycleRuns.SpawnMeetsTails`). What holds is one active record and one worker still at work per
  key. These need two assumptions about the machine: a creation records its worker within five
  seconds, and start times are readable. Without either there is a run with two
  (`LifecycleRuns.SlowCreationAdmitsTwo`, `LifecycleRuns.UnreadableStartAdmitsTwo`).
- `unknown` is not always final. On any machine, a record leaves it exactly when its worker was not
  dead (`LifecycleRuns.UnknownLeftExactly`); a recorded pid and start time rule that out, unless the
  refresh could not read a start time (`Lifecycle.KnownMarkIsFinal`). `LifecycleRuns.UnknownComesBack`
  and `LifecycleRuns.BlindMarkComesBack` are the failing runs. Under the two assumptions it is always
  final (`Lifecycle.UnknownIsFinal`).
- Continue writes `answered` without reading the record again. If a signal lands in the worker's
  tail after continue's read, `answered` goes over `interrupted`
  (`LifecycleRuns.AnsweredOverInterrupted`). That can happen exactly when the worker is not gone at
  that read (`LifecycleRuns.AnswersOverExactly`).
- The transient start of `_remove_bench` is undone on `Exception` and behind the `try`. An interrupt
  is a `KeyboardInterrupt`, which is no `Exception`, and the stop attempt can itself be cut off before
  it begins, so an interrupt between the start and that attempt leaves a stopped instance up
  (`Instance.Machine.RemoveBench` gives the exact condition).
- `created_at` leaves out a fraction of zero, and `Z` sorts behind `.`, so a job created on a whole
  second counts as newer than one created later within that second
  (`Retention.TextOrderIsTimeOrder`).
- Redaction is complete for bracket-free secrets exactly when none of them is part of the word
  `redacted`. A secret with a bracket can survive (`Redaction.BracketCanSurvive`); for a single
  secret `Redaction.SurvivesExactly` says which.
- A job's key is a text, and texts of different kinds can meet: an instance named `@` and a verb of
  the machine, or `@publish:` and a site, blocks and is blocked by jobs that are not about it
  (`Chains.NamesCollide`; `Chains.SameKeyExactly` is the exact condition).
- The recorder's bounds treat a flush as one step. With its threads taken apart, overlapping
  flushes can leave an older count with no timer to correct it
  (`RecorderThreads.OverlapForgets`); `RecorderThreads.CaughtExactly` says which ones do.
- The grace terminator's allowances are no bound by themselves: each wait may end one poll interval
  and the machine's lateness past its deadline (`Grace.GraceBound`, `Grace.LateMachineOverruns`).

## Model

| member | source | states |
|---|---|---|
| `RequestHead.ParseRequest` | src/caffeinated_whale_cli/bridge.py:224-264 | The parser's loop, branch by branch, returns `RequestOf(head)`: request line first, then the bytes of the head, then the fields left to right, with the first bad one's error. |
| `RequestHead.ParseFields` | src/caffeinated_whale_cli/bridge.py:246-264 | The pass over the header lines, with its growing list and its set of delegation names met, is the recursive reading of all the lines. |
| `RequestHead.ParserMeetsGrammar` | src/caffeinated_whale_cli/bridge.py:82-86 | The parser accepts exactly the heads of an independent grammar (sections 3.2, 3.2.4 and 3.2.6 of RFC 7230: token name, optional spaces, printable trimmed value, no folding, CRLF line ends only, no delegation name twice) and returns the one request the head denotes; both directions. |
| `RequestHead.PrintedHeadParses` | src/caffeinated_whale_cli/bridge.py:567-569 | A request whose names are tokens, whose values are trimmed printable text and whose delegation names are unrepeated parses back from its printed head unchanged. |
| `RequestHead.ParsedIsFit` | src/caffeinated_whale_cli/bridge.py:236-264 | Whatever the parser returns meets those conditions. |
| `RequestHead.PrintParseRoundTrip` | src/caffeinated_whale_cli/bridge.py:567-569 | Printing and parsing gives a request back if and only if it meets those conditions. |
| `RequestHead.PrintedBytes` | src/caffeinated_whale_cli/bridge.py:567-569 | The printed head byte for byte: method, target and `HTTP/1.1`, one `name: value` line for each header in order, and a blank line, all ended by CRLF. |
| `RequestHead.AcceptsEveryLayout` | src/caffeinated_whale_cli/bridge.py:236-263 | Everything built from fit parts is accepted and denotes them: either HTTP version, any number of spaces around the request line and on both sides of every value. |
| `RequestHead.AcceptedHeadMeans` | src/caffeinated_whale_cli/bridge.py:82-86 | What an accepted head is made of, character by character: GET or POST, a target under `/api/v1/`, token names, trimmed printable values, no delegation name twice in any case, printable bytes and CRLF pairs only. |
| `RequestHead.TokenAlphabet` | src/caffeinated_whale_cli/bridge.py:83 | The characters of a token are those section 3.2.6 of RFC 7230 lists. |
| `RequestHead.FitMeans` | src/caffeinated_whale_cli/bridge.py:224-264 | A request is fit if and only if its parts are so made. |
| `RequestHead.RefusedHeadMeans` | src/caffeinated_whale_cli/bridge.py:237-262 | A head is no HTTP request if and only if its first line is no request line; every other refusal is a bad header or a repeated delegation name. |
| `Rewrite.CapRole` | src/caffeinated_whale_cli/bridge.py:267-272 | The role told to the daemon is the minimum, in rank, of the claimed role and the cap; a claim that is no role counts as the lowest. |
| `Rewrite.CapIsMeet` | src/caffeinated_whale_cli/bridge.py:267-272 | Capping is monotone in the cap, two caps in either order give the same role, and the highest cap changes nothing. |
| `Rewrite.BareUser` | src/caffeinated_whale_cli/bridge.py:278-280 | The bare name is always one to eighty letters, digits and `._+-`. |
| `Rewrite.ValidClaimKept` | src/caffeinated_whale_cli/bridge.py:278 | A claim that is a valid name, alone or before an `@` and anything, keeps that name. |
| `Rewrite.BareUserIsClaimed` | src/caffeinated_whale_cli/bridge.py:278-280 | Conversely a name other than `hub` is the valid text before the stripped claim's first `@`, so every invalid claim becomes `hub`. |
| `Rewrite.DelegatedUserSplits` | src/caffeinated_whale_cli/bridge.py:275-281 | The delegated user, read at its first `@`, is a valid bare name and this hub's name; no other split of it exists. |
| `Rewrite.ScanNames` | src/caffeinated_whale_cli/bridge.py:313-322 | Splitting a Connection value finds a delegation name if one is listed in any case or padding, and otherwise exactly the non-empty names listed (section 6.1 of RFC 7230). |
| `Rewrite.ScanConnection` | src/caffeinated_whale_cli/bridge.py:312-322 | The same of one whole Connection header. |
| `Rewrite.ScanOne` | src/caffeinated_whale_cli/bridge.py:311-328 | One header: what it refuses, names and claims. |
| `Rewrite.ScanHeaders` | src/caffeinated_whale_cli/bridge.py:308-328 | The first loop: the refusal is the first offending header's, in order; otherwise the claims are the last values sent and the names are exactly those listed in any Connection header. |
| `Rewrite.FirstOffence` | src/caffeinated_whale_cli/bridge.py:310-328 | No offence is reported exactly when no header offends. |
| `Rewrite.CopyKept` | src/caffeinated_whale_cli/bridge.py:330-334 | The second loop keeps exactly the headers that are neither dropped, nor drop-prefixed, nor named in a Connection header. |
| `Rewrite.RewriteHeaders` | src/caffeinated_whale_cli/bridge.py:284-345 | The whole rewrite is its specification: the refusals in order, else Host, the kept headers, and the bridge's own headers. |
| `Rewrite.KeptPositions` | src/caffeinated_whale_cli/bridge.py:330-334 | The kept headers are those at a strictly increasing list of positions, and the list holds a position if and only if the header there may cross: order kept, each once, none missing, none added. |
| `Rewrite.OneIdentity` | src/caffeinated_whale_cli/bridge.py:335-345 | Whatever the hub sent, the forwarded list carries one Host, one Authorization, one delegated user, one delegated role and one Connection, a Content-Length exactly when there is a POST or a body, and no other dropped name. |
| `Rewrite.ToldExactly` | src/caffeinated_whale_cli/bridge.py:267-345 | What each of the bridge's own headers says, for every claim and cap: the role is the lower of the cap and the trimmed lower-cased claim (`viewer` for anything that is no role), the user is the valid name at the head of the claim or `hub`, then `@` and this hub, the token, this machine's address and the body's length; and no other header carries any of these names. |
| `Rewrite.ClaimIsLast` | src/caffeinated_whale_cli/bridge.py:323-324 | The claim used is the last value sent under its name, and none if there is none. |
| `Rewrite.RewrittenOrder` | src/caffeinated_whale_cli/bridge.py:329-345 | Host, then the headers that cross, then Authorization, user, role, Connection and the length. |
| `Rewrite.CrossesMeans` | src/caffeinated_whale_cli/bridge.py:332-333 | Which of the hub's headers cross, name by name: none of the fourteen dropped, none with the three prefixes, none named in a Connection header. |
| `Rewrite.NamedInMeans` | src/caffeinated_whale_cli/bridge.py:312-322 | A Connection header names a header when one comma-separated piece of it is that name, in any case and with any blanks around it. |
| `Rewrite.RefusesExactly` | src/caffeinated_whale_cli/bridge.py:304-328 | When the rewrite refuses and with which code: a path of the session or the hosts first, then the first header that names a delegation header in Connection or is Transfer-Encoding. |
| `Rewrite.ForwardedOnce` | src/caffeinated_whale_cli/bridge.py:301-302 | No delegation name is repeated in what is forwarded. |
| `Rewrite.ForwardedHeadRoundTrip` | src/caffeinated_whale_cli/bridge.py:557-569 | For every request the parser accepts and the rewrite does not refuse, parsing the printed forwarded head gives back the method, target and rewritten headers if and only if hub name and token are printable ASCII not ending in a blank and the token is not empty. |
| `RequestReader.Channel.Read` | src/caffeinated_whale_cli/bridge.py:215 | One read yields a non-empty prefix of what is to come, or nothing at its end, and loses nothing. |
| `RequestReader.Channel.ReadHead` | src/caffeinated_whale_cli/bridge.py:196-221 | The reading loop computes `HeadOf` of the stream and leaves the stream just behind what it read. |
| `RequestReader.Channel.ReadBody` | src/caffeinated_whale_cli/bridge.py:363-376 | The body loop computes `BodyOf` of leftover and stream, never reading past the body. |
| `RequestReader.HeadConserves` | src/caffeinated_whale_cli/bridge.py:201-206 | Head, leftover and unread bytes concatenate to the bytes of the stream. |
| `RequestReader.BodyIsPrefix` | src/caffeinated_whale_cli/bridge.py:363-376 | The body is the next Content-Length bytes, for every cutting; a stream too short is refused as truncated or timed out, by how it ended. |
| `RequestReader.HeadWithinLimit` | src/caffeinated_whale_cli/bridge.py:196-221 | Every cutting of a stream whose head is within the limit, with no bare LFLF before its end, yields that head. |
| `RequestReader.HeadPastReach` | src/caffeinated_whale_cli/bridge.py:207-208 | Every cutting of a head more than one read past the limit is refused as too large. |
| `RequestReader.HeadNeverEnds` | src/caffeinated_whale_cli/bridge.py:207-220 | Every cutting of bytes that hold no blank line is refused for one reason, which the bytes and the end of the stream decide. |
| `RequestReader.EndlessMeans` | src/caffeinated_whale_cli/bridge.py:207-220 | Which reason: past 65536 bytes too large; else a timeout when the stream stalls; else truncated when the first line is a request line, and no HTTP when it is not. |
| `RequestReader.HeadEndMeans` | src/caffeinated_whale_cli/bridge.py:201-203 | The head ends behind the first CRLFCRLF. |
| `RequestReader.CutMeans` | src/caffeinated_whale_cli/bridge.py:201-206 | What has been read is cut behind the first CRLFCRLF, or, when it has none, behind the first double LF. |
| `RequestReader.FirstLineMeans` | src/caffeinated_whale_cli/bridge.py:217 | The first line of a stream that ended early is what stands before its first LF, or all of it, without blanks around it. |
| `RequestReader.GenerousDelivery` | src/caffeinated_whale_cli/bridge.py:200-221 | A head between the two limits is accepted in one cutting. |
| `RequestReader.GrudgingDelivery` | src/caffeinated_whale_cli/bridge.py:207-208 | The same head is refused in another. |
| `RequestReader.ChunkingIndependentExactly` | src/caffeinated_whale_cli/bridge.py:196-221 | Without a bare LFLF, the outcome of the head is independent of the cutting if and only if the head's length is not in the window from the limit plus two to the limit plus one read. |
| `RequestReader.BareBlankLineRead` | src/caffeinated_whale_cli/bridge.py:204-206 | When LFLF comes before the head's end, every head read holds LFLF. |
| `RequestReader.BareBlankLineUnclean` | src/caffeinated_whale_cli/bridge.py:86 | Such a head fails the byte check, so the request is refused. |
| `RequestReader.FindContentLength` | src/caffeinated_whale_cli/bridge.py:348-360 | The first Content-Length decides; not a number, negative and too large are told apart; none means no body. |
| `RequestReader.LengthMeans` | src/caffeinated_whale_cli/bridge.py:348-360 | The first Content-Length decides: refused when `int()` does not read it or reads it negative, too large past 1048576, and without one there is no body. |
| `RequestReader.ParseIntMeans` | src/caffeinated_whale_cli/bridge.py:352 | What `int()` reads: a sign or none, and runs of digits with single underscores between them, 4300 digits at most. |
| `RequestReader.UndecoratedMeans` | src/caffeinated_whale_cli/bridge.py:352 | The digits are those of the pieces between underscores, each of which must be a run of digits. |
| `RequestReader.ReceiveIgnoresChunking` | src/caffeinated_whale_cli/bridge.py:633-656 | The whole request, its body and its refusals are a function of the bytes and of how the stream ended, for every cutting of a head within the limit; with a bare LFLF first every cutting is refused. |
| `RequestReader.RefusedAlike` | src/caffeinated_whale_cli/bridge.py:207-220 | Beyond the window, and without any head end, every cutting of the request is refused for the same reason. |
| `Bridge.StillAllowed` | src/caffeinated_whale_cli/bridge.py:162-190 | The scan answers yes if and only if the file is readable and some line is this hub's grant with this command line and this key. |
| `Bridge.GrantIsOwnLines` | src/caffeinated_whale_cli/bridge.py:176-189 | The answer depends only on which of this hub's own lines are present: not on order, repeats or any other line. |
| `Bridge.GrantMeans` | src/caffeinated_whale_cli/bridge.py:176-190 | A channel is granted if and only if the file can be read and has a line of this hub, for this key, whose command is some Python running the bridge module with exactly these arguments. |
| `Bridge.Pipe` | src/caffeinated_whale_cli/bridge.py:526-571 | The gates after the body in their order, then the rewrite, then the head and the body in one write. |
| `Bridge.ReceiveRest` | src/caffeinated_whale_cli/bridge.py:655-656 | Length, then the body when there is one. |
| `Bridge.RunChannel` | src/caffeinated_whale_cli/bridge.py:622-671 | One whole channel: forced command, head, parse, grant, length and body, the bridge's own answer, the pipe; each exit code and refusal, and what was sent. |
| `Bridge.CanonicalMeans` | src/caffeinated_whale_cli/bridge.py:132-139 | Sent exactly means: on the integrations path whatever stands under `op`, and on the jobs path whatever stands under `verb`, is a non-empty string equal to its strip. |
| `Bridge.CodeChangeMeans` | src/caffeinated_whale_cli/bridge.py:117-129 | A code change is `community_add` or `community_update` under `op` on the integrations path, or `self-update` under `verb` on the jobs path, and nothing else. |
| `Bridge.GatesExactly` | src/caffeinated_whale_cli/bridge.py:526-571 | What becomes of a whole request, gate by gate in order, each failing gate with its own code, and of a request no gate stops: it is sent. |
| `Bridge.ChannelExactly` | src/caffeinated_whale_cli/bridge.py:622-671 | What becomes of a channel before the gates: a forced command, each refused head, a refused parse, a missing grant, a body that does not come, and the bridge's own answer, each with its exit code. |
| `Bridge.SentExactlyWhen` | src/caffeinated_whale_cli/bridge.py:622-671 | A request reaches the daemon if and only if no command was forced, the grant held, it came in whole, is not for the bridge itself, is on no refused path, names its operation exactly and changes no code if it is a POST, has no refusing header, and the daemon is up. |
| `Bridge.DaemonIsTold` | src/caffeinated_whale_cli/bridge.py:556-571 | Of every request sent: the target is under `/api/v1/` and neither session nor hosts; no cookie, no provenance and no hop-by-hop header crosses; the user is under this channel's hub name, the role no higher than this channel's cap, the token and address the daemon's own. |
| `Bridge.SentIsForwarded` | src/caffeinated_whale_cli/bridge.py:650-661 | Bytes were sent only when no command was forced, the grant held and the request was received whole; they are the printed rewritten head and the body. |
| `Bridge.ForwardedLength` | src/caffeinated_whale_cli/bridge.py:343-344 | The Content-Length rule read on the forwarded headers gives the body's length. |
| `Bridge.DaemonReadsTheSameRequest` | src/caffeinated_whale_cli/bridge.py:556-571 | Read under the same grammar and length rule, the bytes sent end their head exactly where the printer ended it and denote the hub's method and target, the rewritten headers and the whole body: no request hides in the body or after it. |
| `Bridge.SameVerb` | src/caffeinated_whale_cli/bridge.py:117-139 | For every request that reached the daemon as a POST to the jobs path, the grant held, and a verb accepted by `job_verb` is the very string the bridge compared, with nothing around it and not `self-update`. |
| `Bridge.JobVerbMeans` | src/caffeinated_whale_cli/jobs.py:438-450 | The daemon accepts a verb if and only if the value is that very string and a known verb. |
| `Redaction.ScrubString` | src/caffeinated_whale_cli/jobs.py:819-825 | The loop over the secrets is the recursive scrub. |
| `Redaction.ReplaceIsSplitJoin` | src/caffeinated_whale_cli/jobs.py:824 | Replacing is splitting at the secret and joining with the marker. |
| `Redaction.ScrubOne` | src/caffeinated_whale_cli/jobs.py:822-825 | For one non-empty secret of any characters, the scrub is the text split at the secret and joined with `[redacted]`. |
| `Redaction.ScrubInTurn` | src/caffeinated_whale_cli/jobs.py:822-825 | The scrub by a list is the scrub by its second part of the scrub by its first. |
| `Redaction.ScrubWithout` | src/caffeinated_whale_cli/jobs.py:823 | No secret, or an empty one, changes nothing. |
| `Text.SplitJoinRestores` | src/caffeinated_whale_cli/jobs.py:824 | Joining the pieces of a split with the secret gives the text back: nothing else was lost. |
| `Text.SplitPieces` | src/caffeinated_whale_cli/jobs.py:824 | No piece of a split holds the secret. |
| `Redaction.ReplaceKeepsOut` | src/caffeinated_whale_cli/jobs.py:822-825 | Replacing one secret removes it and brings back no other safe word, even across the edges of markers. |
| `Redaction.ScrubComplete` | src/caffeinated_whale_cli/jobs.py:819-825 | Bracket-free secrets that are no part of `redacted` are gone from every text, whatever their order and overlaps. |
| `Redaction.ScrubNothing` | src/caffeinated_whale_cli/jobs.py:819-825 | A text without secrets is unchanged. |
| `Redaction.CompleteExactly` | src/caffeinated_whale_cli/jobs.py:819-825 | For bracket-free secrets the scrub is complete on all texts if and only if no non-empty secret is part of `redacted`. |
| `Redaction.BracketCanSurvive` | src/caffeinated_whale_cli/jobs.py:819-825 | With a bracket it can fail: `]x` survives in `]xx`. |
| `Redaction.SurvivesExactly` | src/caffeinated_whale_cli/jobs.py:822-825 | Any single secret, with brackets or without, that does not hold the whole marker: some text shows it after its scrub if and only if it is part of the marker, or it begins as the marker ends, or it ends as the marker begins and the rest can stand in front of it without hiding it. |
| `Redaction.ScrubValue` | src/caffeinated_whale_cli/jobs.py:819-830 | On nested values: constructors, keys and lengths unchanged, every string leaf its own scrub and nothing else touched, no safe secret in any leaf, and a value without secrets unchanged. |
| `Redaction.ScrubTwice` | src/caffeinated_whale_cli/jobs.py:869-885 | Scrubbing twice is scrubbing once. |
| `StateFile.StepKeepsInv` | src/caffeinated_whale_cli/jobs.py:216-275 | Every step of lock, read, write-temp, replace, release, death and lock-free open keeps the invariant: the named file is the fold of the completed updates, and only the lock holder has a temporary file. |
| `StateFile.RunInv` | src/caffeinated_whale_cli/jobs.py:216-275 | Hence so does every interleaving. |
| `StateFile.NoLostUpdate` | src/caffeinated_whale_cli/jobs.py:240-275 | In every interleaving `state.json` is the initial record with the completed updates folded in, in lock order, and every inode a lock-free reader holds is one whole committed version. |
| `StateFile.StepIsAtomicUpdate` | src/caffeinated_whale_cli/jobs.py:216-275 | Refinement: a replace is its update applied atomically to the current record; every other step, a death at any point included, leaves the record alone. |
| `StateFile.MergeSpares` | src/caffeinated_whale_cli/jobs.py:269-275 | A merge cannot change a key it does not name, `updated_at` aside. |
| `StateFile.MergeMeans` | src/caffeinated_whale_cli/jobs.py:269-275 | A merge always writes: its changes over what was there, and the time of the change over everything. |
| `StateFile.UpdateGetsThrough` | src/caffeinated_whale_cli/jobs.py:240-275 | In every reachable state an idle thread that finds the lock free can carry any update to its end: the file is then that update of what it was, or untouched when the update leaves it alone, and the lock is free. |
| `StateFile.MergedValueStays` | src/caffeinated_whale_cli/jobs.py:269-275 | What a completed merge wrote stays until a later completed update may write the same key. |
| `LifecycleDaemon.Daemon.constructor` | src/caffeinated_whale_cli/jobs.py:480-493 | Before its first job a daemon meets the invariant of every run, and the admission invariant when both assumptions hold. |
| `LifecycleDaemon.Daemon.WriteRecord` | src/caffeinated_whale_cli/jobs.py:546-561 | A created job's first record; under the admission invariant it is from then on the one active job of its key. |
| `LifecycleDaemon.Daemon.RefreshUnknown` | src/caffeinated_whale_cli/jobs.py:342-360 | Under the lock, on any machine, an active record whose recorded identity is not found alive becomes `unknown`, and nothing else changes; with a pid and start time recorded and readable, or under the admission invariant, those are exactly the records whose worker is dead. |
| `LifecycleDaemon.Daemon.Interrupt` | src/caffeinated_whale_cli/jobs.py:737-742 | On any machine, it is armed if and only if the record is queued or running, with a recorded identity that is alive and can be read; then the record is `interrupting` and the worker has yet to write its terminal record. |
| `LifecycleDaemon.Daemon.GiveUp` | src/caffeinated_whale_cli/jobs.py:783-802 | On any machine, after the grace terminator's write the worker is dead and the record inactive; a record that was inactive is untouched. |
| `LifecycleDaemon.Daemon.MergePid` | src/caffeinated_whale_cli/jobs.py:607-610 | The late merge changes no state and no key; under the admission invariant a worker still at work is then recorded with its full identity. |
| `LifecycleDaemon.Daemon.Answer` | src/caffeinated_whale_cli/jobs.py:715-717 | On any machine, continue's last write meets no active record, and meets a waiting one whenever the worker was gone at continue's read. |
| `LifecycleDaemon.Daemon.PruneOne` | src/caffeinated_whale_cli/jobs.py:410-412 | Under the admission invariant, a deletion by an old listing still meets a finished job whose worker is not at work. |
| `Lifecycle.StepKeepsSound` | src/caffeinated_whale_cli/jobs.py:326-360 | Every step of creation, pruning, refresh, interrupt, termination, continue and worker keeps the invariant of every run, which assumes nothing of the machine. |
| `Lifecycle.RunSound` | src/caffeinated_whale_cli/jobs.py:326-360 | Hence it holds in every state of every run. |
| `LifecycleRuns.TermsMean` | src/caffeinated_whale_cli/jobs.py:76-79 | The active and the terminal states, one by one. |
| `LifecycleRuns.WorkerMeans` | src/caffeinated_whale_cli/jobs.py:2063-2127 | The worker's course, whatever the daemon wrote meanwhile: its first record is `running`, from `interrupting` too, with its identity; then one outcome; a signal in its tail makes that `interrupted`; it may die at any moment and leaves the record. |
| `LifecycleRuns.WindowHolds` | src/caffeinated_whale_cli/jobs.py:339-341 | A refresh that finds no pid leaves the job alone within five seconds of its creation, and goes on to mark it from then on. |
| `LifecycleRuns.VanishedIsMarked` | src/caffeinated_whale_cli/jobs.py:334-360 | In every reachable state, a refresh of an active job whose worker is not alive can run to its end, and marks it, once a pid is recorded or five seconds have passed. |
| `LifecycleRuns.InterruptIsEnforced` | src/caffeinated_whale_cli/jobs.py:734-802 | From every reachable state, an interrupted worker that does not stir can be terminated and its job marked. |
| `LifecycleRuns.ContinueAnswers` | src/caffeinated_whale_cli/jobs.py:691-718 | In every reachable state a waiting job can be answered, and answered again. |
| `LifecycleRuns.SpawnFailsMeans` | src/caffeinated_whale_cli/jobs.py:592-602 | A spawn that fails leaves the queued record behind without a worker and lets the next creation in. |
| `LifecycleRuns.CheckStateMeans` | src/caffeinated_whale_cli/jobs.py:608-610 | A creation that finds its job over merges no pid into it. |
| `LifecycleRuns.DeletesFinished` | src/caffeinated_whale_cli/jobs.py:516-519 | Any finished job can be deleted by the next creation whose key is free. |
| `Lifecycle.StepKeepsInv` | src/caffeinated_whale_cli/jobs.py:326-360 | Every such step keeps the admission invariant as well, under the two assumptions (a creation records its worker within five seconds, start times are readable). |
| `Lifecycle.RunInv` | src/caffeinated_whale_cli/jobs.py:326-360 | Hence so does every run under the two assumptions. |
| `Lifecycle.OneJobPerKey` | src/caffeinated_whale_cli/jobs.py:489-528 | In every run of one daemon under the two assumptions, no two jobs of one key are active, and no two have workers that have yet to write their terminal record. |
| `Lifecycle.DaemonEdges` | src/caffeinated_whale_cli/jobs.py:734-743 | In every run, on any machine, every daemon step takes a record along one of the daemon's edges and touches an inactive one only to answer it. An active record becomes inactive only once its worker is dead when pid and start time are recorded and the marking refresh could read a start time, or when the terminator marks it; under the two assumptions, always. |
| `LifecycleRuns.AnswersOverExactly` | src/caffeinated_whale_cli/jobs.py:691-717 | From every state of every run in which a job waits, some run goes on to a continue that reads it there and answers it over `interrupted`, if and only if the job's worker is not gone at that read. |
| `Lifecycle.EndedForGood` | src/caffeinated_whale_cli/jobs.py:334-360 | In every run, a record with an outcome or an answer never becomes active or `unknown` again. |
| `Lifecycle.DeadForGood` | src/caffeinated_whale_cli/jobs.py:334-360 | In every run, `unknown` over a dead worker is for good. |
| `Lifecycle.KnownMarkIsFinal` | src/caffeinated_whale_cli/jobs.py:334-360 | In every run, a job marked `unknown` with a recorded pid and start time stays `unknown` for the rest of the run, its worker dead, unless the refresh that marks it could not read a start time. |
| `LifecycleRuns.UnknownLeftExactly` | src/caffeinated_whale_cli/jobs.py:334-360 | From every state of every run, an `unknown` record can leave `unknown` if and only if its worker is not dead, and can become active again if and only if its worker has not written its first record. |
| `Lifecycle.UnknownIsFinal` | src/caffeinated_whale_cli/jobs.py:334-360 | Under the two assumptions, no inactive record becomes active again and `unknown` is for good, whatever was recorded. |
| `LifecycleRuns.UnknownComesBack` | src/caffeinated_whale_cli/jobs.py:339-341 | Without the five-second assumption, a run that takes a record from `unknown` to `running`. |
| `LifecycleRuns.BlindMarkComesBack` | src/caffeinated_whale_cli/jobs.py:326-331 | Without readable start times, a run that takes a record with a full identity from `unknown` to `succeeded`. |
| `Lifecycle.RemovedForGood` | src/caffeinated_whale_cli/jobs.py:407-412 | In every run, on any machine, a deleted job's id never returns. |
| `LifecycleRuns.TwoLiveWorkersOfOneKey` | src/caffeinated_whale_cli/jobs.py:2109-2123 | A run with two live worker processes of one key: a finished job's worker outlives its terminal record. |
| `LifecycleRuns.TwoLiveExactly` | src/caffeinated_whale_cli/jobs.py:592-602 | A run has two live workers of a key at some moment if and only if it spawns one while another lives, records deleted meanwhile included. |
| `LifecycleRuns.SpawnMeetsTails` | src/caffeinated_whale_cli/jobs.py:518-528 | Under the two assumptions every live worker of the key that a spawn meets has written its terminal record. |
| `LifecycleRuns.AnsweredOverInterrupted` | src/caffeinated_whale_cli/jobs.py:2124-2127 | A run in which continue writes `answered` over `interrupted`: the signal landed in the worker's tail after continue read the record. |
| `LifecycleRuns.SlowCreationAdmitsTwo` | src/caffeinated_whale_cli/jobs.py:339-341 | Without the five-second assumption on creation, a run with two active jobs of one key. |
| `LifecycleRuns.UnreadableStartAdmitsTwo` | src/caffeinated_whale_cli/jobs.py:326-331 | Without readable start times, a run with two workers of one key at work. |
| `Watcher.SameVersionSameRecord` | src/caffeinated_whale_cli/jobs.py:2321-2324 | Between two moments with one modification time a record has not changed, whatever was written. |
| `Watcher.WritesKeepFresh` | src/caffeinated_whale_cli/jobs.py:2319-2324 | No write of anyone makes a cached row lie about the file it names by its modification time. |
| `Watcher.ReadIsFresh` | src/caffeinated_whale_cli/jobs.py:2321-2328 | A row stored under the modification time of the stat is fresh although writers came between the stat, the read and the refresh's lock. |
| `Watcher.VisitKeepsFresh` | src/caffeinated_whale_cli/jobs.py:2318-2330 | One visit keeps every cached row fresh and yields a fresh one. |
| `Watcher.QuietVisit` | src/caffeinated_whale_cli/jobs.py:2318-2330 | With nobody else writing, a visit yields the job's current summary, refresh included, and leaves other jobs alone. |
| `Watcher.VisitSettles` | src/caffeinated_whale_cli/jobs.py:334-360 | What an undisturbed visit does to the files: an active record whose worker is gone at both looks becomes `unknown`, its result kept; every other file stays as it is, its modification time included. |
| `Watcher.OwnWrite` | src/caffeinated_whale_cli/jobs.py:342-360 | Whatever others write meanwhile, a visit writes at most once, over a record that is active under the lock. |
| `Watcher.Disk.Visit` | src/caffeinated_whale_cli/jobs.py:2319-2328 | Stat, cache check and read, with other writers at each point. |
| `Watcher.Watch.VisitOne` | src/caffeinated_whale_cli/jobs.py:2318-2330 | One turn of the inner loop keeps the table fresh and the published messages equal to it. |
| `Watcher.Watch.Publish` | src/caffeinated_whale_cli/jobs.py:2328-2330 | A row is published unless the subscribers have it already. |
| `Watcher.Watch.PublishRemovals` | src/caffeinated_whale_cli/jobs.py:2331-2333 | Publishing what is gone makes the subscribers' table the new table. |
| `Watcher.Watch.Tick` | src/caffeinated_whale_cli/jobs.py:2317-2333 | After every tick every cached row is fresh and folding all published messages gives exactly the watcher's table; a tick during which nobody else writes ends with every job's current summary and no other row, and has touched only the files of active jobs whose worker is gone. |
| `Watcher.Watch.Loop` | src/caffeinated_whale_cli/jobs.py:2306-2333 | The same over any number of ticks, with any writes between them and ticks skipped while nobody listens. |
| `EventLog.Events` | src/caffeinated_whale_cli/jobs.py:299-323 | The reading loop returns the last rows of the slice past `after`, at most as many as a limit allows and all without one, and the number left out. |
| `EventLog.SliceIsFilter` | src/caffeinated_whale_cli/jobs.py:312-318 | On a log whose line k carries number k + 1, skipping `after` lines and filtering is filtering the whole file. |
| `EventLog.PastAppends` | src/caffeinated_whale_cli/jobs.py:312-318 | What is read of two stretches of a log is what is read of each. |
| `EventLog.PastOfLine` | src/caffeinated_whale_cli/jobs.py:312-318 | Of one line, its row when it has one past the number, and nothing of a line that does not parse. |
| `EventLog.SkipMeans` | src/caffeinated_whale_cli/jobs.py:312 | Reading starts behind the first `after` lines, of which there may be fewer. |
| `EventLog.UnnumberedDiffers` | src/caffeinated_whale_cli/jobs.py:312-318 | Without that numbering it is not. |
| `EventLog.PastIsComplete` | src/caffeinated_whale_cli/jobs.py:312-318 | The rows past `after` are every such line, each once and in order. |
| `EventLog.GrownReads` | src/caffeinated_whale_cli/jobs.py:299-323 | What was read stays a prefix of what can be read later, a torn last line included. |
| `EventLog.TailThenRest` | src/caffeinated_whale_cli/jobs.py:303-306 | Rows plus `skipped` are all rows, and a tail page with the first `skipped` rows of a later fetch rebuilds the log as it was, the later fetch continuing it. |
| `Recorder.Recorder.DoFlush` | src/caffeinated_whale_cli/jobs.py:862-867 | A flush counts everything, cancels the timer and keeps the bounds. |
| `Recorder.Recorder.Record` | src/caffeinated_whale_cli/jobs.py:850-860 | An event gets the next number and its line, is flushed at once when it must be, and otherwise has a timer pending for it. |
| `Recorder.Recorder.TimerFires` | src/caffeinated_whale_cli/jobs.py:855-867 | The trailing timer, on time or late, counts everything. |
| `Recorder.Recorder.Run` | src/caffeinated_whale_cli/jobs.py:838-885 | For every sequence of events and every lateness of the timer up to a latency: each event is counted within the interval and that latency, flushes nothing forced are an interval behind the flush before them, a lifecycle event is counted at its own moment with every event before it, the log is numbered without gaps, and in the end nothing is uncounted. |
| `RecorderThreads.CaughtWithoutOverlap` | src/caffeinated_whale_cli/jobs.py:850-867 | With a flush in its three parts, on the main thread and on every timer's: as long as two flushes do not overlap, outside a flush everything is counted or a timer is armed. |
| `RecorderThreads.CoverLost` | src/caffeinated_whale_cli/jobs.py:850-867 | A step leaves something uncounted that no one is going to count if and only if it is a timer's merge of an older count over a newer one, with the main thread out of its flush, no timer armed, and only older counts in the other timers' flushes. |
| `RecorderThreads.CaughtExactly` | src/caffeinated_whale_cli/jobs.py:850-867 | A run comes to rest with something uncounted and no timer armed if and only if there is such a merge and only merges follow it up to the rest; any number of timers may be in their flushes at once. |
| `RecorderThreads.OverlapForgets` | src/caffeinated_whale_cli/jobs.py:862-867 | When they overlap, a run ends with an older count over a lifecycle event's and no timer left. |
| `Retention.SortedSorts` | src/caffeinated_whale_cli/jobs.py:404 | The listing's sort is newest first and a permutation. |
| `Retention.SortedKeepsTies` | src/caffeinated_whale_cli/jobs.py:404 | Rows of one creation text stay in the order they came. |
| `Retention.LessMeans` | src/caffeinated_whale_cli/jobs.py:404 | Texts are compared at the first character in which they differ. |
| `Retention.SortedLists` | src/caffeinated_whale_cli/jobs.py:397-404 | The sorted listing lists the same jobs, each once. |
| `Retention.JobStore.KeepFinished` | src/caffeinated_whale_cli/jobs.py:409 | The finished rows, in order. |
| `Retention.JobStore.Prune` | src/caffeinated_whale_cli/jobs.py:407-412 | The jobs deleted are exactly the finished ones past the limit, and none of them keeps a held secret. |
| `Retention.JobStore.MakeRoom` | src/caffeinated_whale_cli/jobs.py:518-519 | List and prune over any directory: active jobs stay, the smaller of n and the limit of finished ones stay, and nothing deleted is newer than a finished job kept. |
| `Retention.PruneKeepsNewest` | src/caffeinated_whale_cli/jobs.py:407-412 | What a prune of a newest-first listing deletes: no active job, exactly the excess, and nothing newer than what it keeps. |
| `Retention.PruneAgain` | src/caffeinated_whale_cli/jobs.py:407-412 | Pruning the result again deletes nothing, in whatever order it is listed. |
| `Retention.TextOrderIsTimeOrder` | src/caffeinated_whale_cli/jobs.py:544 | For all dates of four-digit years, written field by field as the code writes them: the text order of two creation times is their order in time, if and only if they are not a whole second and a later moment within it; then it is reversed. |
| `Retention.CreatedAtMeans` | src/caffeinated_whale_cli/jobs.py:544 | The text, piece by piece: every field in decimal digits of its width, the fraction only when there is one. |
| `Retention.WholeSecondSortsLast` | src/caffeinated_whale_cli/jobs.py:544 | Such a pair. |
| `Retention.PruneKeepsNewestInTime` | src/caffeinated_whale_cli/jobs.py:404-412 | A prune deletes a job made later than a finished one it keeps only when the two are such a pair. |
| `Grace.WaitUntil` | src/caffeinated_whale_cli/jobs.py:755-761 | On any clock, the poll loop stops at the first look that sees the condition, or at the first whose reading is at or past the deadline. |
| `Grace.WaitDecided` | src/caffeinated_whale_cli/jobs.py:755-761 | On a clock whose rounds are late by at most a slack: what happens by a slack before the deadline is seen, what is seen has happened, giving up comes no earlier than the deadline, and the end comes no later than one poll interval and the slack past the deadline, and past what is seen. |
| `Grace.TerminateAfterGrace` | src/caffeinated_whale_cli/jobs.py:764-802 | The two waits, the look between them and the three exits decide who is terminated and who is marked. |
| `Grace.GraceBound` | src/caffeinated_whale_cli/jobs.py:764-802 | Every worker is gone by both allowances and a poll interval per wait, plus the machine's slack; one that begins and ends a slack inside its allowances is never terminated; a terminated one had its whole delivery time or its whole cleanup allowance; only the never-began exit marks a record, and it marks every active one. |
| `Grace.BeginsMeans` | src/caffeinated_whale_cli/jobs.py:775 | A cleanup has begun, for the terminator, from the moment its marker is there or the worker is gone. |
| `Grace.GraceBoundOnTime` | src/caffeinated_whale_cli/jobs.py:764-802 | With no slack: the allowances and one poll interval per wait, and no one who begins and ends within its allowances is terminated. |
| `Grace.CourseOf` | src/caffeinated_whale_cli/jobs.py:764-802 | Every worker and every moment of a request has such a course. |
| `Grace.LateMachineOverruns` | src/caffeinated_whale_cli/jobs.py:755-761 | On a late machine the allowances alone are no bound. |
| `Chains.ChainKeepsVerbAndProject` | src/caffeinated_whale_cli/jobs.py:667-674 | Every job of a chain, however long, has the verb and the instance of the job the chain started from. |
| `Chains.RetriesRunTheSameJob` | src/caffeinated_whale_cli/jobs.py:656-674 | A chain of retries keeps verb, target and args, never carries consent, and never has the guarded flags. |
| `Chains.AnsweredHasFollowUp` | src/caffeinated_whale_cli/jobs.py:715-717 | An answered job names a later job that was made from it, with its verb and instance. |
| `Chains.Registry.Read` | src/caffeinated_whale_cli/jobs.py:367-369 | Reading a succeeded job forgets its password. |
| `Chains.Registry.FindBusy` | src/caffeinated_whale_cli/jobs.py:518-528 | The listing finds an active job with the key if there is one, and leaves held exactly the passwords of jobs that have not succeeded. |
| `Chains.Registry.Admit` | src/caffeinated_whale_cli/jobs.py:453-528 | A job is added if and only if its spec is valid (a known verb, no key that names a secret at any depth, an instance where one is needed) and no active job has its key; so no registry ever holds a secret in a spec or two active jobs of one key. |
| `Chains.SameKeyExactly` | src/caffeinated_whale_cli/jobs.py:415-419 | Two jobs have one key if and only if they publish the same site, change the same instance by its stripped name, or are the machine's and have one verb, or are mistaken for each other because a name reads like another kind's key. |
| `Chains.OnePerInstance` | src/caffeinated_whale_cli/jobs.py:518-528 | In every registry no two active jobs change the same site, the same instance, or the machine under one verb. |
| `Chains.BusyExactly` | src/caffeinated_whale_cli/jobs.py:518-528 | A job is refused as busy if and only if an active one changes the same thing, or is mistaken for it. |
| `Chains.NamesCollide` | src/caffeinated_whale_cli/jobs.py:415-419 | Such a mistake: an instance named `@` and a verb of the machine. |
| `Chains.ValidMeans` | src/caffeinated_whale_cli/jobs.py:453-478 | Which specs pass: a known verb, no key at any depth of target or args whose lower-cased text holds `password`, `secret` or `token`, and a non-blank instance where the verb needs one. |
| `Chains.SecretMeans` | src/caffeinated_whale_cli/jobs.py:422-435 | A value is refused if and only if it holds such a key at some depth. |
| `Chains.RetryMeans` | src/caffeinated_whale_cli/jobs.py:614-647 | Why a job is not retried, in order and flag by flag; only a failed job that carries no guarded flag and left nothing running is. |
| `Chains.ContinueMeans` | src/caffeinated_whale_cli/jobs.py:691-705 | Why a job is not continued, in order. |
| `Chains.ProjectMeans` | src/caffeinated_whale_cli/jobs.py:700 | Two targets name one project when both name none, or both the same. |
| `Chains.TruthyMeans` | src/caffeinated_whale_cli/jobs.py:416 | What Python takes for false. |
| `Chains.Registry.Create` | src/caffeinated_whale_cli/jobs.py:480-502 | A fresh job starts a chain of its own. |
| `Chains.Registry.Retry` | src/caffeinated_whale_cli/jobs.py:650-674 | Which refusal, in which order, and what is made: the same job without consent, with the password if it is still held. Its spec passed once, so validation never refuses it. |
| `Chains.Registry.Continue` | src/caffeinated_whale_cli/jobs.py:677-714 | Which refusal, in which order, and what is made; the waiting job is left as it was. |
| `Chains.Registry.Answer` | src/caffeinated_whale_cli/jobs.py:715-717 | The waiting job is answered only once its follow-up was admitted, whatever happened in between, and names it. |
| `Chains.Registry.Finish` | src/caffeinated_whale_cli/jobs.py:2110-2117 | A terminal record leaves verb, target, args and descent alone. |
| `Chains.AdmitKeepsInv` | src/caffeinated_whale_cli/jobs.py:518-528 | Adding a valid job with a free key keeps every chain, every spec valid and one active job per key. |
| `Chains.SetKeepsInv` | src/caffeinated_whale_cli/jobs.py:717 | Writing an outcome, or an answer that names its follow-up, keeps the same. |
| `Instance.FrappeStopped` | src/caffeinated_whale_cli/jobs.py:1202-1206 | Whether a frappe container exists that does not run. |
| `Instance.ResultMeans` | src/caffeinated_whale_cli/jobs.py:2029-2043 | Which results count as success: an explicit verdict first; otherwise the status without data, any plain dictionary, and an object with a clean shutdown and no failures. |
| `Instance.CompletedMeans` | src/caffeinated_whale_cli/jobs.py:1247-1286 | When a removal counts as completed, and when an instance as stopped before. |
| `Instance.Machine.RemoveBench` | src/caffeinated_whale_cli/jobs.py:1247-1286 | A running instance is never stopped. A stopped one gets one stop attempt if the removal did not complete and none if it did, if and only if no interrupt lands on an uncompleted removal between the start and that attempt, on either path; and how the operation is left. |
| `Instance.Machine.InterruptLeavesItUp` | src/caffeinated_whale_cli/jobs.py:1271-1280 | The three such interrupts: in the removal, behind a removal that came back with a question, and in the handler of its exception. |
| `Instance.FindServing` | src/caffeinated_whale_cli/jobs.py:928-944 | The benches that serve, in the cache's order; none while the container is down. |
| `Instance.Machine.RestartServing` | src/caffeinated_whale_cli/jobs.py:947-973 | What is started: nothing after an unclean shutdown, only containers when nothing served, otherwise exactly the serving benches in order, up to the first start that raises. |
| `Instance.ServingIsExact` | src/caffeinated_whale_cli/jobs.py:928-944 | Of the cached benches, or the default one when none is cached, each supervised or managed one, once, in order, and no other; none while the container is down. |

## Left out

- Bytes: a byte is a character of the same code, so that a head is a `string`; the results hold for all characters.
- Deadlines: the stream's end is a parameter, either the end of the input or silence until the deadline; a slow stream that runs into the deadline is one that stalls where it was.
- Parameters of `Bridge`: the shape of a grant line and its shell splitting, key fingerprints, the path of a target, JSON decoding and the strip of a Unicode string are arbitrary functions. That bridge and daemon use the same path and decoding functions is an assumption of `SameVerb`.
- The daemon's own HTTP parser: what `DaemonReadsTheSameRequest` says of the daemon is said of a reader with the bridge's grammar, head end and Content-Length rule, and without its head limit.
- Daemon start-up and probing from the bridge, the streaming of the answer back, closed channels, texts on standard error, and the bodies of error answers.
- Verb bodies and `_dispatch`: a verb is an arbitrary result or exception.
- Jobs that a worker itself creates as follow-ups: they take the worker's own create lock, so `OneJobPerKey` is a claim about one daemon.
- Self-update, the UI restart and the remaining frontends.
- `Chains`: the tables of verbs, the text of a value and Python's strip and lower-casing of a string are parameters. Its jobs are never deleted (`Retention` does that), and a spawn that fails is in `Lifecycle` only. `Lifecycle` takes the key as given.
- Redaction.SurvivesExactly: says nothing of a secret that holds the whole text `[redacted]`, or of several secrets with brackets together.
- `Lifecycle`: a process identity is never reused; a prune there may remove any finished jobs of the listing (`Retention` says which), and directories go as a whole. The grace terminator may end any interrupted worker at any later moment (`Grace` says when).
- StateFile.MergedValueStays: says nothing of `updated_at`, which every update writes.
- File modes, groups, `fsync`, the removal of a temporary file left by a death, and records that cannot be parsed.
- Watcher.Watch.Tick: a modification time is a number that grows with every write; a directory is there with its record or not at all; the specification file, written once, is part of what a record shows.
- Grace.TerminateAfterGrace: that a termination succeeds is assumed.
- Recorder.Recorder.Run: a flush is one step that takes no time. `RecorderThreads` takes the flush apart but has no clock.
- Instance.Machine.RestartServing: reading the process table, the stop and the containers-only start return; any start of a bench may raise.
- Chains.Registry.Continue: which of a job's passwords are held is one bit; Python counts `True` equal to 1 when it compares projects, and the model does not.
- JSON: the order of keys and the difference between integers and floats.
- The sort of `list_jobs` is an insertion sort; only its result is modelled, not its cost.
