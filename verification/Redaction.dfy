/**
 Secrets are replaced by a marker in every string of an event, a result or an error before it is
 written to disk. One secret is replaced after the other, so a later replacement could in
 principle put together what an earlier one took apart; the main result says when it cannot.
 */
module Redaction {
  import opened Text
  import opened Json

  const MARK: string := "[redacted]"
  const INNER: string := "redacted"

  // ---------------------------------------------------------------- the replacement

  /** Python's `text.replace(secret, "[redacted]")`: leftmost first, no overlap, never rescanning the marker. */
  function Replace(text: string, secret: string): string
    requires secret != ""
    decreases |text|
  {
    match Find(text, secret)
    case None => text
    case Some(i) => text[..i] + MARK + Replace(text[i + |secret|..], secret)
  }

  function ScrubText(text: string, secrets: seq<string>): string
    decreases |secrets|
  {
    if secrets == [] then text
    else ScrubText(if secrets[0] == "" then text else Replace(text, secrets[0]), secrets[1..])
  }

  /** The loop over the secrets, as the code runs it. */
  method ScrubString(text: string, secrets: seq<string>) returns (r: string)
    ensures r == ScrubText(text, secrets)
  {
    r := text;
    var i := 0;
    while i < |secrets|
      invariant 0 <= i <= |secrets|
      invariant ScrubText(text, secrets) == ScrubText(r, secrets[i..])
    {
      assert secrets[i..][1..] == secrets[i + 1..];
      if secrets[i] != "" {
        r := Replace(r, secrets[i]);
      }
      i := i + 1;
    }
  }

  /** The code's `_scrub`. */
  function Scrub(value: Json, secrets: seq<string>): Json
    decreases value
  {
    match value
    case Str(s) => Str(ScrubText(s, secrets))
    case Obj(fields) => Obj(map k | k in fields :: Scrub(fields[k], secrets))
    case Arr(items) => Arr(seq(|items|, i requires 0 <= i < |items| => Scrub(items[i], secrets)))
    case _ => value
  }

  // ---------------------------------------------------------------- a reference for the replacement

  /** Replacing is splitting at the secret and joining with the marker. */
  lemma {:induction false} ReplaceIsSplitJoin(text: string, secret: string)
    requires secret != ""
    ensures Replace(text, secret) == Join(Split(text, secret), MARK)
    decreases |text|
  {
    var found := Find(text, secret);
    if found.Some? {
      var first, rest := text[..found.value], text[found.value + |secret|..];
      ReplaceIsSplitJoin(rest, secret);
      assert Split(text, secret) == [first] + Split(rest, secret);
      JoinCons(first, Split(rest, secret), MARK);
    }
  }

  // ---------------------------------------------------------------- what the scrub is, for any secrets

  /** One secret, of any characters: the text is cut at the secret and put together again with the marker. */
  lemma ScrubOne(text: string, secret: string)
    requires secret != ""
    ensures ScrubText(text, [secret]) == Join(Split(text, secret), "[redacted]")
  {
    ReplaceIsSplitJoin(text, secret);
    assert [secret][1..] == [];
  }

  /** Several: one after the other. */
  lemma {:induction false} ScrubInTurn(text: string, a: seq<string>, b: seq<string>)
    ensures ScrubText(text, a + b) == ScrubText(ScrubText(text, a), b)
    decreases |a|
  {
    if a == [] {
      assert a + b == b;
    } else {
      assert (a + b)[0] == a[0] && (a + b)[1..] == a[1..] + b;
      ScrubInTurn(if a[0] == "" then text else Replace(text, a[0]), a[1..], b);
    }
  }

  /** No secret, or an empty one, changes nothing. */
  lemma ScrubWithout(text: string)
    ensures ScrubText(text, []) == text && ScrubText(text, [""]) == text
  {
    assert [""][1..] == [];
  }

  // ---------------------------------------------------------------- completeness on one string

  predicate BracketFree(s: string) {
    '[' !in s && ']' !in s
  }

  /** A secret the marker cannot betray. */
  ghost predicate Safe(s: string) {
    s == "" || (BracketFree(s) && !Contains(INNER, s))
  }

  /** A bracket-free word around a marker lies before it, after it, or inside it. */
  lemma AroundMarker(before: string, after: string, word: string, k: int)
    requires word != "" && BracketFree(word)
    requires At(before + MARK + after, word, k)
    ensures At(before, word, k) || At(INNER, word, k - |before| - 1) || At(after, word, k - |before| - |MARK|)
  {
    var s := before + MARK + after;
    var n := |before|;
    assert s[n] == '[' && s[n + 9] == ']';
    assert s == before + (MARK + after) && MARK == "[" + INNER + "]";
    if k + |word| <= n {
      AtParts(before, MARK + after, word, k);
    } else if k <= n {
      AtIndex(s, word, k, n - k);
      assert false;
    } else if k + |word| <= n + 9 {
      assert s == before + "[" + INNER + ("]" + after);
      AtParts(before + "[" + INNER, "]" + after, word, k);
      AtParts(before + "[", INNER, word, k - n - 1);
    } else if k <= n + 9 {
      AtIndex(s, word, k, n + 9 - k);
      assert false;
    } else {
      AtParts(before + MARK, after, word, k - n - 10);
    }
  }

  lemma SubstringFree(text: string, lo: nat, hi: nat, word: string)
    requires lo <= hi <= |text| && !Contains(text, word)
    ensures !Contains(text[lo..hi], word)
  {
    forall i ensures !At(text[lo..hi], word, i) {
      if i >= 0 {
        AtSlice(text, lo, hi, word, i);
      }
    }
  }

  /** Replacing one secret never brings back a safe word that was not there, and removes the secret itself. */
  lemma {:induction false} ReplaceKeepsOut(text: string, secret: string, word: string)
    requires secret != "" && word != "" && Safe(word)
    requires word == secret || !Contains(text, word)
    ensures !Contains(Replace(text, secret), word)
    decreases |text|
  {
    if Find(text, secret).Some? {
      var i := Find(text, secret).value;
      var before, rest := text[..i], text[i + |secret|..];
      if word != secret {
        SubstringFree(text, i + |secret|, |text|, word);
        assert text[i + |secret|..|text|] == rest && text[0..i] == before;
        SubstringFree(text, 0, i, word);
      } else {
        forall j ensures !At(before, secret, j) {
          AtPrefix(text, i, secret, j);
        }
      }
      ReplaceKeepsOut(rest, secret, word);
      var after := Replace(rest, secret);
      forall k ensures !At(before + MARK + after, word, k) {
        if At(before + MARK + after, word, k) {
          AroundMarker(before, after, word, k);
        }
      }
    }
  }

  ghost predicate Clean(text: string, secrets: seq<string>) {
    forall s :: s in secrets && s != "" ==> !Contains(text, s)
  }

  lemma {:induction false} WordStaysOut(text: string, secrets: seq<string>, word: string)
    requires word != "" && Safe(word) && !Contains(text, word)
    ensures !Contains(ScrubText(text, secrets), word)
    decreases |secrets|
  {
    if secrets != [] {
      if secrets[0] == "" {
        WordStaysOut(text, secrets[1..], word);
      } else {
        ReplaceKeepsOut(text, secrets[0], word);
        WordStaysOut(Replace(text, secrets[0]), secrets[1..], word);
      }
    }
  }

  /** Safe secrets are gone from every text, in whatever order they are replaced and however they overlap. */
  lemma {:induction false} ScrubComplete(text: string, secrets: seq<string>)
    requires forall s :: s in secrets ==> Safe(s)
    ensures Clean(ScrubText(text, secrets), secrets)
    decreases |secrets|
  {
    if secrets != [] {
      var first, rest := secrets[0], secrets[1..];
      var next := if first == "" then text else Replace(text, first);
      ScrubComplete(next, rest);
      if first != "" {
        ReplaceKeepsOut(text, first, first);
        WordStaysOut(next, rest, first);
      }
      forall s | s in secrets && s != "" ensures !Contains(ScrubText(text, secrets), s) {
        assert s == first || s in rest;
      }
    }
  }

  /** A text without secrets is left alone. */
  lemma {:induction false} ScrubNothing(text: string, secrets: seq<string>)
    requires Clean(text, secrets)
    ensures ScrubText(text, secrets) == text
    decreases |secrets|
  {
    if secrets != [] {
      assert secrets[0] in secrets;
      if secrets[0] != "" {
        FindNone(text, secrets[0]);
      }
      assert Clean(text, secrets[1..]);
      ScrubNothing(text, secrets[1..]);
    }
  }

  // ---------------------------------------------------------------- the exact condition

  lemma MarkHoldsInner(before: string, after: string)
    ensures Contains(before + MARK + after, INNER)
  {
    var s := before + MARK + after;
    assert s[|before| + 1..|before| + 1 + |INNER|] == INNER;
    assert At(s, INNER, |before| + 1);
  }

  lemma ContainsThrough(a: string, b: string, c: string)
    requires Contains(a, b) && Contains(b, c)
    ensures Contains(a, c)
  {
    var i :| At(a, b, i);
    var j :| At(b, c, j);
    AtSlice(a, i, i + |b|, c, j);
  }

  lemma ReplacedShowsMark(text: string, secret: string)
    requires secret != ""
    ensures Replace(text, secret) == text || Contains(Replace(text, secret), INNER)
  {
    var found := Find(text, secret);
    if found.Some? {
      MarkHoldsInner(text[..found.value], Replace(text[found.value + |secret|..], secret));
    }
  }

  /** After the scrub, a text is as it was or shows a marker from its last change. */
  lemma {:induction false} ChangedShowsMark(text: string, secrets: seq<string>)
    ensures ScrubText(text, secrets) == text || Contains(ScrubText(text, secrets), INNER)
    decreases |secrets|
  {
    if secrets != [] {
      if secrets[0] == "" {
        ChangedShowsMark(text, secrets[1..]);
      } else {
        ReplacedShowsMark(text, secrets[0]);
        ChangedShowsMark(Replace(text, secrets[0]), secrets[1..]);
      }
    }
  }

  /**
   For secrets without a bracket, the scrub is complete on every text exactly when no secret is
   part of the word `redacted` itself.
   */
  lemma CompleteExactly(secrets: seq<string>)
    requires forall s :: s in secrets ==> BracketFree(s)
    ensures (forall text :: Clean(ScrubText(text, secrets), secrets)) <==>
      (forall s :: s in secrets && s != "" ==> !Contains(INNER, s))
  {
    if forall s :: s in secrets && s != "" ==> !Contains(INNER, s) {
      forall text ensures Clean(ScrubText(text, secrets), secrets) {
        ScrubComplete(text, secrets);
      }
    } else {
      var s :| s in secrets && s != "" && Contains(INNER, s);
      ChangedShowsMark(s, secrets);
      if ScrubText(s, secrets) == s {
        assert s[0..|s|] == s;
        assert At(s, s, 0);
      } else {
        ContainsThrough(ScrubText(s, secrets), INNER, s);
      }
      assert !Clean(ScrubText(s, secrets), secrets);
    }
  }

  /** With a bracket the guarantee can fail: the secret `]x` survives in `]xx`. */
  lemma BracketCanSurvive()
    ensures Contains(ScrubText("]xx", ["]x"]), "]x")
  {
    var text := "]xx";
    assert text[0..2] == "]x";
    FindIs(text, "]x", 0);
    assert text[..0] == "" && text[2..] == "x";
    forall i ensures !At("x", "]x", i) {}
    FindNone("x", "]x");
    var r := "" + MARK + "x";
    assert Replace(text, "]x") == r;
    assert r[9..11] == "]x";
    assert At(r, "]x", 9);
    assert ["]x"][1..] == [];
    assert ScrubText(text, ["]x"]) == ScrubText(r, []) == r;
  }

  // ---------------------------------------------------------------- one secret, with brackets or without

  /**
   The secret is `u` and then a beginning `e` of the marker, and `u` can stand in front of the
   secret without hiding it.
   */
  predicate EndsInMark(s: string, u: string, e: string) {
    && s == u + e && u != "" && e != ""
    && |e| < |MARK| && e == MARK[..|e|]
    && Find(u + s, s) == Some(|u|)
  }

  /** The secret is an end `e` of the marker and then `v`. */
  predicate BeginsInMark(s: string, e: string, v: string) {
    && s == e + v && e != "" && v != ""
    && |e| < |MARK| && e == MARK[|MARK| - |e|..]
  }

  /** The marker, with something beside it, can show the secret. */
  ghost predicate Clashes(s: string) {
    || Contains(MARK, s)
    || (exists u, e :: EndsInMark(s, u, e))
    || (exists e, v :: BeginsInMark(s, e, v))
  }

  /** The marker's text shows the secret: the secret is part of it. */
  lemma InsideShows(s: string)
    requires s != "" && Contains(MARK, s)
    ensures Contains(Replace(s, s), s)
  {
    assert s[0..|s|] == s;
    FindIs(s, s, 0);
    assert s[..0] == "" && s[|s|..] == "" && Find("", s) == None;
    assert Replace(s, s) == "" + MARK + "" == MARK;
  }

  lemma EndShows(s: string, u: string, e: string)
    requires EndsInMark(s, u, e)
    ensures Contains(Replace(u + s, s), s)
  {
    ReplaceLast(u, s);
    BeginsWith(u, MARK, |e|);
  }

  lemma ReplaceLast(u: string, s: string)
    requires s != "" && Find(u + s, s) == Some(|u|)
    ensures Replace(u + s, s) == u + MARK
  {
    var text := u + s;
    assert text[..|u|] == u && text[|u| + |s|..] == "" && Find("", s) == None;
    assert u + MARK + "" == u + MARK;
  }

  lemma BeginsWith(u: string, mark: string, n: nat)
    requires n <= |mark|
    ensures Contains(u + mark, u + mark[..n])
  {
    var out, s := u + mark, u + mark[..n];
    assert out[0..|s|] == s;
    assert At(out, s, 0);
  }

  lemma BeginShows(s: string, e: string, v: string)
    requires BeginsInMark(s, e, v)
    ensures Contains(Replace(s + v, s), s)
  {
    ReplaceFirst(s, v);
    EndsWith(MARK, |e|, v);
  }

  lemma ReplaceFirst(s: string, v: string)
    requires s != "" && |v| < |s|
    ensures Replace(s + v, s) == MARK + v
  {
    var text := s + v;
    assert text[0..|s|] == s;
    FindIs(text, s, 0);
    assert text[..0] == "" && text[|s|..] == v;
    assert Find(v, s) == None by {
      assert forall i :: !At(v, s, i);
    }
    assert "" + MARK + v == MARK + v;
  }

  lemma EndsWith(mark: string, n: nat, v: string)
    requires n <= |mark|
    ensures Contains(mark + v, mark[|mark| - n..] + v)
  {
    var out, s, k := mark + v, mark[|mark| - n..] + v, |mark| - n;
    assert out[k..k + |s|] == s;
    assert At(out, s, k);
  }

  lemma SliceOfSlice(s: string, lo: nat, hi: nat, a: nat, b: nat)
    requires lo <= hi <= |s| && a <= b <= hi - lo
    ensures s[lo..hi][a..b] == s[lo + a..lo + b]
  {
    var x, y := s[lo..hi][a..b], s[lo + a..lo + b];
    assert |x| == |y|;
    assert forall i :: 0 <= i < b - a ==> x[i] == s[lo + a + i] == y[i];
  }

  /** An occurrence that runs into a marker from the left. */
  lemma IntoMark(before: string, mark: string, after: string, s: string, k: nat)
    requires At(before + mark + after, s, k) && k <= |before| < k + |s|
    ensures var n := k + |s| - |before|;
      if n >= |mark| then Contains(s, mark) else s == before[k..] + mark[..n]
  {
    var out, b := before + mark + after, |before|;
    var n := k + |s| - b;
    if n >= |mark| {
      SliceOfSlice(out, k, k + |s|, b - k, b - k + |mark|);
      assert out[b..b + |mark|] == mark;
      assert At(s, mark, b - k);
    } else {
      assert out[k..k + |s|] == out[k..b] + out[b..b + n];
      assert out[b..b + n] == mark[..n] && out[k..b] == before[k..];
    }
  }

  /** An occurrence that starts in a marker and runs out of it to the right. */
  lemma OutOfMark(before: string, mark: string, after: string, s: string, k: nat)
    requires At(before + mark + after, s, k) && |before| <= k < |before| + |mark| < k + |s|
    ensures var n := |before| + |mark| - k; s == mark[|mark| - n..] + after[..|s| - n]
  {
    var out, e := before + mark + after, |before| + |mark|;
    assert out[k..k + |s|] == out[k..e] + out[e..k + |s|];
    assert out[k..e] == mark[|mark| - (e - k)..] && out[e..k + |s|] == after[..k + |s| - e];
  }

  lemma WithinMark(before: string, mark: string, after: string, s: string, k: nat)
    requires At(before + mark + after, s, k) && |before| <= k && k + |s| <= |before| + |mark|
    ensures At(mark, s, k - |before|)
  {
    AtParts(before + mark, after, s, k);
    AtParts(before, mark, s, k - |before|);
  }

  /** Where a secret can stand around a marker. */
  lemma AroundMark(before: string, after: string, s: string, k: int)
    requires s != "" && !Contains(s, MARK) && At(before + MARK + after, s, k)
    ensures
      || At(before, s, k) || At(after, s, k - |before| - |MARK|)
      || Contains(MARK, s) || (exists e, v :: BeginsInMark(s, e, v))
      || (var n := k + |s| - |before|;
          0 <= k < |before| && 0 < n < |MARK| && s == before[k..] + MARK[..n])
  {
    var b, m := |before|, |MARK|;
    assert before + MARK + after == before + (MARK + after);
    if k + |s| <= b {
      AtParts(before, MARK + after, s, k);
    } else if k < b || (k == b && |s| >= m) {
      IntoMark(before, MARK, after, s, k);
    } else if k >= b + m {
      AtParts(before + MARK, after, s, k - b - m);
    } else if k + |s| <= b + m {
      WithinMark(before, MARK, after, s, k);
    } else {
      OutOfMark(before, MARK, after, s, k);
      assert BeginsInMark(s, MARK[k - b..], after[..k + |s| - b - m]);
    }
  }

  lemma {:induction false} SurvivesByClash(text: string, s: string)
    requires s != "" && !Contains(s, MARK) && Contains(Replace(text, s), s)
    ensures Clashes(s)
    decreases |text|
  {
    var i := Find(text, s).value;
    var rest := text[i + |s|..];
    var after := Replace(rest, s);
    var k :| At(text[..i] + MARK + after, s, k);
    ClashOrAfter(text, s, i, after, k);
    if At(after, s, k - i - |MARK|) {
      SurvivesByClash(rest, s);
    }
  }

  lemma ClashOrAfter(text: string, s: string, i: nat, after: string, k: int)
    requires s != "" && !Contains(s, MARK) && Find(text, s) == Some(i)
    requires At(text[..i] + MARK + after, s, k)
    ensures Clashes(s) || At(after, s, k - i - |MARK|)
  {
    AroundMark(text[..i], after, s, k);
    AtPrefix(text, i, s, k);
    if 0 <= k < i && 0 < k + |s| - i < |MARK| && s == text[..i][k..] + MARK[..k + |s| - i] {
      EndClashes(text, s, i, k);
    }
  }

  lemma EndClashes(text: string, s: string, i: nat, k: nat)
    requires Find(text, s) == Some(i) && k < i
    requires var n := k + |s| - i; 0 < n < |MARK| && s == text[..i][k..] + MARK[..n]
    ensures EndsInMark(s, text[..i][k..], MARK[..k + |s| - i])
  {
    assert text[k..i + |s|] == text[..i][k..] + text[i..i + |s|];
    FirstBehind(text, s, i, k);
  }

  /** Cut off in front, a text still has its first occurrence where it had it. */
  lemma FirstBehind(text: string, s: string, i: nat, k: nat)
    requires k <= i && Find(text, s) == Some(i)
    ensures Find(text[k..i + |s|], s) == Some(i - k)
  {
    var part := text[k..i + |s|];
    AtSlice(text, k, i + |s|, s, i - k);
    forall j | 0 <= j < i - k ensures !At(part, s, j) {
      AtSlice(text, k, i + |s|, s, j);
    }
    FindIs(part, s, i - k);
  }

  /**
   One secret that does not itself hold the whole marker: some text still shows it after its
   replacement exactly when it clashes with the marker.
   */
  lemma SurvivesExactly(s: string)
    requires s != "" && !Contains(s, MARK)
    ensures (exists text :: Contains(ScrubText(text, [s]), s)) <==> Clashes(s)
  {
    if text :| Contains(ScrubText(text, [s]), s) {
      ScrubIsReplace(text, s);
      SurvivesByClash(text, s);
    }
    if Clashes(s) {
      var text := ClashShows(s);
      ScrubIsReplace(text, s);
      assert Contains(ScrubText(text, [s]), s);
    }
  }

  lemma ScrubIsReplace(text: string, secret: string)
    requires secret != ""
    ensures ScrubText(text, [secret]) == Replace(text, secret)
  {
    assert [secret][1..] == [];
  }

  lemma ClashShows(s: string) returns (text: string)
    requires s != "" && Clashes(s)
    ensures Contains(Replace(text, s), s)
  {
    if Contains(MARK, s) {
      InsideShows(s);
      text := s;
    } else if u, e :| EndsInMark(s, u, e) {
      EndShows(s, u, e);
      text := u + s;
    } else {
      var e, v :| BeginsInMark(s, e, v);
      BeginShows(s, e, v);
      text := s + v;
    }
  }

  // ---------------------------------------------------------------- nested values

  /** Every string leaf is free of every secret. */
  ghost predicate NoLeak(value: Json, secrets: seq<string>)
    decreases value
  {
    match value
    case Str(s) => Clean(s, secrets)
    case Obj(fields) => forall k :: k in fields ==> NoLeak(fields[k], secrets)
    case Arr(items) => forall i :: 0 <= i < |items| ==> NoLeak(items[i], secrets)
    case _ => true
  }

  /** Same constructors, same keys, same lengths; each string is its own scrub, and nothing else differs. */
  ghost predicate Scrubbed(a: Json, b: Json, secrets: seq<string>)
    decreases a
  {
    match a
    case Str(s) => b == Str(ScrubText(s, secrets))
    case Obj(fields) =>
      && b.Obj? && b.fields.Keys == fields.Keys
      && forall k :: k in fields ==> Scrubbed(fields[k], b.fields[k], secrets)
    case Arr(items) =>
      && b.Arr? && |b.items| == |items|
      && forall i :: 0 <= i < |items| ==> Scrubbed(items[i], b.items[i], secrets)
    case _ => a == b
  }

  /** Redaction leaves no safe secret in any leaf and never touches the structure around it. */
  lemma {:induction false} ScrubValue(value: Json, secrets: seq<string>)
    ensures Scrubbed(value, Scrub(value, secrets), secrets)
    ensures (forall s :: s in secrets ==> Safe(s)) ==> NoLeak(Scrub(value, secrets), secrets)
    ensures NoLeak(value, secrets) ==> Scrub(value, secrets) == value
    decreases value
  {
    match value
    case Str(s) =>
      if forall s :: s in secrets ==> Safe(s) {
        ScrubComplete(s, secrets);
      }
      if Clean(s, secrets) {
        ScrubNothing(s, secrets);
      }
    case Obj(fields) =>
      forall k | k in fields
        ensures Scrubbed(fields[k], Scrub(fields[k], secrets), secrets)
        ensures (forall s :: s in secrets ==> Safe(s)) ==> NoLeak(Scrub(fields[k], secrets), secrets)
        ensures NoLeak(fields[k], secrets) ==> Scrub(fields[k], secrets) == fields[k]
      {
        ScrubValue(fields[k], secrets);
      }
    case Arr(items) =>
      forall i | 0 <= i < |items|
        ensures Scrubbed(items[i], Scrub(items[i], secrets), secrets)
        ensures (forall s :: s in secrets ==> Safe(s)) ==> NoLeak(Scrub(items[i], secrets), secrets)
        ensures NoLeak(items[i], secrets) ==> Scrub(items[i], secrets) == items[i]
      {
        ScrubValue(items[i], secrets);
      }
    case _ =>
  }

  /** Scrubbing twice is scrubbing once. */
  lemma ScrubTwice(value: Json, secrets: seq<string>)
    requires forall s :: s in secrets ==> Safe(s)
    ensures Scrub(Scrub(value, secrets), secrets) == Scrub(value, secrets)
  {
    ScrubValue(value, secrets);
    ScrubValue(Scrub(value, secrets), secrets);
  }
}
