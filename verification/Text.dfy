/**
 The string operations the bridge and the job system lean on: first-occurrence search,
 stripping, ASCII lower-casing, splitting at CRLF and at a separator, and decimal numerals.

 A byte is written as the character with the byte's code (latin-1), so a byte string is a
 `string`. Every statement holds for all characters, hence for the 256 bytes among them.
 */
module Text {

  datatype Option<+T> = None | Some(value: T)

  datatype Result<+T, +E> = Ok(value: T) | Err(error: E)

  const CR: char := '\r'
  const LF: char := '\n'
  const CRLF: string := "\r\n"
  const CRLFCRLF: string := "\r\n\r\n"
  const LFLF: string := "\n\n"

  // ---------------------------------------------------------------- searching

  predicate At(s: string, pattern: string, i: int) {
    0 <= i && i + |pattern| <= |s| && s[i..i + |pattern|] == pattern
  }

  ghost predicate Contains(s: string, pattern: string) {
    exists i :: At(s, pattern, i)
  }

  /** The first occurrence of `pattern` at or after `from`. */
  function FindFrom(s: string, pattern: string, from: nat): (r: Option<nat>)
    requires from <= |s|
    ensures r.Some? ==> from <= r.value && At(s, pattern, r.value)
    ensures r.Some? ==> forall j :: from <= j < r.value ==> !At(s, pattern, j)
    ensures r.None? ==> forall j :: from <= j ==> !At(s, pattern, j)
    decreases |s| - from
  {
    if At(s, pattern, from) then Some(from)
    else if from == |s| then None
    else FindFrom(s, pattern, from + 1)
  }

  function Find(s: string, pattern: string): (r: Option<nat>)
    ensures r.Some? ==> At(s, pattern, r.value) && forall j :: j < r.value ==> !At(s, pattern, j)
    ensures r.None? ==> !Contains(s, pattern)
  {
    FindFrom(s, pattern, 0)
  }

  /** The first occurrence is determined by its two defining facts. */
  lemma FindIs(s: string, pattern: string, i: nat)
    requires At(s, pattern, i)
    requires forall j :: 0 <= j < i ==> !At(s, pattern, j)
    ensures Find(s, pattern) == Some(i)
  {
    assert Contains(s, pattern);
  }

  lemma FindNone(s: string, pattern: string)
    requires !Contains(s, pattern)
    ensures Find(s, pattern) == None
  {
  }

  /** An occurrence in a prefix is an occurrence in the whole, and back when it fits. */
  lemma AtPrefix(s: string, n: nat, pattern: string, i: int)
    requires n <= |s|
    ensures At(s[..n], pattern, i) <==> At(s, pattern, i) && i + |pattern| <= n
  {
    if 0 <= i && i + |pattern| <= n {
      assert s[..n][i..i + |pattern|] == s[i..i + |pattern|];
    }
  }

  /** An occurrence in a slice is an occurrence in the whole, inside the slice. */
  lemma AtSlice(s: string, lo: nat, hi: nat, pattern: string, i: nat)
    requires lo <= hi <= |s|
    ensures At(s[lo..hi], pattern, i) <==> At(s, pattern, lo + i) && lo + i + |pattern| <= hi
  {
    if lo + i + |pattern| <= hi {
      var a, b := s[lo..hi][i..i + |pattern|], s[lo + i..lo + i + |pattern|];
      assert |a| == |b|;
      assert forall k :: 0 <= k < |pattern| ==> a[k] == s[lo + i + k] == b[k];
      assert a == b;
    }
  }

  /** Occurrences in the parts of a concatenation. */
  lemma AtParts(a: string, b: string, pattern: string, i: nat)
    ensures At(a, pattern, i) <==> At(a + b, pattern, i) && i + |pattern| <= |a|
    ensures At(b, pattern, i) <==> At(a + b, pattern, |a| + i)
  {
    var s := a + b;
    assert s[0..|a|] == a && s[|a|..|s|] == b;
    AtSlice(s, 0, |a|, pattern, i);
    AtSlice(s, |a|, |s|, pattern, i);
  }

  lemma AtIndex(s: string, pattern: string, i: int, k: nat)
    requires k < |pattern| && At(s, pattern, i)
    ensures s[i + k] == pattern[k]
  {
    assert s[i..i + |pattern|][k] == s[i + k];
  }

  lemma AtChar(s: string, c: char, i: nat)
    requires i < |s|
    ensures At(s, [c], i) <==> s[i] == c
  {
    assert s[i..i + 1] == [s[i]];
  }

  // ---------------------------------------------------------------- characters

  predicate IsSpace(c: char) {
    c == ' ' || '\t' <= c <= '\r'
  }

  /** ASCII blanks, one by one. */
  lemma Blanks(c: char)
    ensures IsSpace(c) <==> c in [' ', '\t', '\n', '\U{000B}', '\U{000C}', '\r']
  {
  }

  predicate IsPrintable(c: char) {
    ' ' <= c <= '~'
  }

  predicate AllPrintable(s: string) {
    forall i :: 0 <= i < |s| ==> IsPrintable(s[i])
  }

  lemma PrintableParts(a: string, b: string, c: string)
    ensures AllPrintable(a + b + c) <==> AllPrintable(a) && AllPrintable(b) && AllPrintable(c)
  {
    var s := a + b + c;
    assert a == s[..|a|] && b == s[|a|..|a| + |b|] && c == s[|a| + |b|..];
  }

  function LowerChar(c: char): (r: char)
    ensures IsPrintable(c) ==> IsPrintable(r)
  {
    if 'A' <= c <= 'Z' then c - 'A' + 'a' else c
  }

  function Lower(s: string): (r: string)
    ensures |r| == |s|
    ensures forall i :: 0 <= i < |s| ==> r[i] == LowerChar(s[i])
  {
    seq(|s|, i requires 0 <= i < |s| => LowerChar(s[i]))
  }

  /** Lower-casing moves the 26 capitals by 32 and nothing else. */
  lemma LowerMeans(c: char)
    ensures LowerChar(c) as int == c as int + if 'A' <= c <= 'Z' then 32 else 0
  {
  }

  predicate StartsWith(s: string, prefix: string) {
    |prefix| <= |s| && s[..|prefix|] == prefix
  }

  // ---------------------------------------------------------------- stripping

  function StripLeft(s: string): string {
    if s != "" && IsSpace(s[0]) then StripLeft(s[1..]) else s
  }

  function StripRight(s: string): string {
    if s != "" && IsSpace(s[|s| - 1]) then StripRight(s[..|s| - 1]) else s
  }

  function Strip(s: string): string {
    StripRight(StripLeft(s))
  }

  /** Nothing at either end that `Strip` would take off. */
  predicate Trimmed(s: string) {
    s != "" ==> !IsSpace(s[0]) && !IsSpace(s[|s| - 1])
  }

  predicate AllSpace(s: string) {
    forall i :: 0 <= i < |s| ==> IsSpace(s[i])
  }

  lemma {:induction false} StripLeftCuts(s: string) returns (left: string)
    ensures s == left + StripLeft(s) && AllSpace(left)
    ensures StripLeft(s) != "" ==> !IsSpace(StripLeft(s)[0])
  {
    if s != "" && IsSpace(s[0]) {
      left := StripLeftCuts(s[1..]);
      left := [s[0]] + left;
    } else {
      left := "";
    }
  }

  lemma {:induction false} StripRightCuts(s: string) returns (right: string)
    ensures s == StripRight(s) + right && AllSpace(right)
    ensures StripRight(s) != "" ==> !IsSpace(StripRight(s)[|StripRight(s)| - 1])
  {
    if s != "" && IsSpace(s[|s| - 1]) {
      right := StripRightCuts(s[..|s| - 1]);
      right := right + [s[|s| - 1]];
    } else {
      right := "";
    }
  }

  /** `Strip` cuts blanks off both ends, down to a trimmed core. */
  lemma StripCuts(s: string) returns (left: string, right: string)
    ensures s == left + Strip(s) + right
    ensures AllSpace(left) && AllSpace(right) && Trimmed(Strip(s))
  {
    left := StripLeftCuts(s);
    right := StripRightCuts(StripLeft(s));
    assert Strip(s) != "" ==> Strip(s)[0] == StripLeft(s)[0];
  }

  /** A non-blank character is never cut off. */
  lemma NotCut(left: string, core: string, right: string, k: nat)
    requires AllSpace(left) && AllSpace(right)
    requires k < |left + core + right| && !IsSpace((left + core + right)[k])
    ensures |left| <= k < |left| + |core|
  {
  }

  lemma {:induction false} StripLeftBlank(left: string, s: string)
    requires AllSpace(left)
    ensures StripLeft(left + s) == StripLeft(s)
  {
    if left == "" {
      assert left + s == s;
    } else {
      assert (left + s)[1..] == left[1..] + s;
      StripLeftBlank(left[1..], s);
    }
  }

  lemma {:induction false} StripRightBlank(s: string, right: string)
    requires AllSpace(right)
    ensures StripRight(s + right) == StripRight(s)
  {
    if right == "" {
      assert s + right == s;
    } else {
      var shorter := right[..|right| - 1];
      assert (s + right)[..|s + right| - 1] == s + shorter;
      StripRightBlank(s, shorter);
    }
  }

  /** Conversely: whatever is cut that way is what `Strip` returns. */
  lemma StripIs(left: string, core: string, right: string)
    requires AllSpace(left) && AllSpace(right) && Trimmed(core)
    ensures Strip(left + core + right) == core
  {
    assert left + core + right == left + (core + right);
    StripLeftBlank(left, core + right);
    if core == "" {
      assert core + right == right + "";
      StripLeftBlank(right, "");
    } else {
      assert StripLeft(core + right) == core + right;
      StripRightBlank(core, right);
    }
  }

  lemma StripTrimmed(s: string)
    requires Trimmed(s)
    ensures Strip(s) == s
  {
    StripIs("", s, "");
    assert "" + s + "" == s;
  }

  // ---------------------------------------------------------------- splitting

  /** `s.split(sep)` for a non-empty separator. */
  function Split(s: string, sep: string): (r: seq<string>)
    requires sep != ""
    ensures r != []
    decreases |s|
  {
    match Find(s, sep)
    case None => [s]
    case Some(i) => [s[..i]] + Split(s[i + |sep|..], sep)
  }

  /** A piece without the separator's first character in it is split off whole. */
  lemma SplitHead(piece: string, sep: string, tail: string)
    requires sep != "" && sep[0] !in piece
    ensures Split(piece + sep + tail, sep) == [piece] + Split(tail, sep)
  {
    var s := piece + sep + tail;
    assert At(s, sep, |piece|);
    forall j | 0 <= j < |piece| ensures !At(s, sep, j) {
      if At(s, sep, j) {
        AtIndex(s, sep, j, 0);
      }
    }
    FindIs(s, sep, |piece|);
    assert s[..|piece|] == piece && s[|piece| + |sep|..] == tail;
  }

  /** `sep.join(pieces)`. */
  function Join(pieces: seq<string>, sep: string): string
    requires pieces != []
  {
    if |pieces| == 1 then pieces[0] else pieces[0] + sep + Join(pieces[1..], sep)
  }

  lemma JoinCons(piece: string, pieces: seq<string>, sep: string)
    requires pieces != []
    ensures Join([piece] + pieces, sep) == piece + sep + Join(pieces, sep)
  {
    assert ([piece] + pieces)[1..] == pieces;
  }

  lemma CutOut(s: string, sep: string, i: nat)
    requires At(s, sep, i)
    ensures s == s[..i] + sep + s[i + |sep|..]
  {
    assert s == s[..i] + s[i..i + |sep|] + s[i + |sep|..];
  }

  /** Joining the pieces at the separator gives the text back... */
  lemma {:induction false} SplitJoinRestores(s: string, sep: string)
    requires sep != ""
    ensures Join(Split(s, sep), sep) == s
    decreases |s|
  {
    var found := Find(s, sep);
    if found.Some? {
      var first, rest := s[..found.value], s[found.value + |sep|..];
      SplitJoinRestores(rest, sep);
      assert Split(s, sep) == [first] + Split(rest, sep);
      JoinCons(first, Split(rest, sep), sep);
      CutOut(s, sep, found.value);
    }
  }

  /** ... and no separator is left in a piece. */
  lemma {:induction false} SplitPieces(s: string, sep: string, k: nat)
    requires sep != "" && k < |Split(s, sep)|
    ensures !Contains(Split(s, sep)[k], sep)
    decreases |s|
  {
    var found := Find(s, sep);
    if found.Some? {
      var first, rest := s[..found.value], s[found.value + |sep|..];
      assert Split(s, sep) == [first] + Split(rest, sep);
      if k == 0 {
        forall i ensures !At(first, sep, i) {
          AtPrefix(s, found.value, sep, i);
        }
      } else {
        SplitPieces(rest, sep, k - 1);
      }
    }
  }

  // ---------------------------------------------------------------- filtering

  /** The elements to keep, in order. */
  function Filter<T>(s: seq<T>, keep: T -> bool): seq<T> {
    if s == [] then []
    else Filter(s[..|s| - 1], keep) + if keep(s[|s| - 1]) then [s[|s| - 1]] else []
  }

  lemma FilterNext<T>(s: seq<T>, keep: T -> bool, i: nat)
    requires i < |s|
    ensures Filter(s[..i + 1], keep) == Filter(s[..i], keep) + if keep(s[i]) then [s[i]] else []
  {
    assert s[..i + 1][..i] == s[..i];
  }

  /** Where the kept elements stand. */
  function Positions<T>(s: seq<T>, keep: T -> bool): (r: seq<nat>)
    ensures forall k :: 0 <= k < |r| ==> r[k] < |s|
  {
    if s == [] then []
    else Positions(s[..|s| - 1], keep) + if keep(s[|s| - 1]) then [|s| - 1] else []
  }

  lemma {:induction false} PositionsMap<T>(s: seq<T>, keep: T -> bool)
    ensures |Positions(s, keep)| == |Filter(s, keep)|
    ensures forall k :: 0 <= k < |Positions(s, keep)| ==> Filter(s, keep)[k] == s[Positions(s, keep)[k]]
  {
    if s != [] {
      PositionsMap(s[..|s| - 1], keep);
    }
  }

  lemma {:induction false} PositionsIncrease<T>(s: seq<T>, keep: T -> bool)
    ensures forall k, l :: 0 <= k < l < |Positions(s, keep)| ==> Positions(s, keep)[k] < Positions(s, keep)[l]
  {
    if s != [] {
      PositionsIncrease(s[..|s| - 1], keep);
    }
  }

  lemma {:induction false} PositionsExact<T>(s: seq<T>, keep: T -> bool, i: nat)
    ensures i in Positions(s, keep) <==> i < |s| && keep(s[i])
  {
    if s != [] {
      var n := |s| - 1;
      PositionsExact(s[..n], keep, i);
      var before, last := Positions(s[..n], keep), if keep(s[n]) then [n] else [];
      assert Positions(s, keep) == before + last;
      assert i in before + last <==> i in before || i in last;
    }
  }

  /** A filter keeps each element to keep once, at its own place in the order: `at` lists exactly their positions. */
  lemma FilterPositions<T>(s: seq<T>, keep: T -> bool) returns (at: seq<nat>)
    ensures |at| == |Filter(s, keep)|
    ensures forall k :: 0 <= k < |at| ==> at[k] < |s| && Filter(s, keep)[k] == s[at[k]]
    ensures forall k, l :: 0 <= k < l < |at| ==> at[k] < at[l]
    ensures forall i :: 0 <= i < |s| ==> (i in at <==> keep(s[i]))
  {
    at := Positions(s, keep);
    PositionsMap(s, keep);
    PositionsIncrease(s, keep);
    forall i | 0 <= i < |s| ensures i in at <==> keep(s[i]) {
      PositionsExact(s, keep, i);
    }
  }

  lemma FilterKeeps<T>(s: seq<T>, keep: T -> bool, k: nat)
    requires k < |Filter(s, keep)|
    ensures keep(Filter(s, keep)[k]) && Filter(s, keep)[k] in s
  {
    var at := FilterPositions(s, keep);
    assert at[k] in at;
  }

  // ---------------------------------------------------------------- numerals

  predicate IsDigit(c: char) {
    '0' <= c <= '9'
  }

  predicate AllDigits(s: string) {
    forall i :: 0 <= i < |s| ==> IsDigit(s[i])
  }

  /** `str(n)` of a non-negative integer. */
  function Decimal(n: nat): (r: string)
    ensures r != "" && AllDigits(r)
  {
    if n < 10 then ['0' + n as char] else Decimal(n / 10) + ['0' + (n % 10) as char]
  }

  ghost function Pow10(k: nat): nat {
    if k == 0 then 1 else 10 * Pow10(k - 1)
  }

  /** The number a run of digits denotes. */
  function DigitsValue(s: string): nat
    requires AllDigits(s)
  {
    if s == "" then 0 else DigitsValue(s[..|s| - 1]) * 10 + (s[|s| - 1] - '0') as nat
  }

  lemma {:induction false} DecimalValue(n: nat)
    ensures DigitsValue(Decimal(n)) == n
  {
    var s := Decimal(n);
    if n < 10 {
      assert s[..0] == "";
    } else {
      DecimalValue(n / 10);
      assert s[..|s| - 1] == Decimal(n / 10);
    }
  }
}
