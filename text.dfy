/** Small string primitives with the semantics of the Python `str` methods the
    extraction service uses (`strip`, `rstrip`, `replace`, `splitlines`, `lower`,
    `in`), restricted to ASCII characters. */
module Text {

  datatype Option<+T> = None | Some(value: T)

  /** Python's `str.isspace` on ASCII: space, \t \n \v \f \r and the separators \x1c-\x1f. */
  predicate IsSpace(c: char) {
    c == ' ' || ('\t' <= c <= '\r') || ('\U{1C}' <= c <= '\U{1F}')
  }

  /** The ASCII line boundaries of Python's `str.splitlines`: \n \v \f \r and \x1c-\x1e. */
  predicate IsLineBreak(c: char) {
    ('\n' <= c <= '\r') || ('\U{1C}' <= c <= '\U{1E}')
  }

  predicate IsDigit(c: char) {
    '0' <= c <= '9'
  }

  function Spaces(n: nat): (r: string)
    ensures |r| == n && forall i :: 0 <= i < n ==> r[i] == ' '
  {
    if n == 0 then "" else " " + Spaces(n - 1)
  }

  lemma {:induction false} AppendAssoc<T>(x: seq<T>, y: seq<T>, z: seq<T>)
    ensures (x + y) + z == x + (y + z)
  {
  }

  lemma {:induction false} DropAppend<T>(x: seq<T>, y: seq<T>, k: nat)
    requires k <= |x|
    ensures (x + y)[k..] == x[k..] + y
  {
  }

  lemma {:induction false} Snoc<T>(s: seq<T>)
    requires s != []
    ensures s == s[..|s| - 1] + [s[|s| - 1]]
  {
  }

  // ---------------------------------------------------------------------------
  // strip / rstrip
  // ---------------------------------------------------------------------------

  /** The number of whitespace characters `s` starts with. */
  function LeadingSpaces(s: string): (n: nat)
    ensures n <= |s|
    ensures forall k :: 0 <= k < n ==> IsSpace(s[k])
    ensures n == |s| || !IsSpace(s[n])
  {
    if s != [] && IsSpace(s[0]) then 1 + LeadingSpaces(s[1..]) else 0
  }

  /** `s.lstrip()` */
  function TrimStart(s: string): string {
    s[LeadingSpaces(s)..]
  }

  /** The prefix of `s` left after dropping its trailing run of strippable characters:
      whitespace when `c` is `None` (`s.rstrip()`), the character `c` otherwise (`s.rstrip(c)`). */
  function TrimEndWith(s: string, c: Option<char>): (r: string)
    ensures |r| <= |s| && r == s[..|r|]
    ensures forall k :: |r| <= k < |s| ==> Strippable(s[k], c)
    ensures r == [] || !Strippable(r[|r| - 1], c)
  {
    if s != [] && Strippable(s[|s| - 1], c) then TrimEndWith(s[..|s| - 1], c) else s
  }

  predicate Strippable(x: char, c: Option<char>) {
    match c
    case None => IsSpace(x)
    case Some(y) => x == y
  }

  /** `s.strip()` */
  function Strip(s: string): (r: string)
    ensures LeadingSpaces(s) + |r| <= |s| && r == s[LeadingSpaces(s)..LeadingSpaces(s) + |r|]
    ensures forall k :: LeadingSpaces(s) + |r| <= k < |s| ==> IsSpace(s[k])
    ensures r == [] || (!IsSpace(r[0]) && !IsSpace(r[|r| - 1]))
  {
    TrimEndWith(TrimStart(s), None)
  }

  /** Text with neither leading nor trailing whitespace is left alone by `strip`. */
  lemma {:induction false} StripTrimmed(s: string)
    requires s != [] && !IsSpace(s[0]) && !IsSpace(s[|s| - 1])
    ensures Strip(s) == s
  {
    assert LeadingSpaces(s) == 0;
    assert TrimStart(s) == s;
  }

  lemma {:induction false} LeadingSpacesPadded(n: nat, t: string)
    requires t == [] || !IsSpace(t[0])
    ensures LeadingSpaces(Spaces(n) + t) == n
  {
    var s := Spaces(n) + t;
    assert forall k :: 0 <= k < n ==> s[k] == ' ';
    assert n < |s| ==> s[n] == t[0];
  }

  /** `strip` removes exactly the padding in front of trimmed text. */
  lemma {:induction false} StripPadded(n: nat, t: string)
    requires t != [] && !IsSpace(t[0]) && !IsSpace(t[|t| - 1])
    ensures Strip(Spaces(n) + t) == t
  {
    var s := Spaces(n) + t;
    LeadingSpacesPadded(n, t);
    var r := Strip(s);
    assert !IsSpace(s[|s| - 1]) by {
      assert s[|s| - 1] == t[|t| - 1];
    }
    assert n + |r| == |s|;
    assert s[n..] == t;
  }

  /** `rstrip(c)` */
  function TrimEndChar(s: string, c: char): (r: string)
    ensures |r| <= |s| && r == s[..|r|]
    ensures forall k :: |r| <= k < |s| ==> s[k] == c
    ensures r == [] || r[|r| - 1] != c
  {
    TrimEndWith(s, Some(c))
  }

  /** `rstrip(c)` removes exactly one final `c` from text that does not already end in `c`. */
  lemma {:induction false} TrimEndCharLast(x: string, c: char)
    requires x == [] || x[|x| - 1] != c
    ensures TrimEndChar(x + [c], c) == x
  {
    var r := TrimEndChar(x + [c], c);
    assert x != [] ==> (x + [c])[|x| - 1] == x[|x| - 1];
    assert r == (x + [c])[..|x|];
  }

  // ---------------------------------------------------------------------------
  // Occurrences, find, replace
  // ---------------------------------------------------------------------------

  /** `pat` occurs in `s` at index `k`. */
  predicate Occurs(s: string, pat: string, k: int) {
    0 <= k && k + |pat| <= |s| && s[k..k + |pat|] == pat
  }

  /** `pat in s` */
  predicate Contains(s: string, pat: string) {
    exists k | 0 <= k <= |s| - |pat| :: Occurs(s, pat, k)
  }

  /** `s.find(pat)` as an option: the first index where `pat` occurs. */
  function Find(s: string, pat: string): (r: Option<nat>)
    ensures r.Some? ==> Occurs(s, pat, r.value)
    ensures r.Some? ==> forall k :: 0 <= k < r.value ==> !Occurs(s, pat, k)
    ensures r.None? ==> forall k :: !Occurs(s, pat, k)
    decreases |s|
  {
    if |s| < |pat| then None
    else if s[..|pat|] == pat then Some(0)
    else
      OccursInTail(s, pat);
      match Find(s[1..], pat)
      case None => None
      case Some(j) => Some(j + 1)
  }

  /** Away from index 0, an occurrence in `s` is an occurrence in `s[1..]` one place earlier. */
  lemma {:induction false} OccursInTail(s: string, pat: string)
    requires s != []
    ensures forall k :: 0 < k ==> (Occurs(s, pat, k) <==> Occurs(s[1..], pat, k - 1))
  {
    forall k | 0 < k ensures Occurs(s, pat, k) <==> Occurs(s[1..], pat, k - 1) {
      if k + |pat| <= |s| {
        var a, b := s[k..k + |pat|], s[1..][k - 1..k - 1 + |pat|];
        forall j | 0 <= j < |pat| ensures a[j] == b[j] {
          assert b[j] == s[1..][k - 1 + j];
        }
        assert a == b;
      }
    }
  }

  /** `s.replace(pat, rep)`: one left-to-right pass replacing non-overlapping
      occurrences; the replacement text is never rescanned. */
  function ReplaceAll(s: string, pat: string, rep: string): (r: string)
    requires pat != []
    ensures forall c :: c in r ==> c in s || c in rep
    decreases |s|
  {
    if |s| < |pat| then s
    else if s[..|pat|] == pat then rep + ReplaceAll(s[|pat|..], pat, rep)
    else [s[0]] + ReplaceAll(s[1..], pat, rep)
  }

  /** Text with no occurrence of the pattern comes out of `replace` unchanged. */
  lemma {:induction false} ReplaceAllAbsent(s: string, pat: string, rep: string)
    requires pat != []
    requires forall k :: !Occurs(s, pat, k)
    ensures ReplaceAll(s, pat, rep) == s
    decreases |s|
  {
    if |s| >= |pat| {
      assert !Occurs(s, pat, 0);
      OccursInTail(s, pat);
      forall k ensures !Occurs(s[1..], pat, k) {
        assert !Occurs(s, pat, k + 1);
      }
      ReplaceAllAbsent(s[1..], pat, rep);
    }
  }

  /** When the first occurrence of the pattern in `a + pat + b` is the one after `a`, the
      text before it is copied, that occurrence is replaced, and the scan resumes after it. */
  lemma {:induction false} ReplaceAllFirst(a: string, pat: string, b: string, rep: string)
    requires pat != []
    requires forall k :: 0 <= k < |a| ==> !Occurs(a + pat + b, pat, k)
    ensures ReplaceAll(a + pat + b, pat, rep) == a + rep + ReplaceAll(b, pat, rep)
    decreases |a|
  {
    var s := a + pat + b;
    if a == [] {
      assert s == pat + b;
      assert s[..|pat|] == pat;
      assert s[|pat|..] == b;
    } else {
      assert !Occurs(s, pat, 0);
      assert s[..|pat|] != pat;
      var t := a[1..] + pat + b;
      assert s[1..] == t;
      forall k | 0 <= k < |a[1..]| ensures !Occurs(t, pat, k) {
        assert !Occurs(s, pat, k + 1);
        OccursInTail(s, pat);
      }
      ReplaceAllFirst(a[1..], pat, b, rep);
      assert ReplaceAll(s, pat, rep) == [a[0]] + ReplaceAll(t, pat, rep);
      assert a == [a[0]] + a[1..];
    }
  }

  /** `s.replace(c, d)` for single characters maps each position on its own. */
  lemma {:induction false} ReplaceOneChar(s: string, c: char, d: char)
    ensures |ReplaceAll(s, [c], [d])| == |s|
    ensures forall i :: 0 <= i < |s| ==> ReplaceAll(s, [c], [d])[i] == if s[i] == c then d else s[i]
    decreases |s|
  {
    if s != [] {
      ReplaceOneChar(s[1..], c, d);
      var tail := ReplaceAll(s[1..], [c], [d]);
      assert s[..1] == [c] <==> s[0] == c;
      assert ReplaceAll(s, [c], [d]) == [if s[0] == c then d else s[0]] + tail;
    }
  }

  // ---------------------------------------------------------------------------
  // splitlines
  // ---------------------------------------------------------------------------

  /** Index of the first line break in `s`, or `|s|` if there is none. */
  function LineEnd(s: string): (i: nat)
    ensures i <= |s|
    ensures forall k :: 0 <= k < i ==> !IsLineBreak(s[k])
    ensures i < |s| ==> IsLineBreak(s[i])
  {
    if s == [] || IsLineBreak(s[0]) then 0 else 1 + LineEnd(s[1..])
  }

  /** `s.splitlines()`: lines without their terminators; "\r\n" is one terminator and
      a final terminator does not open an empty last line. */
  function SplitLines(s: string): (lines: seq<string>)
    ensures forall l :: l in lines ==> forall k :: 0 <= k < |l| ==> !IsLineBreak(l[k])
    decreases |s|
  {
    if s == [] then []
    else
      var i := LineEnd(s);
      if i == |s| then [s]
      else if s[i] == '\r' && i + 1 < |s| && s[i + 1] == '\n' then [s[..i]] + SplitLines(s[i + 2..])
      else [s[..i]] + SplitLines(s[i + 1..])
  }

  /** Every line followed by "\n" (the shape of a multi-line literal ending in a newline). */
  function Terminated(lines: seq<string>): string {
    if lines == [] then "" else lines[0] + "\n" + Terminated(lines[1..])
  }

  predicate NoLineBreak(l: string) {
    forall k :: 0 <= k < |l| ==> !IsLineBreak(l[k])
  }

  predicate Avoids(s: string, c: char) {
    forall k :: 0 <= k < |s| ==> s[k] != c
  }

  lemma {:induction false} TerminatedAppend(a: seq<string>, b: seq<string>)
    ensures Terminated(a + b) == Terminated(a) + Terminated(b)
    decreases |a|
  {
    if a != [] {
      assert (a + b)[1..] == a[1..] + b;
      TerminatedAppend(a[1..], b);
    } else {
      assert a + b == b;
    }
  }

  /** Lines joined with newlines are split back into the same lines. */
  lemma {:induction false} SplitTerminated(lines: seq<string>)
    requires forall i :: 0 <= i < |lines| ==> NoLineBreak(lines[i])
    ensures SplitLines(Terminated(lines)) == lines
    decreases |lines|
  {
    if lines != [] {
      assert NoLineBreak(lines[0]);
      SplitFirstLine(lines[0], Terminated(lines[1..]));
      SplitTerminated(lines[1..]);
      assert lines == [lines[0]] + lines[1..];
    }
  }

  /** A line without breaks followed by "\n" is split off as the first line. */
  lemma {:induction false} SplitFirstLine(l: string, rest: string)
    requires NoLineBreak(l)
    ensures SplitLines(l + "\n" + rest) == [l] + SplitLines(rest)
  {
    var s := l + "\n" + rest;
    assert forall k :: 0 <= k < |l| ==> s[k] == l[k];
    assert s[|l|] == '\n';
    assert LineEnd(s) == |l|;
    assert s[..|l|] == l;
    assert s[|l| + 1..] == rest;
  }

  /** A line without breaks followed by any single break character, other than a "\r" that
      starts a "\r\n", is split off as the first line. */
  lemma {:induction false} SplitBreak(l: string, b: char, rest: string)
    requires NoLineBreak(l) && IsLineBreak(b)
    requires b != '\r' || rest == [] || rest[0] != '\n'
    ensures SplitLines(l + [b] + rest) == [l] + SplitLines(rest)
  {
    var s := l + [b] + rest;
    assert forall k :: 0 <= k < |l| ==> s[k] == l[k];
    assert s[|l|] == b;
    assert LineEnd(s) == |l|;
    assert s[..|l|] == l;
    assert s[|l| + 1..] == rest;
  }

  /** "\r\n" ends a line as one terminator: no empty line opens between the two. */
  lemma {:induction false} SplitCRLF(l: string, rest: string)
    requires NoLineBreak(l)
    ensures SplitLines(l + "\r\n" + rest) == [l] + SplitLines(rest)
  {
    var s := l + "\r\n" + rest;
    assert forall k :: 0 <= k < |l| ==> s[k] == l[k];
    assert s[|l|] == '\r' && s[|l| + 1] == '\n';
    assert LineEnd(s) == |l|;
    assert s[..|l|] == l;
    assert s[|l| + 2..] == rest;
  }

  /** A last line without a terminator is kept. */
  lemma {:induction false} SplitLast(l: string)
    requires l != [] && NoLineBreak(l)
    ensures SplitLines(l) == [l]
  {
    assert LineEnd(l) == |l|;
  }

  /** A character other than the newline that no line holds is not in the joined text. */
  lemma {:induction false} TerminatedAvoids(lines: seq<string>, c: char)
    requires c != '\n'
    requires forall i :: 0 <= i < |lines| ==> Avoids(lines[i], c)
    ensures Avoids(Terminated(lines), c)
    decreases |lines|
  {
    if lines != [] {
      TerminatedAvoids(lines[1..], c);
      var l, rest := lines[0], Terminated(lines[1..]);
      assert Avoids(l, c);
      forall k | 0 <= k < |l + "\n" + rest| ensures (l + "\n" + rest)[k] != c {
        if k < |l| {
          assert (l + "\n" + rest)[k] == l[k];
        } else if k > |l| {
          assert (l + "\n" + rest)[k] == rest[k - |l| - 1];
        }
      }
    }
  }

  // ---------------------------------------------------------------------------
  // lower
  // ---------------------------------------------------------------------------

  function LowerChar(c: char): char {
    if 'A' <= c <= 'Z' then (c as int + 32) as char else c
  }

  /** `s.lower()` on ASCII letters. */
  function Lower(s: string): (r: string)
    ensures |r| == |s| && forall i :: 0 <= i < |s| ==> r[i] == LowerChar(s[i])
  {
    if s == [] then [] else [LowerChar(s[0])] + Lower(s[1..])
  }
}
