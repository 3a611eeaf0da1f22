/** The transcript cleaner and the prompt builder of the extraction service
    (`clean_transcript` and `generate_prompt`). */
module Transcript {
  import opened Text

  /** clean_transcript keeps at most this many characters. */
  const MaxLength := 50000

  /** The token of the prompt template that stands for the transcript. */
  const Placeholder := "{{TRANSCRIPT}}"

  /** The characters clean_transcript turns into (or keeps as) spaces. */
  predicate IsBlank(c: char) {
    c == ' ' || c == '\n' || c == '\r' || c == '\t'
  }

  /** Every blank character turned into a space, as
      `.replace("\n", " ").replace("\r", " ").replace("\t", " ")` does (BlankedIsThreeReplaces). */
  function Blanked(s: string): (r: string)
    ensures |r| == |s|
    ensures forall k {:trigger r[k]} :: 0 <= k < |s| ==> r[k] == if IsBlank(s[k]) then ' ' else s[k]
    ensures forall c :: c in r ==> c != '\n' && c != '\r' && c != '\t'
  {
    seq(|s|, k requires 0 <= k < |s| => if IsBlank(s[k]) then ' ' else s[k])
  }

  lemma {:induction false} BlankedIsThreeReplaces(s: string)
    ensures Blanked(s) == ReplaceAll(ReplaceAll(ReplaceAll(s, "\n", " "), "\r", " "), "\t", " ")
  {
    var a := ReplaceAll(s, "\n", " ");
    ReplaceOneChar(s, '\n', ' ');
    var b := ReplaceAll(a, "\r", " ");
    ReplaceOneChar(a, '\r', ' ');
    var c := ReplaceAll(b, "\t", " ");
    ReplaceOneChar(b, '\t', ' ');
    forall k | 0 <= k < |s| ensures c[k] == Blanked(s)[k] {
    }
  }

  /** `.replace("  ", " ")`: a single left-to-right pass that turns each pair of spaces
      into one space and does not rescan its output. HalveSpacesIsReplace shows it is
      the `ReplaceAll` of that pattern. */
  function HalveSpaces(s: string): string
    decreases |s|
  {
    if |s| < 2 then s
    else if s[0] == ' ' && s[1] == ' ' then " " + HalveSpaces(s[2..])
    else [s[0]] + HalveSpaces(s[1..])
  }

  /** The pass only shortens the text and brings in no character that was not there. */
  lemma {:induction false} HalveSpacesChars(s: string)
    ensures |HalveSpaces(s)| <= |s|
    ensures forall c :: c in HalveSpaces(s) ==> c in s
    decreases |s|
  {
    if |s| >= 2 {
      if s[0] == ' ' && s[1] == ' ' {
        HalveSpacesChars(s[2..]);
        assert forall c :: c in s[2..] ==> c in s;
      } else {
        HalveSpacesChars(s[1..]);
        assert forall c :: c in s[1..] ==> c in s;
      }
    }
  }

  lemma {:induction false} HalveSpacesIsReplace(s: string)
    ensures HalveSpaces(s) == ReplaceAll(s, "  ", " ")
    decreases |s|
  {
    if |s| >= 2 {
      if s[0] == ' ' && s[1] == ' ' {
        assert s[..2] == "  ";
        HalveSpacesIsReplace(s[2..]);
      } else {
        assert s[..2][0] == s[0] && s[..2][1] == s[1];
        HalveSpacesIsReplace(s[1..]);
      }
    }
  }

  /** `[:50000]` */
  function Cap(s: string): (r: string)
    ensures |r| == if |s| <= MaxLength then |s| else MaxLength
    ensures r == s[..|r|]
  {
    if |s| <= MaxLength then s else s[..MaxLength]
  }

  /** The cleaned transcript before the length cap. */
  function Normalized(t: string): string {
    HalveSpaces(Blanked(Strip(t)))
  }

  /** clean_transcript: strip, blank out line breaks and tabs, halve double spaces once,
      and keep the first 50 000 characters. */
  function CleanTranscript(t: string): (r: string)
    ensures |r| <= MaxLength
    ensures |r| == if |Normalized(t)| <= MaxLength then |Normalized(t)| else MaxLength
    ensures r == Normalized(t)[..|r|]
    ensures forall c :: c in r ==> c != '\n' && c != '\r' && c != '\t'
    ensures r == [] || !IsSpace(r[0])
  {
    var b := Blanked(Strip(t));
    HalveSpacesFirst(b);
    HalveSpacesChars(b);
    var h := HalveSpaces(b);
    var r := Cap(h);
    forall c | c in r ensures c != '\n' && c != '\r' && c != '\t' {
      var i :| 0 <= i < |r| && r[i] == c;
      assert h[i] == c;
      assert c in h;
      assert c in b;
    }
    r
  }

  lemma {:induction false} CleanIsCapped(t: string)
    ensures CleanTranscript(t) == Cap(Normalized(t))
  {
  }

  /** clean_transcript is the chain of `strip`, the four `replace` calls in the source's order
      and the slice `[:50000]`. */
  lemma {:induction false} CleanIsReplaceChain(t: string)
    ensures CleanTranscript(t)
         == Cap(ReplaceAll(ReplaceAll(ReplaceAll(ReplaceAll(Strip(t), "\n", " "), "\r", " "), "\t", " "), "  ", " "))
  {
    BlankedIsThreeReplaces(Strip(t));
    HalveSpacesIsReplace(Blanked(Strip(t)));
    CleanIsCapped(t);
  }

  /** The pass never touches a first character that is not a space. */
  lemma {:induction false} HalveSpacesFirst(s: string)
    ensures s != [] && s[0] != ' ' ==> HalveSpaces(s) != [] && HalveSpaces(s)[0] == s[0]
  {
  }

  /** One step of the pass where the text does not open with a pair of spaces. */
  lemma {:induction false} HalveNoPair(s: string)
    requires s != [] && !(|s| >= 2 && s[0] == ' ' && s[1] == ' ')
    ensures HalveSpaces(s) == [s[0]] + HalveSpaces(s[1..])
  {
    if |s| < 2 {
      assert s[1..] == [];
    }
  }

  /** A run of spaces carries no other character: it is Spaces of its length. */
  lemma {:induction false} AllSpaces(s: string)
    requires forall i :: 0 <= i < |s| ==> s[i] == ' '
    ensures s == Spaces(|s|)
  {
  }

  /** The first two spaces of a run become one. */
  lemma {:induction false} HalvePairOfRun(n: nat, y: string)
    requires n >= 2
    ensures HalveSpaces(Spaces(n) + y) == " " + HalveSpaces(Spaces(n - 2) + y)
  {
    var s := Spaces(n) + y;
    assert s[0] == ' ' && s[1] == ' ';
    DropAppend(Spaces(n), y, 2);
    AllSpaces(Spaces(n)[2..]);
  }

  /** Half of a run of at least two, rounded up, is one space more than half of the run less two. */
  lemma {:induction false} HalfRunStep(n: nat, z: string)
    requires n >= 2
    ensures Spaces((n + 1) / 2) + z == " " + (Spaces((n - 2 + 1) / 2) + z)
  {
    var k := (n + 1) / 2;
    assert k - 1 == (n - 2 + 1) / 2;
    assert Spaces(k) == " " + Spaces(k - 1);
    AppendAssoc(" ", Spaces(k - 1), z);
  }

  /** A single space before a non-space is kept. */
  lemma {:induction false} HalveLoneSpace(y: string)
    requires y == [] || y[0] != ' '
    ensures HalveSpaces(" " + y) == " " + HalveSpaces(y)
  {
    var s := " " + y;
    assert s[0] == ' ';
    assert s[1..] == y;
    HalveNoPair(s);
  }

  /** A run of n spaces followed by a non-space becomes ceil(n/2) spaces. */
  lemma {:induction false} HalveRun(n: nat, y: string)
    requires y == [] || y[0] != ' '
    ensures HalveSpaces(Spaces(n) + y) == Spaces((n + 1) / 2) + HalveSpaces(y)
  {
    if n >= 2 {
      HalvePairOfRun(n, y);
      HalveRun(n - 2, y);
      HalfRunStep(n, HalveSpaces(y));
    } else if n == 1 {
      assert Spaces(1) == " ";
      HalveLoneSpace(y);
    } else {
      assert Spaces(0) + y == y;
    }
  }

  /** Text that does not end in a space is halved on its own: no pair straddles the cut. */
  lemma {:induction false} HalveSplit(x: string, y: string)
    requires x == [] || x[|x| - 1] != ' '
    ensures HalveSpaces(x + y) == HalveSpaces(x) + HalveSpaces(y)
    decreases |x|
  {
    if x == [] {
      assert x + y == y;
    } else if |x| >= 2 && x[0] == ' ' && x[1] == ' ' {
      HalveSplit(x[2..], y);
      HalveSplitPair(x, y);
    } else {
      HalveSplit(x[1..], y);
      HalveSplitSingle(x, y);
    }
  }

  lemma {:induction false} HalveSplitPair(x: string, y: string)
    requires |x| >= 2 && x[0] == ' ' && x[1] == ' '
    requires HalveSpaces(x[2..] + y) == HalveSpaces(x[2..]) + HalveSpaces(y)
    ensures HalveSpaces(x + y) == HalveSpaces(x) + HalveSpaces(y)
  {
    var s := x + y;
    assert s[0] == ' ' && s[1] == ' ';
    DropAppend(x, y, 2);
    var hx, hy := HalveSpaces(x[2..]), HalveSpaces(y);
    assert HalveSpaces(s) == " " + (hx + hy);
    assert HalveSpaces(x) == " " + hx;
    AppendAssoc(" ", hx, hy);
  }

  lemma {:induction false} HalveSplitSingle(x: string, y: string)
    requires x != [] && x[|x| - 1] != ' '
    requires !(|x| >= 2 && x[0] == ' ' && x[1] == ' ')
    requires HalveSpaces(x[1..] + y) == HalveSpaces(x[1..]) + HalveSpaces(y)
    ensures HalveSpaces(x + y) == HalveSpaces(x) + HalveSpaces(y)
  {
    var s := x + y;
    assert s[0] == x[0];
    assert !(|s| >= 2 && s[0] == ' ' && s[1] == ' ') by {
      if |x| >= 2 {
        assert s[1] == x[1];
      }
    }
    HalveNoPair(s);
    HalveNoPair(x);
    DropAppend(x, y, 1);
    AppendAssoc([x[0]], HalveSpaces(x[1..]), HalveSpaces(y));
  }

  lemma {:induction false} BlankedAppend(x: string, y: string)
    ensures Blanked(x + y) == Blanked(x) + Blanked(y)
  {
    var l, r := Blanked(x + y), Blanked(x) + Blanked(y);
    forall k | 0 <= k < |x + y| ensures l[k] == r[k] {
      if k < |x| {
        assert (x + y)[k] == x[k];
      } else {
        assert (x + y)[k] == y[k - |x|];
      }
    }
  }

  /** An interior run of n blank characters (space, \n, \r, \t) becomes exactly
      ceil(n/2) spaces: runs are halved once, not collapsed to one space. The transcript may
      carry any whitespace at either end; `a + w + b` is what `strip` leaves of it. */
  lemma {:induction false} InteriorRunHalved(t: string, a: string, w: string, b: string)
    requires Strip(t) == a + w + b
    requires a != [] && !IsBlank(a[|a| - 1])
    requires b != [] && !IsBlank(b[0])
    requires forall k :: 0 <= k < |w| ==> IsBlank(w[k])
    ensures CleanTranscript(t)
         == Cap(HalveSpaces(Blanked(a)) + Spaces((|w| + 1) / 2) + HalveSpaces(Blanked(b)))
  {
    StrippedRunBlanked(t, a, w, b);
    BlankedEnds(a, b);
    CleanAroundRun(t, Blanked(a), |w|, Blanked(b));
  }

  lemma {:induction false} StrippedRunBlanked(t: string, a: string, w: string, b: string)
    requires Strip(t) == a + w + b
    requires forall k :: 0 <= k < |w| ==> IsBlank(w[k])
    ensures Blanked(Strip(t)) == Blanked(a) + (Spaces(|w|) + Blanked(b))
  {
    BlankedRun(a, w, b);
  }

  /** A transcript whose stripped and blanked text is x, a run of n spaces and y cleans to
      halved x, ceil(n/2) spaces and halved y, cut to 50 000 characters. */
  lemma {:induction false} CleanAroundRun(t: string, x: string, n: nat, y: string)
    requires Blanked(Strip(t)) == x + (Spaces(n) + y)
    requires x != [] && x[|x| - 1] != ' '
    requires y == [] || y[0] != ' '
    ensures CleanTranscript(t) == Cap(HalveSpaces(x) + Spaces((n + 1) / 2) + HalveSpaces(y))
  {
    HalveAroundRun(x, n, y);
    CleanIsCapped(t);
  }

  lemma {:induction false} BlankedEnds(a: string, b: string)
    requires a != [] && !IsBlank(a[|a| - 1])
    requires b != [] && !IsBlank(b[0])
    ensures Blanked(a) != [] && Blanked(a)[|Blanked(a)| - 1] != ' '
    ensures Blanked(b) != [] && Blanked(b)[0] != ' '
  {
  }

  /** Halving text with one run of spaces between two parts that do not touch it. */
  lemma {:induction false} HalveAroundRun(x: string, n: nat, y: string)
    requires x != [] && x[|x| - 1] != ' '
    requires y == [] || y[0] != ' '
    ensures HalveSpaces(x + (Spaces(n) + y)) == HalveSpaces(x) + Spaces((n + 1) / 2) + HalveSpaces(y)
  {
    HalveSplit(x, Spaces(n) + y);
    HalveRun(n, y);
    AppendAssoc(HalveSpaces(x), Spaces((n + 1) / 2), HalveSpaces(y));
  }

  lemma {:induction false} BlankedRun(a: string, w: string, b: string)
    requires forall k :: 0 <= k < |w| ==> IsBlank(w[k])
    ensures Blanked(a + w + b) == Blanked(a) + (Spaces(|w|) + Blanked(b))
  {
    assert Blanked(w) == Spaces(|w|);
    BlankedAppend(a + w, b);
    BlankedAppend(a, w);
    AppendAssoc(Blanked(a), Spaces(|w|), Blanked(b));
  }

  /** Worked case: four spaces between words become two, and cleaning again gives one,
      so cleaning is not idempotent. */
  lemma {:induction false} RunsHalvedNotCollapsed()
    ensures CleanTranscript("a    b") == "a  b"
    ensures CleanTranscript(CleanTranscript("a    b")) == "a b"
  {
    FourSpacesHalved();
    TwoSpacesHalved();
  }

  lemma {:induction false} FourSpacesHalved()
    ensures CleanTranscript("a    b") == "a  b"
  {
    var t := "a    b";
    assert Strip(t) == "a" + "    " + "b" by {
      StripTrimmed(t);
      assert "a" + "    " + "b" == t;
    }
    InteriorRunHalved(t, "a", "    ", "b");
    assert Cap(HalveSpaces(Blanked("a")) + Spaces((|"    "| + 1) / 2) + HalveSpaces(Blanked("b")))
        == "a  b" by {
      SingleLettersKept();
      assert Spaces((|"    "| + 1) / 2) == "  ";
    }
  }

  lemma {:induction false} TwoSpacesHalved()
    ensures CleanTranscript("a  b") == "a b"
  {
    var t := "a  b";
    assert Strip(t) == "a" + "  " + "b" by {
      StripTrimmed(t);
      assert "a" + "  " + "b" == t;
    }
    InteriorRunHalved(t, "a", "  ", "b");
    assert Cap(HalveSpaces(Blanked("a")) + Spaces((|"  "| + 1) / 2) + HalveSpaces(Blanked("b")))
        == "a b" by {
      SingleLettersKept();
      assert Spaces((|"  "| + 1) / 2) == " ";
    }
  }

  /** Worked case with whitespace at both ends: `" a  b\n"` cleans to `"a b"`. */
  lemma {:induction false} PaddedRunHalved()
    ensures CleanTranscript(" a  b\n") == "a b"
  {
    var t := " a  b\n";
    assert LeadingSpaces(t) == 1 by {
      assert LeadingSpaces(t[1..]) == 0;
    }
    var r := Strip(t);
    assert |r| == 4 by {
      assert 1 + |r| <= 6 && r == t[1..1 + |r|];
    }
    assert r == "a  b" by {
      assert r == t[1..5];
    }
    SingleLettersKept();
    assert "a" + "  " + "b" == r;
    InteriorRunHalved(t, "a", "  ", "b");
    assert "a" + Spaces(1) + "b" == "a b";
  }

  lemma {:induction false} SingleLettersKept()
    ensures HalveSpaces(Blanked("a")) == "a" && HalveSpaces(Blanked("b")) == "b"
  {
    assert Blanked("a") == "a" && Blanked("b") == "b";
  }

  /** A transcript made only of whitespace cleans to the empty string. */
  lemma {:induction false} WhitespaceOnlyCleansToEmpty(t: string)
    requires forall k :: 0 <= k < |t| ==> IsSpace(t[k])
    ensures CleanTranscript(t) == ""
  {

  }

  /** A long transcript with no whitespace at all is cut to exactly its first 50 000 characters. */
  lemma {:induction false} LongTranscriptTruncated(t: string)
    requires |t| >= MaxLength
    requires forall k :: 0 <= k < |t| ==> !IsSpace(t[k])
    ensures CleanTranscript(t) == t[..MaxLength]
  {
    StripTrimmed(t);
    assert Blanked(t) == t;
    forall k ensures !Occurs(t, "  ", k) {
      if 0 <= k && k + 2 <= |t| {
        assert t[k..k + 2][0] == t[k];
      }
    }
    ReplaceAllAbsent(t, "  ", " ");
    HalveSpacesIsReplace(t);
  }

  // ---------------------------------------------------------------------------
  // generate_prompt
  // ---------------------------------------------------------------------------

  /** generate_prompt: every `{{TRANSCRIPT}}` of the template replaced by the transcript. */
  function GeneratePrompt(template: string, transcript: string): (r: string)
    ensures forall c :: c in r ==> c in template || c in transcript
  {
    ReplaceAll(template, Placeholder, transcript)
  }

  /** A template without the placeholder is sent as it is, and the transcript is lost. */
  lemma {:induction false} PromptWithoutPlaceholder(template: string, transcript: string)
    requires forall k :: !Occurs(template, Placeholder, k)
    ensures GeneratePrompt(template, transcript) == template
  {
    ReplaceAllAbsent(template, Placeholder, transcript);
  }

  /** With exactly one placeholder, the transcript lands verbatim in its place, even when
      the transcript itself contains the placeholder text (the replacement is not rescanned). */
  lemma {:induction false} PromptSinglePlaceholder(a: string, b: string, transcript: string)
    requires forall k :: k != |a| ==> !Occurs(a + Placeholder + b, Placeholder, k)
    ensures GeneratePrompt(a + Placeholder + b, transcript) == a + transcript + b
  {
    var s := a + Placeholder + b;
    ReplaceAllFirst(a, Placeholder, b, transcript);
    forall k ensures !Occurs(b, Placeholder, k) {
      if Occurs(b, Placeholder, k) {
        assert s[|a| + |Placeholder| + k..|a| + |Placeholder| + k + |Placeholder|]
            == b[k..k + |Placeholder|];
        assert Occurs(s, Placeholder, |a| + |Placeholder| + k);
      }
    }
    ReplaceAllAbsent(b, Placeholder, transcript);
  }
}
