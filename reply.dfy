/** The layout of a reply that structure_output understands: the start marker, one
    numbered block per record (a blank line, `N. category:` and one `   - detail` line per
    detail), a blank line and the end marker, each on its own line. The mock reply of the
    extraction service has exactly this layout. */
module Reply {
  import opened Text
  import opened Parser

  function Digit(d: nat): (c: char)
    requires d < 10
    ensures IsDigit(c)
  {
    ('0' as int + d) as char
  }

  /** The decimal numeral of `n`. */
  function Decimal(n: nat): (s: string)
    ensures s != [] && forall k :: 0 <= k < |s| ==> IsDigit(s[k])
  {
    if n < 10 then [Digit(n)] else Decimal(n / 10) + [Digit(n % 10)]
  }

  function HeaderLine(n: nat, category: string): string {
    Decimal(n) + ". " + category + ":"
  }

  function BulletLine(detail: string): string {
    "   - " + detail
  }

  function BulletLines(details: seq<string>): (lines: seq<string>)
    ensures |lines| == |details|
    ensures forall i :: 0 <= i < |details| ==> lines[i] == BulletLine(details[i])
  {
    if details == [] then []
    else BulletLines(details[..|details| - 1]) + [BulletLine(details[|details| - 1])]
  }

  /** The lines of the block of record `r` numbered `n`. */
  function Block(n: nat, r: Record): seq<string> {
    [""] + [HeaderLine(n, r.category)] + BulletLines(r.details)
  }

  /** The numbered blocks, the n-th record numbered n. */
  function BodyLines(records: seq<Record>): seq<string> {
    if records == [] then []
    else BodyLines(records[..|records| - 1]) + Block(|records|, records[|records| - 1])
  }

  lemma {:induction false} BodyLinesSnoc(records: seq<Record>, r: Record)
    ensures BodyLines(records + [r]) == BodyLines(records) + Block(|records| + 1, r)
  {
    assert (records + [r])[..|records|] == records;
  }

  function Layout(records: seq<Record>): seq<string> {
    [StartMarker] + BodyLines(records) + ["", EndMarker]
  }

  /** The reply text: the layout's lines, each ended by a newline. */
  function Render(records: seq<Record>): string {
    Terminated(Layout(records))
  }

  /** Text that survives a line of the layout unchanged through `splitlines`, `strip` and
      the section search. */
  predicate Inline(s: string) {
    NoLineBreak(s) && Avoids(s, '=')
  }

  /** A record the layout can carry: its category does not start with whitespace or end in
      a colon, and each detail is non-empty with no whitespace at either end. */
  predicate Renderable(r: Record) {
    && Inline(r.category)
    && (r.category == [] || (!IsSpace(r.category[0]) && r.category[|r.category| - 1] != ':'))
    && forall i :: 0 <= i < |r.details| ==> Plain(r.details[i])
  }

  predicate Plain(d: string) {
    Inline(d) && d != [] && !IsSpace(d[0]) && !IsSpace(d[|d| - 1])
  }

  // ---------------------------------------------------------------------------
  // The round trip
  // ---------------------------------------------------------------------------

  /** The content lines of the blocks: what `strip` leaves of the header and bullet lines. */
  function Content(records: seq<Record>): seq<string> {
    if records == [] then []
    else
      var last := records[|records| - 1];
      Content(records[..|records| - 1])
        + [HeaderLine(|records|, last.category)] + StrippedBullets(last.details)
  }

  function StrippedBullets(details: seq<string>): seq<string> {
    if details == [] then []
    else StrippedBullets(details[..|details| - 1]) + ["- " + details[|details| - 1]]
  }

  /** Rendering then parsing gives back the records, so the parser loses nothing the
      layout carries. */
  lemma {:induction false} RenderRoundTrip(records: seq<Record>)
    requires forall i :: 0 <= i < |records| ==> Renderable(records[i])
    ensures StructureOutput(Render(records)).categories == records
  {
    var body := BodyLines(records);
    var padded := [""] + body + [""];
    var section := Terminated(padded);
    RenderSplit(records);
    AppendAssoc(StartMarker + section, EndMarker, "\n");
    LayoutInline(records);
    PaddedInline(body);
    TerminatedAvoids(padded, '=');
    SectionBetweenMarkers(section, "\n");
    SplitTerminated(padded);
    NonBlankPadded(body);
    ContentOfBody(records);
    ScanContent(records);
  }

  lemma {:induction false} PaddedInline(lines: seq<string>)
    requires forall i :: 0 <= i < |lines| ==> Inline(lines[i])
    ensures forall i :: 0 <= i < |[""] + lines + [""]| ==> Inline(([""] + lines + [""])[i])
  {
    var padded := [""] + lines + [""];
    forall i | 0 <= i < |padded| ensures Inline(padded[i]) {
      if 0 < i < |padded| - 1 {
        assert padded[i] == lines[i - 1];
      }
    }
  }

  lemma {:induction false} RenderSplit(records: seq<Record>)
    ensures Render(records)
         == StartMarker + Terminated([""] + BodyLines(records) + [""]) + (EndMarker + "\n")
  {
    TerminatedFrame(StartMarker, BodyLines(records), EndMarker);
  }

  lemma {:induction false} TerminatedFrame(first: string, body: seq<string>, last: string)
    ensures Terminated([first] + body + ["", last])
         == first + Terminated([""] + body + [""]) + (last + "\n")
  {
    TerminatedAppend([first] + body, ["", last]);
    TerminatedAppend([first], body);
    TerminatedAppend([""] + body, [""]);
    TerminatedAppend([""], body);
    assert ["", last][1..] == [last];
    assert [last][1..] == [];
    assert [first][1..] == [];
    assert [""][1..] == [];
  }

  /** A marker-free text between the two markers is exactly the section that is found. */
  lemma {:induction false} SectionBetweenMarkers(t: string, tail: string)
    requires Avoids(t, '=')
    ensures MarkedSection(StartMarker + t + EndMarker + tail) == Some(t)
  {
    assert EndMarker[0] == '=';
    SectionBetween(StartMarker, t, EndMarker, tail);
  }

  /** Text that holds no first character of `end` is found whole between `start` and `end`. */
  lemma {:induction false} SectionBetween(start: string, t: string, end: string, tail: string)
    requires end != [] && Avoids(t, end[0])
    ensures FirstSection(start + t + end + tail, start, end) == Some(t)
  {
    var raw := start + t + end + tail;
    var p := |start|;
    assert raw == start + t + (end + tail);
    assert raw[..p] == start;
    assert Occurs(raw, start, 0);
    assert Find(raw, start) == Some(0);
    assert raw[p + |t|..p + |t| + |end|] == end;
    assert Occurs(raw, end, p + |t|);
    FirstSectionSpec(raw, start, end, 0);
    var r := FirstSection(raw, start, end);
    var m := |r.value|;
    OccursHead(raw, end, p + m);
    if m < |t| {
      InfixIndex(start, t, end + tail, m);
    }
    assert m == |t|;
    assert raw[p..p + |t|] == t;
  }

  lemma {:induction false} OccursHead(s: string, pat: string, k: int)
    requires pat != []
    ensures Occurs(s, pat, k) ==> s[k] == pat[0]
  {
    if Occurs(s, pat, k) {
      assert s[k..k + |pat|][0] == s[k];
    }
  }

  lemma {:induction false} InfixIndex(a: string, t: string, b: string, k: nat)
    requires k < |t|
    ensures (a + t + b)[|a| + k] == t[k]
  {
  }

  lemma {:induction false} LayoutInline(records: seq<Record>)
    requires forall i :: 0 <= i < |records| ==> Renderable(records[i])
    ensures forall i :: 0 <= i < |BodyLines(records)| ==> Inline(BodyLines(records)[i])
    decreases |records|
  {
    if records != [] {
      var init, last := records[..|records| - 1], records[|records| - 1];
      LayoutInline(init);
      assert Renderable(last);
      HeaderInline(|records|, last.category);
      BulletsInline(last.details);
      var block := Block(|records|, last);
      assert forall i :: 0 <= i < |block| ==> Inline(block[i]);
      assert BodyLines(records) == BodyLines(init) + block;
    }
  }

  lemma {:induction false} HeaderInline(n: nat, category: string)
    requires Inline(category)
    ensures Inline(HeaderLine(n, category))
  {
    var d := Decimal(n);
    var h := d + ". " + category + ":";
    forall k | 0 <= k < |h| ensures !IsLineBreak(h[k]) && h[k] != '=' {
      if k < |d| {
        assert h[k] == d[k];
      } else if |d| + 2 <= k < |d| + 2 + |category| {
        assert h[k] == category[k - |d| - 2];
      }
    }
  }

  lemma {:induction false} BulletsInline(details: seq<string>)
    requires forall i :: 0 <= i < |details| ==> Plain(details[i])
    ensures forall i :: 0 <= i < |BulletLines(details)| ==> Inline(BulletLines(details)[i])
    decreases |details|
  {
    if details != [] {
      var d := details[|details| - 1];
      BulletsInline(details[..|details| - 1]);
      assert Plain(d);
      var b := BulletLine(d);
      forall k | 0 <= k < |b| ensures !IsLineBreak(b[k]) && b[k] != '=' {
        if k >= 5 {
          assert b[k] == d[k - 5];
        }
      }
    }
  }

  lemma {:induction false} NonBlankPadded(lines: seq<string>)
    ensures NonBlank([""] + lines + [""]) == NonBlank(lines)
  {
    NonBlankAppend([""] + lines, [""]);
    NonBlankAppend([""], lines);
    assert NonBlank([""]) == [];
  }

  lemma {:induction false} ContentOfBody(records: seq<Record>)
    requires forall i :: 0 <= i < |records| ==> Renderable(records[i])
    ensures NonBlank(BodyLines(records)) == Content(records)
    decreases |records|
  {
    if records != [] {
      var init, last := records[..|records| - 1], records[|records| - 1];
      assert Renderable(last);
      assert forall i :: 0 <= i < |last.details| ==> Plain(last.details[i]);
      ContentOfBody(init);
      ContentOfBlock(BodyLines(init), |records|, last);
    }
  }

  lemma {:induction false} ContentOfBlock(a: seq<string>, n: nat, r: Record)
    requires forall i :: 0 <= i < |r.details| ==> EndsSolid(r.details[i])
    ensures NonBlank(a + Block(n, r)) == NonBlank(a) + [HeaderLine(n, r.category)] + StrippedBullets(r.details)
  {
    NonBlankAppend(a, Block(n, r));
    BlockContent(n, r);
    AppendAssoc(NonBlank(a), [HeaderLine(n, r.category)], StrippedBullets(r.details));
  }

  lemma {:induction false} BlockContent(n: nat, r: Record)
    requires forall i :: 0 <= i < |r.details| ==> EndsSolid(r.details[i])
    ensures NonBlank(Block(n, r)) == [HeaderLine(n, r.category)] + StrippedBullets(r.details)
  {
    var h, bl := HeaderLine(n, r.category), BulletLines(r.details);
    assert Block(n, r) == ([""] + [h]) + bl;
    NonBlankAppend([""] + [h], bl);
    assert NonBlank([""] + [h]) == [h] by {
      NonBlankAppend([""], [h]);
      BlankLineDropped();
      HeaderLineKept(n, r.category);
    }
    ContentOfBullets(r.details);
  }

  lemma {:induction false} BlankLineDropped()
    ensures NonBlank([""]) == []
  {
    assert Strip("") == "";
  }

  lemma {:induction false} HeaderLineKept(n: nat, category: string)
    ensures NonBlank([HeaderLine(n, category)]) == [HeaderLine(n, category)]
  {
    var h := HeaderLine(n, category);
    assert h[0] == Decimal(n)[0] && h[|h| - 1] == ':';
    StripTrimmed(h);
    assert [h][1..] == [];
  }

  lemma {:induction false} ContentOfBullets(details: seq<string>)
    requires forall i :: 0 <= i < |details| ==> EndsSolid(details[i])
    ensures NonBlank(BulletLines(details)) == StrippedBullets(details)
    decreases |details|
  {
    if details != [] {
      var init, d := details[..|details| - 1], details[|details| - 1];
      ContentOfBullets(init);
      assert EndsSolid(d);
      NonBlankAppend(BulletLines(init), [BulletLine(d)]);
      BulletLineKept(d);
    }
  }

  predicate EndsSolid(d: string) {
    d != [] && !IsSpace(d[|d| - 1])
  }

  lemma {:induction false} BulletLineKept(d: string)
    requires EndsSolid(d)
    ensures NonBlank([BulletLine(d)]) == ["- " + d]
  {
    var t := "- " + d;
    assert BulletLine(d) == Spaces(3) + t;
    StripPadded(3, t);
    assert [BulletLine(d)][1..] == [];
  }

  lemma {:induction false} ScanContent(records: seq<Record>)
    requires forall i :: 0 <= i < |records| ==> Renderable(records[i])
    ensures Scan(Content(records)) == records
    decreases |records|
  {
    if records != [] {
      var init, last := records[..|records| - 1], records[|records| - 1];
      ScanContent(init);
      assert Renderable(last);
      var h := HeaderLine(|records|, last.category);
      HeaderNameOfLine(|records|, last.category);
      var bullets := StrippedBullets(last.details);
      assert Content(records) == Content(init) + [h] + bullets;
      BulletTextsOfStripped(last.details);
      ScanBlock(Content(init), h, bullets);
      Snoc(records);
    }
  }

  /** The header line is recognised as a header and gives back the category. */
  lemma {:induction false} HeaderNameOfLine(n: nat, category: string)
    requires category == [] || (!IsSpace(category[0]) && category[|category| - 1] != ':')
    ensures IsHeader(HeaderLine(n, category)) && HeaderName(HeaderLine(n, category)) == category
  {
    var d := Decimal(n);
    var h := d + ". " + category + ":";
    assert forall k :: 0 <= k < |d| ==> h[k] == d[k];
    assert h[|d|] == '.';
    assert DigitRun(h) == |d|;
    assert h[|d| + 1..] == Spaces(1) + (category + ":");
    LeadingSpacesPadded(1, category + ":");
    assert TrimStart(h[|d| + 1..]) == category + ":";
    TrimEndCharLast(category, ':');
  }

  lemma {:induction false} BulletTextsOfStripped(details: seq<string>)
    requires forall i :: 0 <= i < |details| ==> Plain(details[i])
    ensures NoHeader(StrippedBullets(details))
    ensures BulletTexts(StrippedBullets(details)) == details
    decreases |details|
  {
    if details != [] {
      var init, d := details[..|details| - 1], details[|details| - 1];
      BulletTextsOfStripped(init);
      assert Plain(d);
      StrippedBullet(d);
      var all := StrippedBullets(details);
      assert all[..|all| - 1] == StrippedBullets(init);
      Snoc(details);
    }
  }

  /** A stripped bullet line is a bullet, not a header, and gives back its detail. */
  lemma {:induction false} StrippedBullet(d: string)
    requires d != [] && !IsSpace(d[0]) && !IsSpace(d[|d| - 1])
    ensures IsBullet("- " + d) && !IsHeader("- " + d) && BulletText("- " + d) == d
  {
    var b := "- " + d;
    assert DigitRun(b) == 0;
    assert b[1..] == Spaces(1) + d;
    StripPadded(1, d);
  }
}
