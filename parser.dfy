/** The reply parser of the extraction service: `structure_output`, which cuts the
    section between the two marker strings out of the provider's reply, and
    `parse_section`, which scans that section line by line into records. */
module Parser {
  import opened Text

  /** One numbered block of the reply: its category text and its bullet lines. */
  datatype Record = Record(category: string, details: seq<string>)

  /** The `summary` dictionary; `confidenceScore` is always None. */
  datatype Summary = Summary(totalDataPoints: nat, categoriesFound: seq<string>, confidenceScore: Option<real>)

  /** What structure_output returns. */
  datatype Structured = Structured(categories: seq<Record>, summary: Summary)

  const StartMarker := "=== CLINICAL DATA EXTRACTION ==="
  const EndMarker := "=== END OF EXTRACTION ==="

  function Categories(records: seq<Record>): (names: seq<string>)
    ensures |names| == |records|
    ensures forall i :: 0 <= i < |records| ==> names[i] == records[i].category
  {
    seq(|records|, i requires 0 <= i < |records| => records[i].category)
  }

  // ---------------------------------------------------------------------------
  // The line grammar
  // ---------------------------------------------------------------------------

  /** The number of ASCII digits `s` starts with. */
  function DigitRun(s: string): (n: nat)
    ensures n <= |s|
    ensures forall k :: 0 <= k < n ==> IsDigit(s[k])
    ensures n == |s| || !IsDigit(s[n])
  {
    if s != [] && IsDigit(s[0]) then 1 + DigitRun(s[1..]) else 0
  }

  /** `re.match(r"^\d+\.", line)`: one or more digits, then a dot. */
  predicate IsHeader(line: string) {
    0 < DigitRun(line) < |line| && line[DigitRun(line)] == '.'
  }

  /** `line.startswith("-")` */
  predicate IsBullet(line: string) {
    line != [] && line[0] == '-'
  }

  /** `r` is what is left of `line[p..]` once its leading whitespace and a trailing run of
      characters strippable by `c` are cut: a slice of `line` starting right after that
      whitespace, followed in `line` only by strippable characters. */
  predicate TrimmedSlice(line: string, p: nat, r: string, c: Option<char>)
    requires p <= |line|
  {
    var k := p + LeadingSpaces(line[p..]);
    && k + |r| <= |line|
    && r == line[k..k + |r|]
    && (forall j :: p <= j < k ==> IsSpace(line[j]))
    && (forall j :: k + |r| <= j < |line| ==> Strippable(line[j], c))
  }

  /** `re.sub(r"^\d+\.\s*", "", line).rstrip(":")`: the header without its number, the dot,
      the whitespace after the dot and every trailing colon. */
  function HeaderName(line: string): (name: string)
    requires IsHeader(line)
    ensures TrimmedSlice(line, DigitRun(line) + 1, name, Some(':'))
    ensures name == [] || (!IsSpace(name[0]) && name[|name| - 1] != ':')
  {
    var name := TrimEndChar(TrimStart(line[DigitRun(line) + 1..]), ':');
    HeaderNameSlice(line, DigitRun(line) + 1, name);
    name
  }

  lemma {:induction false} HeaderNameSlice(line: string, p: nat, name: string)
    requires p <= |line| && name == TrimEndChar(TrimStart(line[p..]), ':')
    ensures TrimmedSlice(line, p, name, Some(':'))
    ensures name == [] || (!IsSpace(name[0]) && name[|name| - 1] != ':')
  {
    var rest := line[p..];
    var i := LeadingSpaces(rest);
    var u := TrimStart(rest);
    assert u == rest[i..];
    CutSlices(line, p, name, Some(':'));
    if name != [] {
      assert name[0] == u[0] == rest[i];
    }
  }

  /** `line[1:].strip()`: a bullet without its dash and surrounding whitespace. */
  function BulletText(line: string): (text: string)
    requires line != []
    ensures TrimmedSlice(line, 1, text, None)
    ensures text == [] || (!IsSpace(text[0]) && !IsSpace(text[|text| - 1]))
  {
    var text := Strip(line[1..]);
    CutSlices(line, 1, text, None);
    text
  }

  /** Cutting `line[p..]` after its leading whitespace and before a trailing run of
      strippable characters leaves a slice of `line` itself. */
  lemma {:induction false} CutSlices(line: string, p: nat, r: string, c: Option<char>)
    requires p <= |line|
    requires var i := LeadingSpaces(line[p..]);
      && |r| <= |line[p..][i..]| && r == line[p..][i..][..|r|]
      && forall j :: |r| <= j < |line[p..][i..]| ==> Strippable(line[p..][i..][j], c)
    ensures TrimmedSlice(line, p, r, c)
  {
    var rest := line[p..];
    var i := LeadingSpaces(rest);
    forall j | p <= j < p + i ensures IsSpace(line[j]) {
      assert line[j] == rest[j - p];
    }
    forall j | p + i + |r| <= j < |line| ensures Strippable(line[j], c) {
      assert line[j] == rest[i..][j - p - i];
    }
  }

  /** `[l.strip() for l in lines if l.strip()]` */
  function NonBlank(lines: seq<string>): (kept: seq<string>)
    ensures |kept| <= |lines|
    ensures forall i :: 0 <= i < |kept| ==> TrimmedLine(kept[i])
    ensures kept == [] <==> forall i :: 0 <= i < |lines| ==> Strip(lines[i]) == []
  {
    if lines == [] then []
    else
      var s := Strip(lines[0]);
      var rest := NonBlank(lines[1..]);
      NonBlankCons(lines, s, rest);
      (if s != [] then [s] else []) + rest
  }

  /** A line as `strip` leaves it when it is not blank: non-empty, no whitespace at either end. */
  predicate TrimmedLine(l: string) {
    l != [] && !IsSpace(l[0]) && !IsSpace(l[|l| - 1])
  }

  lemma {:induction false} NonBlankCons(lines: seq<string>, s: string, rest: seq<string>)
    requires lines != [] && s == Strip(lines[0])
    requires |rest| <= |lines| - 1 && forall i :: 0 <= i < |rest| ==> TrimmedLine(rest[i])
    requires rest == [] <==> forall i :: 0 <= i < |lines[1..]| ==> Strip(lines[1..][i]) == []
    ensures var kept := (if s != [] then [s] else []) + rest;
            && |kept| <= |lines|
            && (forall i :: 0 <= i < |kept| ==> TrimmedLine(kept[i]))
            && (kept == [] <==> forall i :: 0 <= i < |lines| ==> Strip(lines[i]) == [])
  {
    var kept := (if s != [] then [s] else []) + rest;
    if s != [] {
      forall i | 0 <= i < |kept| ensures TrimmedLine(kept[i]) {
        if i == 0 {
          assert kept[0] == s;
        } else {
          assert kept[i] == rest[i - 1];
        }
      }
    } else {
      assert kept == rest;
    }
    NonBlankConsEmpty(lines, s, rest);
  }

  lemma {:induction false} NonBlankConsEmpty(lines: seq<string>, s: string, rest: seq<string>)
    requires lines != [] && s == Strip(lines[0])
    requires rest == [] <==> forall i :: 0 <= i < |lines[1..]| ==> Strip(lines[1..][i]) == []
    ensures (if s != [] then [s] else []) + rest == []
            <==> forall i :: 0 <= i < |lines| ==> Strip(lines[i]) == []
  {
    assert forall i :: 1 <= i < |lines| ==> lines[i] == lines[1..][i - 1];
  }

  /** The comprehension on one line: `l.strip()` when that is not empty, nothing otherwise. */
  lemma {:induction false} NonBlankSingle(l: string)
    ensures NonBlank([l]) == if Strip(l) == [] then [] else [Strip(l)]
  {
    assert [l][1..] == [];
  }

  /** The comprehension works line by line, in order: it distributes over concatenation. */
  lemma {:induction false} NonBlankAppend(a: seq<string>, b: seq<string>)
    ensures NonBlank(a + b) == NonBlank(a) + NonBlank(b)
    decreases |a|
  {
    if a == [] {
      assert a + b == b;
    } else {
      var h := if Strip(a[0]) != [] then [Strip(a[0])] else [];
      assert (a + b)[0] == a[0];
      DropAppend(a, b, 1);
      NonBlankAppend(a[1..], b);
      AppendAssoc(h, NonBlank(a[1..]), NonBlank(b));
    }
  }

  /** The lines parse_section scans. */
  function ContentLines(section: string): seq<string> {
    NonBlank(SplitLines(section))
  }

  // ---------------------------------------------------------------------------
  // parse_section
  // ---------------------------------------------------------------------------

  /** The records built from `lines`: scanning keeps the record under construction as the
      last one, so a header appends a fresh record and a bullet extends the last one. */
  function Scan(lines: seq<string>): seq<Record>
    decreases |lines|
  {
    if lines == [] then [] else Step(Scan(lines[..|lines| - 1]), lines[|lines| - 1])
  }

  lemma {:induction false} ScanSnoc(lines: seq<string>, line: string)
    ensures Scan(lines + [line]) == Step(Scan(lines), line)
  {
    assert (lines + [line])[..|lines|] == lines;
  }

  lemma {:induction false} ScanPrefix(lines: seq<string>, i: nat)
    requires i < |lines|
    ensures Scan(lines[..i + 1]) == Step(Scan(lines[..i]), lines[i])
  {
    assert lines[..i + 1][..i] == lines[..i];
  }

  function Step(records: seq<Record>, line: string): seq<Record> {
    if IsHeader(line) then
      records + [Record(HeaderName(line), [])]
    else if IsBullet(line) && records != [] then
      var last := records[|records| - 1];
      records[..|records| - 1] + [last.(details := last.details + [BulletText(line)])]
    else
      records
  }

  function Pending(current: Option<Record>): seq<Record> {
    if current.Some? then [current.value] else []
  }

  /** parse_section: split the section into its stripped non-blank lines and scan them. */
  method ParseSection(section: string) returns (records: seq<Record>)
    ensures records == Scan(ContentLines(section))
  {
    records := ScanLines(ContentLines(section));
  }

  /** The loop of parse_section over the content lines, with the `current_item` cursor. */
  method ScanLines(lines: seq<string>) returns (records: seq<Record>)
    ensures records == Scan(lines)
  {
    var dataPoints: seq<Record> := [];
    var current: Option<Record> := None;
    for i := 0 to |lines|
      invariant current.None? ==> dataPoints == []
      invariant Scan(lines[..i]) == dataPoints + Pending(current)
    {
      var line := lines[i];
      ScanPrefix(lines, i);
      StepOnCursor(dataPoints, current, line);
      if IsHeader(line) {
        if current.Some? {
          dataPoints := dataPoints + [current.value];
        }
        current := Some(Record(HeaderName(line), []));
      } else if IsBullet(line) && current.Some? {
        var item := current.value;
        current := Some(item.(details := item.details + [BulletText(line)]));
      }
    }
    if current.Some? {
      dataPoints := dataPoints + [current.value];
    }
    assert lines[..|lines|] == lines;
    records := dataPoints;
  }

  /** One step of the scan seen through the loop's cursor: the finished records `done`
      followed by the record under construction, if any. */
  lemma {:induction false} StepOnCursor(done: seq<Record>, current: Option<Record>, line: string)
    requires current.None? ==> done == []
    ensures IsHeader(line) ==>
      Step(done + Pending(current), line) == done + Pending(current) + [Record(HeaderName(line), [])]
    ensures !IsHeader(line) && IsBullet(line) && current.Some? ==>
      Step(done + Pending(current), line)
        == done + [current.value.(details := current.value.details + [BulletText(line)])]
    ensures !IsHeader(line) && !(IsBullet(line) && current.Some?) ==>
      Step(done + Pending(current), line) == done + Pending(current)
  {
    var before := done + Pending(current);
    if !IsHeader(line) && IsBullet(line) && current.Some? {
      assert before[..|before| - 1] == done;
      assert before[|before| - 1] == current.value;
    }
  }

  // ---------------------------------------------------------------------------
  // What a scan produces
  // ---------------------------------------------------------------------------

  /** The names of the header lines, in order. */
  function HeaderNames(lines: seq<string>): seq<string> {
    if lines == [] then []
    else
      var last := lines[|lines| - 1];
      HeaderNames(lines[..|lines| - 1]) + (if IsHeader(last) then [HeaderName(last)] else [])
  }

  /** The texts of the bullet lines, in order. */
  function BulletTexts(lines: seq<string>): seq<string> {
    if lines == [] then []
    else
      var last := lines[|lines| - 1];
      BulletTexts(lines[..|lines| - 1]) + (if IsBullet(last) then [BulletText(last)] else [])
  }

  predicate NoHeader(lines: seq<string>) {
    forall i :: 0 <= i < |lines| ==> !IsHeader(lines[i])
  }

  /** Exactly one record per header line, in line order, named after it; equal names give
      separate records. */
  lemma {:induction false} ScanCategories(lines: seq<string>)
    ensures Categories(Scan(lines)) == HeaderNames(lines)
    decreases |lines|
  {
    if lines != [] {
      var init, last := lines[..|lines| - 1], lines[|lines| - 1];
      ScanCategories(init);
      var rs := Scan(init);
      if IsHeader(last) {
        CategoriesSnoc(rs, Record(HeaderName(last), []));
      } else if IsBullet(last) && rs != [] {
        var r := rs[|rs| - 1];
        Snoc(rs);
        CategoriesSnoc(rs[..|rs| - 1], r);
        CategoriesSnoc(rs[..|rs| - 1], r.(details := r.details + [BulletText(last)]));
      }
    }
  }

  lemma {:induction false} CategoriesSnoc(records: seq<Record>, r: Record)
    ensures Categories(records + [r]) == Categories(records) + [r.category]
  {
    var l, m := Categories(records + [r]), Categories(records) + [r.category];
    assert |l| == |m|;
    forall i | 0 <= i < |l| ensures l[i] == m[i] {
      if i < |records| {
        assert (records + [r])[i] == records[i];
      }
    }
  }

  /** A line that is not a header leaves every record but the last alone. */
  lemma {:induction false} StepExtends(records: seq<Record>, r: Record, line: string)
    requires !IsHeader(line)
    ensures Step(records + [r], line)
         == records + [r.(details := r.details + if IsBullet(line) then [BulletText(line)] else [])]
  {
    assert (records + [r])[..|records|] == records;
    assert r.details + [] == r.details;
  }

  /** A header followed by lines without headers makes one record whose details are the
      texts of those lines that are bullets, in order. */
  lemma {:induction false} ScanBlock(pre: seq<string>, h: string, body: seq<string>)
    requires IsHeader(h) && NoHeader(body)
    ensures Scan(pre + [h] + body) == Scan(pre) + [Record(HeaderName(h), BulletTexts(body))]
    decreases |body|
  {
    if body == [] {
      assert pre + [h] + body == pre + [h];
      ScanSnoc(pre, h);
    } else {
      var init, y := body[..|body| - 1], body[|body| - 1];
      assert Scan(pre + [h] + body) == Step(Scan(pre + [h] + init), y) by {
        assert pre + [h] + body == (pre + [h] + init) + [y];
        ScanSnoc(pre + [h] + init, y);
      }
      ScanBlock(pre, h, init);
      assert !IsHeader(y);
      StepExtends(Scan(pre), Record(HeaderName(h), BulletTexts(init)), y);
    }
  }

  /** Lines without any header give no records: bullets before the first header are dropped. */
  lemma {:induction false} ScanNoHeader(lines: seq<string>)
    requires NoHeader(lines)
    ensures Scan(lines) == []
    decreases |lines|
  {
    if lines != [] {
      ScanNoHeader(lines[..|lines| - 1]);
      assert !IsHeader(lines[|lines| - 1]);
    }
  }

  /** A line that is neither a header nor a bullet has no effect, and neither has a bullet
      that comes before every header. */
  lemma {:induction false} ScanIgnores(a: seq<string>, x: string, b: seq<string>)
    requires !IsHeader(x)
    requires !IsBullet(x) || NoHeader(a)
    ensures Scan(a + [x] + b) == Scan(a + b)
  {
    IgnoredLast(a, x);
    ScanSameSuffix(a + [x], a, b);
  }

  /** Lines that scan alike still scan alike after the same lines are added. */
  lemma {:induction false} ScanSameSuffix(l1: seq<string>, l2: seq<string>, b: seq<string>)
    requires Scan(l1) == Scan(l2)
    ensures Scan(l1 + b) == Scan(l2 + b)
    decreases |b|
  {
    if b == [] {
      assert l1 + b == l1 && l2 + b == l2;
    } else {
      var y, rest := b[0], b[1..];
      ScanSnocBoth(l1, l2, y);
      ScanSameSuffix(l1 + [y], l2 + [y], rest);
      assert b == [y] + rest;
      AppendAssoc(l1, [y], rest);
      AppendAssoc(l2, [y], rest);
    }
  }

  lemma {:induction false} IgnoredLast(a: seq<string>, x: string)
    requires !IsHeader(x)
    requires !IsBullet(x) || NoHeader(a)
    ensures Scan(a + [x]) == Scan(a)
  {
    ScanSnoc(a, x);
    if IsBullet(x) {
      ScanNoHeader(a);
    }
  }

  lemma {:induction false} ScanSnocBoth(l1: seq<string>, l2: seq<string>, y: string)
    requires Scan(l1) == Scan(l2)
    ensures Scan(l1 + [y]) == Scan(l2 + [y])
  {
    ScanSnoc(l1, y);
    ScanSnoc(l2, y);
  }

  // ---------------------------------------------------------------------------
  // structure_output
  // ---------------------------------------------------------------------------

  lemma {:induction false} OccursInSuffix(s: string, pat: string, p: nat)
    requires p <= |s|
    ensures forall j :: Occurs(s[p..], pat, j) <==> j >= 0 && Occurs(s, pat, p + j)
  {
    forall j ensures Occurs(s[p..], pat, j) <==> j >= 0 && Occurs(s, pat, p + j) {
      if 0 <= j && p + j + |pat| <= |s| {
        assert s[p..][j..j + |pat|] == s[p + j..p + j + |pat|];
      }
    }
  }

  /** The group captured by `re.search(r"=== CLINICAL DATA EXTRACTION ===([\s\S]*?)=== END OF
      EXTRACTION ===", raw)`: the text after the first start marker up to the first end
      marker after it (FirstSectionSpec). A later start marker cannot help when the first one
      has no end marker after it (SectionFoundIfAnyPair), so this is the leftmost match. */
  function MarkedSection(raw: string): Option<string> {
    FirstSection(raw, StartMarker, EndMarker)
  }

  function FirstSection(raw: string, start: string, end: string): Option<string> {
    match Find(raw, start)
    case None => None
    case Some(s) => SectionFrom(raw, s + |start|, end)
  }

  /** Without a `start` there is no section. */
  lemma {:induction false} FirstSectionNeedsStart(raw: string, start: string, end: string)
    ensures Find(raw, start).None? ==> FirstSection(raw, start, end).None?
  {
  }

  /** Some `end` occurs at or after `p`. */
  ghost predicate EndFollows(raw: string, end: string, p: int) {
    exists q :: p <= q && Occurs(raw, end, q)
  }

  /** `t` is the text of `raw` from `p` up to the first `end` at or after `p`. */
  predicate UpToFirst(raw: string, end: string, p: nat, t: string) {
    && p + |t| <= |raw|
    && t == raw[p..p + |t|]
    && Occurs(raw, end, p + |t|)
    && forall q :: p <= q < p + |t| ==> !Occurs(raw, end, q)
  }

  /** Once the first `start` is found at `s`, there is a section exactly when an `end`
      follows it, and the section runs from there to the first such `end`. */
  lemma {:induction false} FirstSectionSpec(raw: string, start: string, end: string, s: nat)
    requires Find(raw, start) == Some(s)
    ensures s + |start| <= |raw|
    ensures FirstSection(raw, start, end).Some? <==> EndFollows(raw, end, s + |start|)
    ensures FirstSection(raw, start, end).Some? ==> UpToFirst(raw, end, s + |start|, FirstSection(raw, start, end).value)
  {
    FirstSectionFrom(raw, start, end, s);
    SectionFromSpec(SectionFrom(raw, s + |start|, end), raw, end, s + |start|);
  }

  /** What SectionAfter says, for any value known to be the section from `p`. */
  lemma {:induction false} SectionFromSpec(r: Option<string>, raw: string, end: string, p: nat)
    requires p <= |raw| && r == SectionFrom(raw, p, end)
    ensures r.Some? <==> EndFollows(raw, end, p)
    ensures r.Some? ==> UpToFirst(raw, end, p, r.value)
  {
    SectionAfter(raw, p, end);
  }

  lemma {:induction false} FirstSectionFrom(raw: string, start: string, end: string, s: nat)
    requires Find(raw, start) == Some(s)
    ensures s + |start| <= |raw|
    ensures FirstSection(raw, start, end) == SectionFrom(raw, s + |start|, end)
  {
    assert Occurs(raw, start, s);
  }

  /** The section once the start marker has been found: up to the first `end` from `p` on. */
  function SectionFrom(raw: string, p: nat, end: string): Option<string>
    requires p <= |raw|
  {
    match Find(raw[p..], end)
    case None => None
    case Some(e) => Some(raw[p..][..e])
  }

  lemma {:induction false} SectionAfter(raw: string, p: nat, end: string)
    requires p <= |raw|
    ensures SectionFrom(raw, p, end).Some? <==> EndFollows(raw, end, p)
    ensures SectionFrom(raw, p, end).Some? ==> UpToFirst(raw, end, p, SectionFrom(raw, p, end).value)
  {
    FindAfter(raw, end, p);
    if Find(raw[p..], end).Some? {
      assert Occurs(raw, end, p + Find(raw[p..], end).value);
    }
  }

  /** Searching the suffix from `p` finds the first occurrence at or after `p`. */
  lemma {:induction false} FindAfter(raw: string, pat: string, p: nat)
    requires p <= |raw|
    ensures Find(raw[p..], pat).None? ==> forall q :: p <= q ==> !Occurs(raw, pat, q)
    ensures Find(raw[p..], pat).Some? ==>
      var e := Find(raw[p..], pat).value;
      && p + e <= |raw|
      && raw[p..][..e] == raw[p..p + e]
      && Occurs(raw, pat, p + e)
      && forall q :: p <= q < p + e ==> !Occurs(raw, pat, q)
  {
    match Find(raw[p..], pat)
    case None => NoneAfter(raw, pat, p);
    case Some(e) => FirstAfter(raw, pat, p, e);
  }

  lemma {:induction false} NoneAfter(raw: string, pat: string, p: nat)
    requires p <= |raw| && Find(raw[p..], pat).None?
    ensures forall q :: p <= q ==> !Occurs(raw, pat, q)
  {
    OccursInSuffix(raw, pat, p);
    forall q | p <= q ensures !Occurs(raw, pat, q) {
      assert !Occurs(raw[p..], pat, q - p);
    }
  }

  lemma {:induction false} FirstAfter(raw: string, pat: string, p: nat, e: nat)
    requires p <= |raw| && Find(raw[p..], pat) == Some(e)
    ensures p + e <= |raw|
    ensures raw[p..][..e] == raw[p..p + e]
    ensures Occurs(raw, pat, p + e)
    ensures forall q :: p <= q < p + e ==> !Occurs(raw, pat, q)
  {
    OccursInSuffix(raw, pat, p);
    assert Occurs(raw[p..], pat, e);
    forall q | p <= q < p + e ensures !Occurs(raw, pat, q) {
      assert !Occurs(raw[p..], pat, q - p);
    }
  }

  lemma {:induction false} SectionFoundIfAnyPair(raw: string, p: int, q: int)
    requires Occurs(raw, StartMarker, p) && Occurs(raw, EndMarker, q) && p + |StartMarker| <= q
    ensures MarkedSection(raw).Some?
  {
    var first := Find(raw, StartMarker).value;
    FirstSectionSpec(raw, StartMarker, EndMarker, first);
    assert first + |StartMarker| <= q;
  }

  /** structure_output */
  function StructureOutput(raw: string): (r: Structured)
    ensures r.summary.totalDataPoints == |r.categories|
    ensures r.summary.categoriesFound == Categories(r.categories)
    ensures r.summary.confidenceScore == None
    ensures MarkedSection(raw).None? ==> r.categories == []
    ensures MarkedSection(raw).Some? ==> r.categories == Scan(ContentLines(MarkedSection(raw).value))
  {
    var categories := match MarkedSection(raw)
      case None => []
      case Some(section) => Scan(ContentLines(section));
    Structured(categories, Summary(|categories|, Categories(categories), None))
  }
}
