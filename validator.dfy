/** validate_extraction: the two expected categories and the non-empty record count. */
module Validator {
  import opened Text
  import opened Parser

  datatype Validation = Validation(isValid: bool, warnings: seq<string>, errors: seq<string>)

  /** The category names a useful extraction is expected to mention. */
  const Required: seq<string> := ["Chief Complaint", "History of Present Illness"]

  const NoDataError := "No clinical data points extracted"

  function MissingWarning(req: string): string {
    "Missing expected category: " + req
  }

  /** `any(req.lower() in f.lower() for f in found)` */
  predicate Mentions(found: seq<string>, req: string) {
    exists i | 0 <= i < |found| :: Contains(Lower(found[i]), Lower(req))
  }

  /** One warning per required name that no found category mentions, in the order of `required`. */
  function MissingWarnings(required: seq<string>, found: seq<string>): seq<string> {
    if required == [] then []
    else
      var req := required[|required| - 1];
      MissingWarnings(required[..|required| - 1], found) + if Mentions(found, req) then [] else [MissingWarning(req)]
  }

  lemma {:induction false} MissingWarningsStep(required: seq<string>, found: seq<string>, i: nat)
    requires i < |required|
    ensures MissingWarnings(required[..i + 1], found)
         == MissingWarnings(required[..i], found) + if Mentions(found, required[i]) then [] else [MissingWarning(required[i])]
  {
    assert required[..i + 1][..i] == required[..i];
  }

  /** Warnings for different names differ. */
  lemma {:induction false} MissingWarningInjective(a: string, b: string)
    requires MissingWarning(a) == MissingWarning(b)
    ensures a == b
  {
    var n := |MissingWarning("")|;
    assert MissingWarning(a)[n..] == a;
    assert MissingWarning(b)[n..] == b;
  }

  /** Every unmentioned name has its warning, every warning is for an unmentioned name, and
      no name is warned about more often than it is required: one warning per required name. */
  lemma {:induction false} MissingWarningsExact(required: seq<string>, found: seq<string>)
    ensures |MissingWarnings(required, found)| <= |required|
    ensures forall j :: 0 <= j < |required| && !Mentions(found, required[j])
              ==> MissingWarning(required[j]) in MissingWarnings(required, found)
    ensures forall w :: w in MissingWarnings(required, found)
              ==> exists j :: 0 <= j < |required| && !Mentions(found, required[j]) && w == MissingWarning(required[j])
    ensures forall req :: multiset(MissingWarnings(required, found))[MissingWarning(req)] <= multiset(required)[req]
  {
    MissingWarningsCover(required, found);
    MissingWarningsOnce(required, found);
  }

  lemma {:induction false} MissingWarningsCover(required: seq<string>, found: seq<string>)
    ensures |MissingWarnings(required, found)| <= |required|
    ensures forall j :: 0 <= j < |required| && !Mentions(found, required[j])
              ==> MissingWarning(required[j]) in MissingWarnings(required, found)
    ensures forall w :: w in MissingWarnings(required, found)
              ==> exists j :: 0 <= j < |required| && !Mentions(found, required[j]) && w == MissingWarning(required[j])
    decreases |required|
  {
    if required != [] {
      var init := required[..|required| - 1];
      MissingWarningsCover(init, found);
      assert forall j :: 0 <= j < |init| ==> init[j] == required[j];
    }
  }

  lemma {:induction false} MissingWarningsOnce(required: seq<string>, found: seq<string>)
    ensures forall req :: multiset(MissingWarnings(required, found))[MissingWarning(req)] <= multiset(required)[req]
    decreases |required|
  {
    if required != [] {
      var init, last := required[..|required| - 1], required[|required| - 1];
      MissingWarningsOnce(init, found);
      var w0 := MissingWarnings(init, found);
      var tail := if Mentions(found, last) then [] else [MissingWarning(last)];
      assert MissingWarnings(required, found) == w0 + tail;
      assert required == init + [last];
      forall req ensures multiset(w0 + tail)[MissingWarning(req)] <= multiset(init + [last])[req] {
        assert multiset(w0 + tail) == multiset(w0) + multiset(tail);
        assert multiset(init + [last]) == multiset(init) + multiset{last};
        if tail != [] && MissingWarning(last) == MissingWarning(req) {
          MissingWarningInjective(last, req);
        }
      }
    }
  }

  /** What validate_extraction returns for `s`. */
  function Validated(s: Structured): (v: Validation)
    ensures v.isValid <==> s.summary.totalDataPoints != 0
    ensures v.errors == if v.isValid then [] else [NoDataError]
    ensures v.warnings == MissingWarnings(Required, Categories(s.categories))
  {
    var warnings := MissingWarnings(Required, Categories(s.categories));
    if s.summary.totalDataPoints == 0 then Validation(false, warnings, [NoDataError])
    else Validation(true, warnings, [])
  }

  /** validate_extraction: the loop over the required names, then the count check. */
  method ValidateExtraction(s: Structured) returns (v: Validation)
    ensures v == Validated(s)
  {
    v := Validation(true, [], []);
    var found := Categories(s.categories);
    v := CheckRequired(v, Required, found);
    ValidatedFrom(s, v.warnings);
    if s.summary.totalDataPoints == 0 {
      v := v.(isValid := false, errors := v.errors + [NoDataError]);
    }
  }

  /** Validated in terms of the warnings the loop collected. */
  lemma {:induction false} ValidatedFrom(s: Structured, w: seq<string>)
    requires w == MissingWarnings(Required, Categories(s.categories))
    ensures Validated(s) == if s.summary.totalDataPoints == 0 then Validation(false, w, [NoDataError]) else Validation(true, w, [])
  {
  }

  /** The loop of validate_extraction over the required names: one warning appended for each
      name no found category mentions. */
  method CheckRequired(v0: Validation, required: seq<string>, found: seq<string>) returns (v: Validation)
    ensures v == v0.(warnings := v0.warnings + MissingWarnings(required, found))
  {
    v := v0;
    for i := 0 to |required|
      invariant v == v0.(warnings := v0.warnings + MissingWarnings(required[..i], found))
    {
      var req := required[i];
      MissingWarningsStep(required, found, i);
      if !Mentions(found, req) {
        v := v.(warnings := v.warnings + [MissingWarning(req)]);
      }
    }
    assert required[..|required|] == required;
  }

  /** The two warnings, each present exactly when its name is not mentioned, in this order. */
  lemma {:induction false} WarningsForRequired(found: seq<string>)
    ensures MissingWarnings(Required, found)
         == (if Mentions(found, "Chief Complaint") then [] else [MissingWarning("Chief Complaint")])
          + (if Mentions(found, "History of Present Illness") then [] else [MissingWarning("History of Present Illness")])
  {
    WarningsForPair("Chief Complaint", "History of Present Illness", found);
  }

  lemma {:induction false} WarningsForPair(a: string, b: string, found: seq<string>)
    ensures MissingWarnings([a, b], found)
         == (if Mentions(found, a) then [] else [MissingWarning(a)])
          + (if Mentions(found, b) then [] else [MissingWarning(b)])
  {
    MissingWarningsStep([a, b], found, 0);
    MissingWarningsStep([a, b], found, 1);
    assert [a, b][..0] == [];
    assert [a, b][..2] == [a, b];
  }

  /** A category whose first characters are a required name, up to letter case, mentions it. */
  lemma {:induction false} StartsWithMentions(found: seq<string>, i: int, req: string)
    requires 0 <= i < |found| && |req| <= |found[i]|
    requires Lower(found[i][..|req|]) == Lower(req)
    ensures Mentions(found, req)
  {
    var f := Lower(found[i]);
    assert f[..|req|] == Lower(req) by {
      forall j | 0 <= j < |req| ensures f[j] == Lower(req)[j] {
        assert Lower(found[i][..|req|])[j] == LowerChar(found[i][j]);
      }
    }
    assert Occurs(f, Lower(req), 0);
  }

  /** The comparison ignores letter case: a category in capitals mentions the name. */
  lemma {:induction false} CapitalsMention()
    ensures Mentions(["CHIEF COMPLAINT"], "Chief Complaint")
  {
    var f, req := "CHIEF COMPLAINT", "Chief Complaint";
    assert forall j :: 0 <= j < |req| ==> LowerChar(f[j]) == LowerChar(req[j]);
    LeadsIgnoringCase([f], 0, req);
  }

  /** A category whose first characters lower-case to those of a required name mentions it. */
  lemma {:induction false} LeadsIgnoringCase(found: seq<string>, i: int, req: string)
    requires 0 <= i < |found| && |req| <= |found[i]|
    requires forall j :: 0 <= j < |req| ==> LowerChar(found[i][j]) == LowerChar(req[j])
    ensures Mentions(found, req)
  {
    assert Lower(found[i][..|req|]) == Lower(req);
    StartsWithMentions(found, i, req);
  }

  /** Validating a parsed reply: it is valid exactly when some record was parsed, and the
      error list is then empty. */
  lemma {:induction false} ValidOutputIffRecords(raw: string)
    ensures Validated(StructureOutput(raw)).isValid <==> StructureOutput(raw).categories != []
    ensures Validated(StructureOutput(raw)).isValid ==> Validated(StructureOutput(raw)).errors == []
  {
  }
}
