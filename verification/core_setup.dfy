/** The interactive project wizard: URL normalisation, the DPIA screening
    (nine high-risk criteria), and the Legitimate Interest Assessment tests
    whose answers are recorded in the compliance YAML document. Terminal
    input is the sequence of lines typed; the document is the loaded YAML. */
module CoreSetup {
  import opened Wrappers
  import opened Strings
  import opened Yaml
  import opened Answers
  import opened ComplianceFile

  // ---------------------------------------------------------------------------
  // URLs
  // ---------------------------------------------------------------------------

  const DefaultScheme := "https"

  /** `normalize_url(raw, default_scheme)`: prefixes the scheme when the URL
      has none. */
  function NormalizeUrl(raw: string, scheme: string): (r: string)
    ensures Contains(r, "://")
    ensures Contains(raw, "://") ==> r == raw
    ensures !Contains(raw, "://") ==> r == scheme + "://" + raw
  {
    if Contains(raw, "://") then raw
    else
      var r := scheme + "://" + raw;
      assert OccursAt(r, "://", |scheme|) by {
        assert r[|scheme|..|scheme| + 3] == "://";
      }
      r
  }

  /** Normalising a normalised URL changes nothing, whatever the scheme. */
  lemma NormalizeUrlIdempotent(raw: string, scheme: string, scheme2: string)
    ensures NormalizeUrl(NormalizeUrl(raw, scheme), scheme2) == NormalizeUrl(raw, scheme)
  {
  }

  // ---------------------------------------------------------------------------
  // DPIA screening
  // ---------------------------------------------------------------------------

  /** The nine high-risk criteria, in the order they are asked. */
  const Criteria: seq<string> := [
    "evaluation_scoring", "automated_decisions", "systematic_monitoring",
    "sensitive_or_special", "large_scale", "matching_combining",
    "vulnerable_subjects", "innovative_use", "rights_prevention"
  ]

  /** Either of these alone requires a DPIA. */
  const HardTriggers: set<string> := {"automated_decisions", "systematic_monitoring"}

  /** `ans.strip().lower() in ("y", "yes")` */
  predicate IsYes(reply: string) {
    var a := Lower(Strip(reply));
    a == "y" || a == "yes"
  }

  /** The criteria answered yes, in question order. */
  function Flagged(criteria: seq<string>, replies: seq<string>): seq<string>
    requires |criteria| == |replies|
    decreases |criteria|
  {
    if criteria == [] then []
    else
      var n := |criteria| - 1;
      Flagged(criteria[..n], replies[..n]) + (if IsYes(replies[n]) then [criteria[n]] else [])
  }

  /** `needs_dpia`: a hard trigger is flagged, or two criteria are. */
  function NeedsDpia(flagged: seq<string>): (r: bool)
    ensures r <==> "automated_decisions" in flagged || "systematic_monitoring" in flagged || |flagged| >= 2
  {
    var flaggedSet := set k | k in flagged;
    assert "automated_decisions" in flagged ==> "automated_decisions" in HardTriggers * flaggedSet;
    assert "systematic_monitoring" in flagged ==> "systematic_monitoring" in HardTriggers * flaggedSet;
    HardTriggers * flaggedSet != {} || |flagged| >= 2
  }

  /** Some occurrence of `k` among the criteria got a yes. */
  predicate AnsweredYes(criteria: seq<string>, replies: seq<string>, k: string)
    requires |criteria| == |replies|
  {
    exists i :: 0 <= i < |criteria| && criteria[i] == k && IsYes(replies[i])
  }

  /** Splitting off the last criterion. */
  lemma AnsweredYesSnoc(criteria: seq<string>, replies: seq<string>, k: string)
    requires |criteria| == |replies| && criteria != []
    ensures var n := |criteria| - 1;
      AnsweredYes(criteria, replies, k)
      <==> AnsweredYes(criteria[..n], replies[..n], k) || (criteria[n] == k && IsYes(replies[n]))
  {
    var n := |criteria| - 1;
    if AnsweredYes(criteria, replies, k) {
      var i :| 0 <= i < |criteria| && criteria[i] == k && IsYes(replies[i]);
      if i < n {
        YesInPrefix(criteria, replies, k, i);
      }
    }
    if AnsweredYes(criteria[..n], replies[..n], k) {
      YesFromPrefix(criteria, replies, k);
    }
  }

  lemma YesInPrefix(criteria: seq<string>, replies: seq<string>, k: string, i: nat)
    requires |criteria| == |replies| && i < |criteria| - 1
    requires criteria[i] == k && IsYes(replies[i])
    ensures AnsweredYes(criteria[..|criteria| - 1], replies[..|criteria| - 1], k)
  {
    var n := |criteria| - 1;
    assert criteria[..n][i] == k && replies[..n][i] == replies[i];
  }

  lemma YesFromPrefix(criteria: seq<string>, replies: seq<string>, k: string)
    requires |criteria| == |replies| && criteria != []
    requires AnsweredYes(criteria[..|criteria| - 1], replies[..|criteria| - 1], k)
    ensures AnsweredYes(criteria, replies, k)
  {
    var n := |criteria| - 1;
    var i :| 0 <= i < n && criteria[..n][i] == k && IsYes(replies[..n][i]);
    assert criteria[i] == k && IsYes(replies[i]);
  }

  /** A criterion is flagged exactly when its reply is a yes. */
  lemma {:induction false} FlaggedMembers(criteria: seq<string>, replies: seq<string>, k: string)
    requires |criteria| == |replies|
    ensures k in Flagged(criteria, replies) <==> exists i :: 0 <= i < |criteria| && criteria[i] == k && IsYes(replies[i])
    decreases |criteria|
  {
    if criteria != [] {
      var n := |criteria| - 1;
      FlaggedMembers(criteria[..n], replies[..n], k);
      AnsweredYesSnoc(criteria, replies, k);
      assert AnsweredYes(criteria[..n], replies[..n], k) <==> k in Flagged(criteria[..n], replies[..n]);
    }
    assert AnsweredYes(criteria, replies, k) <==> k in Flagged(criteria, replies);
  }

  /** The flagged criteria follow the criteria order: each sits at a strictly
      later position of `criteria` than the one before it. */
  lemma {:induction false} FlaggedInOrder(criteria: seq<string>, replies: seq<string>) returns (pos: seq<nat>)
    requires |criteria| == |replies|
    ensures var f := Flagged(criteria, replies);
      && |pos| == |f|
      && (forall j :: 0 <= j < |pos| ==> pos[j] < |criteria| && f[j] == criteria[pos[j]])
      && (forall j, k :: 0 <= j < k < |pos| ==> pos[j] < pos[k])
    decreases |criteria|
  {
    if criteria == [] {
      pos := [];
    } else {
      var n := |criteria| - 1;
      var before := FlaggedInOrder(criteria[..n], replies[..n]);
      var f := Flagged(criteria[..n], replies[..n]);
      forall j | 0 <= j < |before|
        ensures before[j] < n && f[j] == criteria[before[j]]
      {
        assert criteria[..n][before[j]] == criteria[before[j]];
      }
      if IsYes(replies[n]) {
        pos := before + [n];
        var g := f + [criteria[n]];
        assert Flagged(criteria, replies) == g;
        forall j | 0 <= j < |pos|
          ensures pos[j] < |criteria| && g[j] == criteria[pos[j]]
        {
          if j < |before| {
            assert pos[j] == before[j] && g[j] == f[j];
          }
        }
      } else {
        pos := before;
        assert Flagged(criteria, replies) == f;
      }
    }
  }

  predicate Distinct(s: seq<string>) {
    forall j, k :: 0 <= j < k < |s| ==> s[j] != s[k]
  }

  lemma CriteriaDistinct()
    ensures Distinct(Criteria)
  {
  }

  /** With distinct criteria, the one at `i` is flagged exactly when its reply is a yes. */
  lemma FlaggedAt(criteria: seq<string>, replies: seq<string>, i: nat)
    requires |criteria| == |replies| && Distinct(criteria) && i < |criteria|
    ensures criteria[i] in Flagged(criteria, replies) <==> IsYes(replies[i])
  {
    FlaggedMembers(criteria, replies, criteria[i]);
  }

  /** No criterion is flagged twice. */
  lemma FlaggedDistinct(criteria: seq<string>, replies: seq<string>)
    requires |criteria| == |replies| && Distinct(criteria)
    ensures Distinct(Flagged(criteria, replies))
  {
    var pos := FlaggedInOrder(criteria, replies);
  }

  /** The screening rule in terms of the replies: a yes to a question
      asking about a hard trigger, or at least two flagged criteria. */
  lemma RuleOnReplies(criteria: seq<string>, replies: seq<string>)
    requires |criteria| == |replies| >= 3 && Distinct(criteria)
    requires criteria[1] == "automated_decisions" && criteria[2] == "systematic_monitoring"
    ensures NeedsDpia(Flagged(criteria, replies))
        <==> IsYes(replies[1]) || IsYes(replies[2]) || |Flagged(criteria, replies)| >= 2
  {
    FlaggedAt(criteria, replies, 1);
    FlaggedAt(criteria, replies, 2);
  }

  /** For the nine criteria: a yes to question 2 or 3, or two yeses. */
  lemma DpiaRule(replies: seq<string>)
    requires |replies| == |Criteria|
    ensures NeedsDpia(Flagged(Criteria, replies))
        <==> IsYes(replies[1]) || IsYes(replies[2]) || |Flagged(Criteria, replies)| >= 2
  {
    CriteriaDistinct();
    RuleOnReplies(Criteria, replies);
  }

  /** The loop over the criteria appending each one answered yes. */
  method ScreenCriteria(replies: seq<string>) returns (required: bool, flagged: seq<string>)
    requires |replies| == |Criteria|
    ensures flagged == Flagged(Criteria, replies)
    ensures required == NeedsDpia(flagged)
  {
    flagged := [];
    for i := 0 to |Criteria|
      invariant flagged == Flagged(Criteria[..i], replies[..i])
    {
      assert Criteria[..i + 1][..i] == Criteria[..i] && replies[..i + 1][..i] == replies[..i];
      if IsYes(replies[i]) {
        flagged := flagged + [Criteria[i]];
      }
    }
    assert Criteria[..|Criteria|] == Criteria && replies[..|replies|] == replies;
    required := NeedsDpia(flagged);
  }

  /** The outcome of `dpia_screening()`. */
  datatype Screening = Screening(required: bool, flagged: seq<string>)

  /** The ready prompt answered "n" (after `strip().lower()`). */
  predicate Declined(reply: string) {
    Lower(Strip(reply)) == "n"
  }

  /** `dpia_screening()`: the ready prompt, the nine criteria, then the closing
      "Press Enter" prompt. `None` when input ends first. */
  method DpiaScreening(responses: seq<string>) returns (r: Option<Screening>)
    ensures r.None? <==> |responses| == 0 || (!Declined(responses[0]) && |responses| <= |Criteria| + 1)
    ensures r.Some? && Declined(responses[0]) ==> r.value == Screening(false, [])
    ensures r.Some? && !Declined(responses[0]) ==>
      && r.value.flagged == Flagged(Criteria, responses[1..|Criteria| + 1])
      && r.value.required == NeedsDpia(r.value.flagged)
  {
    if |responses| == 0 {
      return None;
    }
    if Declined(responses[0]) {
      return Some(Screening(false, []));
    }
    if |responses| < |Criteria| + 1 {
      return None;
    }
    var required, flagged := ScreenCriteria(responses[1..|Criteria| + 1]);
    if |responses| == |Criteria| + 1 {
      return None;
    }
    return Some(Screening(required, flagged));
  }

  // ---------------------------------------------------------------------------
  // Legitimate Interest Assessment tests
  // ---------------------------------------------------------------------------

  /** One test of the assessment: `lead` "Press Enter" prompts, the `first`
      questions, `between` more prompts, the `second` questions; the answers
      are then written under `sectionPath`, keyed by `keys`, and one last
      prompt closes the test. */
  datatype Test = Test(
    lead: nat, first: seq<Question>, between: nat, second: seq<Question>,
    sectionPath: string, keys: seq<string>)
  {
    predicate WellFormed() {
      |keys| == |first| + |second|
    }
  }

  function Repeat(q: Question, n: nat): (r: seq<Question>)
    ensures |r| == n && forall i :: 0 <= i < n ==> r[i] == q
  {
    if n == 0 then [] else Repeat(q, n - 1) + [q]
  }

  const PurposeTest := Test(1, Repeat(Detailed, 7), 0, [],
    LiaSection + "." + "purpose_test",
    ["why_scraping", "benefit_to_organisation", "third_party_benefits",
     "public_societal_benefits", "if_couldnt_process",
     "positive_outcome_individuals", "ethical_issues"])

  const NecessityTest := Test(1, Repeat(Raw, 4), 0, [],
    LiaSection + "." + "necessity_test",
    ["will_processing_help_achieve_purpose", "is_processing_proportionate",
     "can_achieve_without_processing", "can_achieve_less_intrusively"])

  const BalanceTest := Test(2, Repeat(Nature, 5), 1, Repeat(Detailed, 6),
    LiaSection + "." + "balancing_test", BalanceKeyNames)

  const BalanceKeyNames: seq<string> :=
    ["processing_special_category_data", "processing_criminal_data",
     "processing_private_data", "processing_vulnerable_data",
     "data_personal_or_professional_capacity",
     "what_told_individuals_at_collection", "third_party_disclosure_about_reuse",
     "purpose_and_method_obvious_or_understood", "using_innovative_processing_methods",
     "evidence_about_individual_expectations", "other_factors_affecting_expectations"]

  /** `collected_answers[key] = answer` for each answer in turn. */
  function Collected(keys: seq<string>, answers: seq<string>): map<string, Value>
    requires |keys| == |answers|
    decreases |keys|
  {
    if keys == [] then map[]
    else
      var n := |keys| - 1;
      Collected(keys[..n], answers[..n])[keys[n] := Str(answers[n])]
  }

  /** With distinct keys, every answer is recorded under its own key and
      nothing else is recorded. */
  lemma {:induction false} CollectedEntries(keys: seq<string>, answers: seq<string>)
    requires |keys| == |answers|
    requires forall i, j :: 0 <= i < j < |keys| ==> keys[i] != keys[j]
    ensures Collected(keys, answers).Keys == set k | k in keys
    ensures forall i :: 0 <= i < |keys| ==> Collected(keys, answers)[keys[i]] == Str(answers[i])
    decreases |keys|
  {
    if keys != [] {
      var n := |keys| - 1;
      CollectedEntries(keys[..n], answers[..n]);
      forall i | 0 <= i < n
        ensures Collected(keys, answers)[keys[i]] == Str(answers[i])
      {
        assert keys[..n][i] == keys[i] && answers[..n][i] == answers[i];
      }
      assert forall k :: k in keys <==> k in keys[..n] || k == keys[n];
    }
  }

  /** How a test run ends. */
  datatype TestOutcome =
    | InputEnded                                                  // EOFError before the answers were written
    | WriteFailed                                                 // a section on the path is not a dict
    | Recorded(answers: seq<string>, document: Value, finished: bool)  // `finished`: the closing prompt got its line

  /** The answers to test `t` and whether the closing prompt got its line;
      `None` when input ends before the last question is answered. */
  function Answered(responses: seq<string>, t: Test): (r: Option<(seq<string>, bool)>)
    requires t.WellFormed()
    ensures r.Some? ==> |r.value.0| == |t.keys|
  {
    if |responses| < t.lead then None
    else match AskAll(t.first, responses, t.lead)
      case None => None
      case Some(got) => AnsweredSecond(responses, t, got.0, got.1)
  }

  /** The answers after the first group of questions was answered with `a1`,
      input consumed up to `p1`. */
  function AnsweredSecond(responses: seq<string>, t: Test, a1: seq<string>, p1: nat): (r: Option<(seq<string>, bool)>)
    requires |a1| == |t.first| && p1 <= |responses|
    ensures r.Some? ==> |r.value.0| == |t.first| + |t.second|
  {
    if |responses| < p1 + t.between then None
    else match AskAll(t.second, responses, p1 + t.between)
      case None => None
      case Some(got) => Some((a1 + got.0, got.1 < |responses|))
  }

  /** The run of test `t` on the typed lines, against the loaded document. */
  function Run(doc: Value, responses: seq<string>, t: Test): TestOutcome
    requires t.WellFormed()
  {
    match Answered(responses, t)
    case None => InputEnded
    case Some(got) => Record(doc, t, got.0, got.1)
  }

  /** Writing the answers of test `t` into the document. */
  function Record(doc: Value, t: Test, answers: seq<string>, finished: bool): TestOutcome
    requires |answers| == |t.keys|
  {
    match WriteCompliance(doc, t.sectionPath, Collected(t.keys, answers))
    case None => WriteFailed
    case Some(d) => Recorded(answers, d, finished)
  }

  /** The write of the collected answers, through the navigation loop. */
  method RecordAnswers(doc: Value, t: Test, answers: seq<string>, finished: bool) returns (r: TestOutcome)
    requires |answers| == |t.keys|
    ensures r == Record(doc, t, answers, finished)
  {
    var written := WriteSection(doc, t.sectionPath, Collected(t.keys, answers));
    if written.None? {
      return WriteFailed;
    }
    return Recorded(answers, written.value, finished);
  }

  /** The prompts and questions of a test, in order. */
  method AnswerTest(responses: seq<string>, t: Test) returns (r: Option<(seq<string>, bool)>)
    requires t.WellFormed()
    ensures r == Answered(responses, t)
  {
    r := None;
    if t.lead <= |responses| {
      var first := AskEach(t.first, responses, t.lead);
      if first.Some? {
        r := AnswerSecondGroup(responses, t, first.value.0, first.value.1);
      }
    }
  }

  /** The prompts and questions after the first group. */
  method AnswerSecondGroup(responses: seq<string>, t: Test, a1: seq<string>, p1: nat) returns (r: Option<(seq<string>, bool)>)
    requires |a1| == |t.first| && p1 <= |responses|
    ensures r == AnsweredSecond(responses, t, a1, p1)
  {
    r := None;
    if p1 + t.between <= |responses| {
      var second := AskEach(t.second, responses, p1 + t.between);
      if second.Some? {
        r := Some((a1 + second.value.0, second.value.1 < |responses|));
      }
    }
  }

  /** `purpose_test`, `necessity_test` and `balance_test` of the wizard. */
  method RunTest(doc: Value, responses: seq<string>, t: Test) returns (r: TestOutcome)
    requires t.WellFormed()
    ensures r == Run(doc, responses, t)
  {
    var answered := AnswerTest(responses, t);
    if answered.None? {
      return InputEnded;
    }
    r := RecordAnswers(doc, t, answered.value.0, answered.value.1);
  }

  /** A successful write records every answer under its key, on top of the
      section's previous entries. */
  lemma RecordWritten(doc: Value, t: Test, answers: seq<string>, finished: bool)
    requires |answers| == |t.keys| && Distinct(t.keys) && t.keys != []
    requires Record(doc, t, answers, finished).Recorded?
    ensures var parts := Split(t.sectionPath, ".");
      var data := Collected(t.keys, answers);
      && (forall i :: 0 <= i < |t.keys| ==> t.keys[i] in data && data[t.keys[i]] == Str(answers[i]))
      && Lookup(Record(doc, t, answers, finished).document, parts) == Some(Map(SectionBefore(doc, parts) + data))
  {
    CollectedEntries(t.keys, answers);
    assert t.keys[0] in Collected(t.keys, answers);
    WrittenSection(doc, Split(t.sectionPath, "."), Collected(t.keys, answers));
  }

  /** What a completed run leaves behind: one answer per key, each accepted
      by its question, and the target section holding its previous entries
      updated with every answer under its key. */
  lemma RunRecorded(doc: Value, responses: seq<string>, t: Test)
    requires t.WellFormed() && Distinct(t.keys) && t.keys != []
    requires Run(doc, responses, t).Recorded?
    ensures var out := Run(doc, responses, t);
      var parts := Split(t.sectionPath, ".");
      var data := Collected(t.keys, out.answers);
      && |out.answers| == |t.keys|
      && (forall i :: 0 <= i < |t.first| ==> Accepted(t.first[i], out.answers[i]))
      && (forall i :: 0 <= i < |t.second| ==> Accepted(t.second[i], out.answers[|t.first| + i]))
      && (forall i :: 0 <= i < |t.keys| ==> t.keys[i] in data && data[t.keys[i]] == Str(out.answers[i]))
      && Lookup(out.document, parts) == Some(Map(SectionBefore(doc, parts) + data))
  {
    var got := Answered(responses, t).value;
    AnswersAccepted(responses, t);
    RecordWritten(doc, t, got.0, got.1);
  }

  /** Each answer of a completed run is accepted by its question. */
  lemma AnswersAccepted(responses: seq<string>, t: Test)
    requires t.WellFormed() && Answered(responses, t).Some?
    ensures var a := Answered(responses, t).value.0;
      && (forall i :: 0 <= i < |t.first| ==> Accepted(t.first[i], a[i]))
      && (forall i :: 0 <= i < |t.second| ==> Accepted(t.second[i], a[|t.first| + i]))
  {
    var (a1, p1) := AskAll(t.first, responses, t.lead).value;
    var (a2, p2) := AskAll(t.second, responses, p1 + t.between).value;
    AskAllAccepted(t.first, responses, t.lead);
    AskAllAccepted(t.second, responses, p1 + t.between);
    assert Answered(responses, t) == AnsweredSecond(responses, t, a1, p1) == Some((a1 + a2, p2 < |responses|));
  }

  /** A two-level dotted path splits into its two names. */
  lemma DottedPath(section: string, test: string)
    requires forall k :: 0 <= k < |section| ==> section[k] != '.'
    requires forall k :: 0 <= k < |test| ==> test[k] != '.'
    ensures Split(section + "." + test, ".") == [section, test]
  {
    assert Join(".", [section, test]) == section + "." + Join(".", [test]);
    SplitJoin([section, test], '.');
  }

  /** One distinct key per question, for each of the three tests. */
  lemma PurposeKeys()
    ensures PurposeTest.WellFormed() && Distinct(PurposeTest.keys)
  {
  }

  lemma NecessityKeys()
    ensures NecessityTest.WellFormed() && Distinct(NecessityTest.keys)
  {
  }

  lemma BalanceKeys()
    ensures BalanceTest.WellFormed() && Distinct(BalanceTest.keys)
  {
    BalanceKeyNamesDistinct();
    assert BalanceTest.keys == BalanceKeyNames;
  }

  lemma BalanceKeyNamesDistinct()
    ensures Distinct(BalanceKeyNames)
  {
  }

  lemma NoDot(name: string)
    requires name in {LiaSection, "purpose_test", "necessity_test", "balancing_test"}
    ensures forall k :: 0 <= k < |name| ==> name[k] != '.'
  {
  }

  lemma SectionPath(test: string)
    requires test in {"purpose_test", "necessity_test", "balancing_test"}
    ensures Split(LiaSection + "." + test, ".") == [LiaSection, test]
  {
    NoDot(LiaSection);
    NoDot(test);
    DottedPath(LiaSection, test);
  }

  /** `purpose_test`: seven detailed answers, each stripped and at least ten
      characters long, recorded under `legitimate_interest_assessment.purpose_test`. */
  lemma PurposeRecorded(doc: Value, responses: seq<string>)
    requires Run(doc, responses, PurposeTest).Recorded?
    ensures var out := Run(doc, responses, PurposeTest);
      && |out.answers| == 7
      && (forall i :: 0 <= i < 7 ==> |out.answers[i]| >= MinDetail && Strip(out.answers[i]) == out.answers[i])
      && Lookup(out.document, [LiaSection, "purpose_test"])
         == Some(Map(SectionBefore(doc, [LiaSection, "purpose_test"]) + Collected(PurposeTest.keys, out.answers)))
  {
    PurposeKeys();
    SectionPath("purpose_test");
    RunRecorded(doc, responses, PurposeTest);
    var out := Run(doc, responses, PurposeTest);
    forall i | 0 <= i < 7
      ensures |out.answers[i]| >= MinDetail && Strip(out.answers[i]) == out.answers[i]
    {
      assert Accepted(PurposeTest.first[i], out.answers[i]);
    }
  }

  /** `necessity_test`: four answers as typed, recorded under
      `legitimate_interest_assessment.necessity_test`. */
  lemma NecessityRecorded(doc: Value, responses: seq<string>)
    requires Run(doc, responses, NecessityTest).Recorded?
    ensures var out := Run(doc, responses, NecessityTest);
      && |out.answers| == 4
      && Lookup(out.document, [LiaSection, "necessity_test"])
         == Some(Map(SectionBefore(doc, [LiaSection, "necessity_test"]) + Collected(NecessityTest.keys, out.answers)))
  {
    NecessityKeys();
    SectionPath("necessity_test");
    RunRecorded(doc, responses, NecessityTest);
  }

  /** `balance_test`: five nature answers (never a bare yes, a no always as
      "No") and six detailed expectation answers, eleven in all, recorded
      under `legitimate_interest_assessment.balancing_test`. */
  lemma BalanceRecorded(doc: Value, responses: seq<string>)
    requires Run(doc, responses, BalanceTest).Recorded?
    ensures var out := Run(doc, responses, BalanceTest);
      && |out.answers| == 11
      && (forall i :: 0 <= i < 5 ==> out.answers[i] !in YesReplies && (out.answers[i] in NoReplies ==> out.answers[i] == "No"))
      && (forall i :: 5 <= i < 11 ==> |out.answers[i]| >= MinDetail && Strip(out.answers[i]) == out.answers[i])
      && Lookup(out.document, [LiaSection, "balancing_test"])
         == Some(Map(SectionBefore(doc, [LiaSection, "balancing_test"]) + Collected(BalanceTest.keys, out.answers)))
  {
    BalanceKeys();
    SectionPath("balancing_test");
    RunRecorded(doc, responses, BalanceTest);
    var out := Run(doc, responses, BalanceTest);
    forall i | 0 <= i < 5
      ensures out.answers[i] !in YesReplies && (out.answers[i] in NoReplies ==> out.answers[i] == "No")
    {
      assert Accepted(BalanceTest.first[i], out.answers[i]);
    }
    forall i | 5 <= i < 11
      ensures |out.answers[i]| >= MinDetail && Strip(out.answers[i]) == out.answers[i]
    {
      assert Accepted(BalanceTest.second[i - 5], out.answers[5 + (i - 5)]);
    }
  }

  /** The line at which nature question `i` of the balancing test is asked,
      once the questions before it have been answered. */
  function NaturePos(responses: seq<string>, i: nat): nat
    requires i <= 5
  {
    if |responses| < BalanceTest.lead then 0
    else match AskAll(BalanceTest.first[..i], responses, BalanceTest.lead)
      case None => 0
      case Some((_, p)) => p
  }

  /** Each nature answer of a recorded balancing test, against the reply typed
      at its own line: a yes gives the detailed description typed after it,
      a no gives "No", and any other reply is recorded as typed. */
  lemma BalanceNatureAnswers(doc: Value, responses: seq<string>)
    requires Run(doc, responses, BalanceTest).Recorded?
    ensures var out := Run(doc, responses, BalanceTest);
      forall i :: 0 <= i < 5 ==> var p := NaturePos(responses, i);
        && p < |responses|
        && (responses[p] in YesReplies ==> |out.answers[i]| >= MinDetail && Strip(out.answers[i]) == out.answers[i])
        && (responses[p] in NoReplies ==> out.answers[i] == "No")
        && (responses[p] !in YesReplies && responses[p] !in NoReplies ==> out.answers[i] == responses[p])
  {
    forall i | 0 <= i < 5
      ensures var out, p := Run(doc, responses, BalanceTest), NaturePos(responses, i);
        && p < |responses|
        && (responses[p] in YesReplies ==> |out.answers[i]| >= MinDetail && Strip(out.answers[i]) == out.answers[i])
        && (responses[p] in NoReplies ==> out.answers[i] == "No")
        && (responses[p] !in YesReplies && responses[p] !in NoReplies ==> out.answers[i] == responses[p])
    {
      NatureAnswerAt(responses, i);
    }
  }

  lemma NatureAnswerAt(responses: seq<string>, i: nat)
    requires i < 5 && Answered(responses, BalanceTest).Some?
    ensures var a, p := Answered(responses, BalanceTest).value.0, NaturePos(responses, i);
      && p < |responses|
      && (responses[p] in YesReplies ==> |a[i]| >= MinDetail && Strip(a[i]) == a[i])
      && (responses[p] in NoReplies ==> a[i] == "No")
      && (responses[p] !in YesReplies && responses[p] !in NoReplies ==> a[i] == responses[p])
  {
    var t := BalanceTest;
    FirstGroupAnswers(responses, t);
    AskAllAt(t.first, responses, t.lead, i);
    assert t.first[i] == Nature;
    NatureReply(responses, NaturePos(responses, i));
  }

  /** The answers of a completed run start with those of the first group. */
  lemma FirstGroupAnswers(responses: seq<string>, t: Test)
    requires t.WellFormed() && Answered(responses, t).Some?
    ensures var a1 := AskAll(t.first, responses, t.lead);
      a1.Some? && forall i :: 0 <= i < |t.first| ==> Answered(responses, t).value.0[i] == a1.value.0[i]
  {
    var (a1, p1) := AskAll(t.first, responses, t.lead).value;
    var (a2, p2) := AskAll(t.second, responses, p1 + t.between).value;
    assert Answered(responses, t) == AnsweredSecond(responses, t, a1, p1) == Some((a1 + a2, p2 < |responses|));
  }
}
