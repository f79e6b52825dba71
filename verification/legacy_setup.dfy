/** The earlier version of the project wizard: the same URL and DPIA rules,
    a DPIA screening without the ready prompt, a balancing test whose
    follow-up replaces a yes only for three of the nature questions and whose
    expectation answers are taken as typed, and the template copy step. */
module LegacySetup {
  import opened Wrappers
  import opened Strings
  import opened Answers
  import opened CoreSetup

  /** `dpia_screening()`: the nine criteria and nothing else; `None` when
      input ends first. */
  method DpiaScreening(responses: seq<string>) returns (r: Option<Screening>)
    ensures r.None? <==> |responses| < |Criteria|
    ensures r.Some? ==>
      && r.value.flagged == Flagged(Criteria, responses[..|Criteria|])
      && r.value.required == NeedsDpia(r.value.flagged)
  {
    if |responses| < |Criteria| {
      return None;
    }
    var required, flagged := ScreenCriteria(responses[..|Criteria|]);
    return Some(Screening(required, flagged));
  }

  /** special_category, criminal_data, private_data, vulnerable_data,
      personal_or_professional: only the middle three have a follow-up. */
  const NatureQuestions: seq<Question> := [
    LegacyNature(false), LegacyNature(true), LegacyNature(true),
    LegacyNature(true), LegacyNature(false)
  ]

  /** The ten reasonable-expectation questions, answered as typed. */
  const ExpectationQuestions: seq<Question> := Repeat(Raw, 10)

  /** The fifteen questions of `balance_test()`, in the order they are asked. */
  const BalanceQuestions: seq<Question> := NatureQuestions + ExpectationQuestions

  /** `balance_test()`: the nature answers followed by the expectation answers. */
  function Balance(responses: seq<string>): (r: Option<seq<string>>)
    ensures r.Some? ==> |r.value| == |BalanceQuestions| == 15
  {
    match AskAll(BalanceQuestions, responses, 0)
    case None => None
    case Some((answers, _)) => Some(answers)
  }

  method BalanceTest(responses: seq<string>) returns (r: Option<seq<string>>)
    ensures r == Balance(responses)
  {
    var asked := AskEach(BalanceQuestions, responses, 0);
    if asked.None? {
      return None;
    }
    return Some(asked.value.0);
  }

  /** The line at which question `i` is asked: the first line after those
      the answers to the questions before it used. */
  function LinePos(responses: seq<string>, i: nat): nat
    requires i <= 15
  {
    match AskAll(BalanceQuestions[..i], responses, 0)
    case None => 0
    case Some((_, p)) => p
  }

  /** Question `i` is answered from its own line `p`: a yes to one of the
      middle three nature questions (criminal, private, vulnerable data) is
      replaced by line `p + 1`, every other reply is kept as typed, and the
      next question is asked at the line after those used. */
  predicate AnsweredAt(responses: seq<string>, a: seq<string>, i: nat)
    requires i < 15 && |a| == 15
  {
    var p := LinePos(responses, i);
    && p < |responses|
    && if 1 <= i <= 3 && responses[p] in YesReplies
       then p + 1 < |responses| && a[i] == responses[p + 1] && LinePos(responses, i + 1) == p + 2
       else a[i] == responses[p] && LinePos(responses, i + 1) == p + 1
  }

  /** Every answer of a completed `balance_test()` follows the rule above,
      starting at the first line; so the ten expectation answers are the ten
      lines that follow the nature answers, as typed and in order. */
  lemma BalanceAnswers(responses: seq<string>)
    requires Balance(responses).Some?
    ensures var a := Balance(responses).value;
      && LinePos(responses, 0) == 0
      && (forall i :: 0 <= i < 15 ==> AnsweredAt(responses, a, i))
      && var q := LinePos(responses, 5);
         q + 10 <= |responses| && a[5..] == responses[q..q + 10]
  {
    var a := Balance(responses).value;
    assert BalanceQuestions[..0] == [];
    assert AskAll(BalanceQuestions[..0], responses, 0) == Some(([], 0));
    forall i | 0 <= i < 15
      ensures AnsweredAt(responses, a, i)
    {
      QuestionAnswered(responses, i);
    }
    ExpectationAnswers(responses, a, 0);
  }

  /** Question `i` is answered at its own line. */
  lemma QuestionAnswered(responses: seq<string>, i: nat)
    requires Balance(responses).Some? && i < 15
    ensures AnsweredAt(responses, Balance(responses).value, i)
  {
    AskAllAt(BalanceQuestions, responses, 0, i);
    if i < 5 {
      assert BalanceQuestions[i] == NatureQuestions[i] == LegacyNature(1 <= i <= 3);
      LegacyNatureReply(responses, LinePos(responses, i), 1 <= i <= 3);
    } else {
      assert BalanceQuestions[i] == ExpectationQuestions[i - 5] == Raw;
    }
  }

  /** From expectation question `5 + k` on, the answers are the lines as typed. */
  lemma {:induction false} ExpectationAnswers(responses: seq<string>, a: seq<string>, k: nat)
    requires |a| == 15 && k <= 10
    requires forall i :: 5 <= i < 15 ==> AnsweredAt(responses, a, i)
    ensures var q := LinePos(responses, 5 + k);
      q + 10 - k <= |responses| && a[5 + k..] == responses[q..q + 10 - k]
    decreases 10 - k
  {
    if k < 10 {
      ExpectationAnswers(responses, a, k + 1);
      var q := LinePos(responses, 5 + k);
      assert AnsweredAt(responses, a, 5 + k);
      assert a[5 + k..] == [a[5 + k]] + a[5 + k + 1..];
      assert responses[q..q + 10 - k] == [responses[q]] + responses[q + 1..q + 10 - k];
    }
  }

  // ---------------------------------------------------------------------------
  // Templates
  // ---------------------------------------------------------------------------

  /** The two project folders: `output/` and the project root. */
  datatype Folder = OutputDir | TargetDir

  datatype Destination = Destination(folder: Folder, name: string)

  const Templates: seq<string> := ["compliance-template.yaml", "target-template.yaml"]

  /** Where `copy_and_customize_templates` copies a template: the compliance
      file under `output/`, the other at the project root, named without
      `-template`. */
  function TemplateDestination(name: string): Destination {
    Destination(
      if name == "compliance-template.yaml" then OutputDir else TargetDir,
      Replace(name, "-template", ""))
  }

  /** `-template.yaml` is the marker followed by the extension. */
  lemma MarkerThenExtension()
    ensures "-template.yaml" == "-template" + ".yaml"
  {
  }

  /** Dropping a marker that starts with `-` from `<stem><marker><extension>`
      leaves `<stem><extension>` when the extension is shorter than the
      marker. */
  lemma MarkerDropped(stem: string, marker: string, ext: string)
    requires marker != [] && marker[0] == '-' && |ext| < |marker|
    requires forall k :: 0 <= k < |stem| ==> stem[k] != '-'
    ensures Replace(stem + marker + ext, marker, "") == stem + ext
  {
    var none: string := [];
    ReplaceOnce(stem, marker, ext, none);
    assert stem + none == stem;
  }

  /** A template named `<stem>-template.yaml` is copied as `<stem>.yaml`. */
  lemma TemplateRenamed(stem: string)
    requires forall k :: 0 <= k < |stem| ==> stem[k] != '-'
    ensures TemplateDestination(stem + "-template.yaml").name == stem + ".yaml"
  {
    MarkerAppended(stem);
    MarkerDropped(stem, "-template", ".yaml");
    DestinationName(stem + "-template.yaml");
  }

  lemma MarkerAppended(stem: string)
    ensures stem + "-template.yaml" == stem + "-template" + ".yaml"
  {
    MarkerThenExtension();
  }

  lemma DestinationName(name: string)
    ensures TemplateDestination(name).name == Replace(name, "-template", "")
  {
  }

  lemma ComplianceSpelled()
    ensures "compliance-template.yaml" == "compliance" + "-template.yaml"
    ensures "compliance.yaml" == "compliance" + ".yaml"
  {
  }

  lemma TargetSpelled()
    ensures "target-template.yaml" == "target" + "-template.yaml"
    ensures "target.yaml" == "target" + ".yaml"
    ensures "target-template.yaml" != "compliance-template.yaml"
  {
  }

  /** `compliance-template.yaml` becomes `output/compliance.yaml`. */
  lemma ComplianceDestination(name: string)
    requires name == "compliance-template.yaml"
    ensures TemplateDestination(name) == Destination(OutputDir, "compliance.yaml")
  {
    ComplianceSpelled();
    TemplateRenamed("compliance");
  }

  /** `target-template.yaml` becomes `target.yaml` at the project root. */
  lemma TargetDestination(name: string)
    requires name == "target-template.yaml"
    ensures TemplateDestination(name) == Destination(TargetDir, "target.yaml")
  {
    TargetSpelled();
    TemplateRenamed("target");
  }

  /** Each of the two templates goes to its own place. */
  lemma TemplateDestinations(name: string)
    requires name in Templates
    ensures name == "compliance-template.yaml" ==> TemplateDestination(name) == Destination(OutputDir, "compliance.yaml")
    ensures name == "target-template.yaml" ==> TemplateDestination(name) == Destination(TargetDir, "target.yaml")
  {
    if name == "compliance-template.yaml" {
      ComplianceDestination(name);
    } else {
      TargetDestination(name);
    }
  }
}
