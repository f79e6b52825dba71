/** The report side of the assessment: projecting the assessment answers out
    of the compliance document, cutting the YAML reply of the language model
    out of its surrounding text, and the Markdown pieces of the report. The
    model call itself and YAML parsing are not part of this model. */
module Analysis {
  import opened Wrappers
  import opened Strings
  import opened Yaml
  import opened Externals
  import opened ComplianceFile

  // ---------------------------------------------------------------------------
  // extract_lia_data
  // ---------------------------------------------------------------------------

  /** The fields `extract_lia_data` returns. */
  datatype LiaData = LiaData(
    purposeTest: Value, necessityTest: Value, balancingTest: Value,
    projectName: Value, targetUrl: Value, dpiaRequired: Value)

  /** `extract_lia_data(compliance_data)`; `None` when `.get` meets a value
      that is not a dict (AttributeError). */
  function ExtractLiaData(compliance: Value): (r: Option<LiaData>)
    ensures r.Some? <==>
      && compliance.Map?
      && Get(compliance, LiaSection, EmptyMap).value.Map?
      && Get(compliance, "dpia_screening", EmptyMap).value.Map?
    ensures r.Some? ==>
      && r.value.purposeTest == Lookup(compliance, [LiaSection, "purpose_test"]).GetOr(EmptyMap)
      && r.value.necessityTest == Lookup(compliance, [LiaSection, "necessity_test"]).GetOr(EmptyMap)
      && r.value.balancingTest == Lookup(compliance, [LiaSection, "balancing_test"]).GetOr(EmptyMap)
      && r.value.projectName == Lookup(compliance, ["project_name"]).GetOr(Str("Unknown"))
      && r.value.targetUrl == Lookup(compliance, ["target_url"]).GetOr(Str("Unknown"))
      && r.value.dpiaRequired == Lookup(compliance, ["dpia_screening", "required"]).GetOr(Bool(false))
  {
    match Get(compliance, LiaSection, EmptyMap)
    case None => None
    case Some(lia) =>
      match (Get(lia, "purpose_test", EmptyMap), Get(lia, "necessity_test", EmptyMap), Get(lia, "balancing_test", EmptyMap))
      case (Some(purpose), Some(necessity), Some(balancing)) =>
        var screening := Get(compliance, "dpia_screening", EmptyMap).value;
        LookupPair(compliance, LiaSection, "purpose_test");
        LookupPair(compliance, LiaSection, "necessity_test");
        LookupPair(compliance, LiaSection, "balancing_test");
        LookupPair(compliance, "dpia_screening", "required");
        LookupOne(lia, "purpose_test");
        LookupOne(lia, "necessity_test");
        LookupOne(lia, "balancing_test");
        LookupOne(screening, "required");
        LookupOne(compliance, "project_name");
        LookupOne(compliance, "target_url");
        (match Get(screening, "required", Bool(false))
         case None => None
         case Some(required) =>
           Some(LiaData(purpose, necessity, balancing,
             Get(compliance, "project_name", Str("Unknown")).value,
             Get(compliance, "target_url", Str("Unknown")).value,
             required)))
      case _ => None
  }

  /** An empty document gives every default. */
  lemma ExtractLiaDataDefaults()
    ensures ExtractLiaData(EmptyMap)
         == Some(LiaData(EmptyMap, EmptyMap, EmptyMap, Str("Unknown"), Str("Unknown"), Bool(false)))
  {
  }

  // ---------------------------------------------------------------------------
  // Cutting the YAML out of the reply
  // ---------------------------------------------------------------------------

  const Opener := "```yaml\n"
  const Fence := "```"

  /** `content[content.find(open) + len(open) : content.rfind(close)]`. */
  function Between(content: string, open: string, close: string): string {
    Slice(content, Find(content, open) + |open|, RFind(content, close))
  }

  /** The cut as written: with no opener, `find` gives -1 and the slice
      starts at 7. */
  function FencedYaml(content: string): string {
    Between(content, Opener, Fence)
  }

  /** When the reply has the opener and a closing mark after it, the text cut
      out is exactly what lies between the first opener and the last closing
      mark. */
  lemma BetweenMarks(content: string, open: string, close: string)
    requires Contains(content, open)
    requires Find(content, open) + |open| <= RFind(content, close)
    ensures var start := Find(content, open) + |open|;
      var stop := RFind(content, close);
      && Between(content, open, close) == content[start..stop]
      && content == content[..start - |open|] + open + Between(content, open, close) + close + content[stop + |close|..]
  {
    var i, stop := Find(content, open), RFind(content, close);
    assert Between(content, open, close) == content[i + |open|..stop];
    Around(content, i, open, stop, close);
  }

  /** A text with `x` at `a` and `y` further on at `c`, in five pieces. */
  lemma Around(s: string, a: nat, x: string, c: nat, y: string)
    requires a + |x| <= c && c + |y| <= |s|
    requires s[a..a + |x|] == x && s[c..c + |y|] == y
    ensures s == s[..a] + x + s[a + |x|..c] + y + s[c + |y|..]
  {
    var t := s[a + |x|..];
    assert t == s[a + |x|..c] + y + s[c + |y|..] by {
      assert t == t[..c - a - |x|] + t[c - a - |x|..c - a - |x| + |y|] + t[c - a - |x| + |y|..];
    }
    assert s == s[..a] + s[a..a + |x|] + t;
  }

  lemma FencedYamlBetween(content: string)
    requires Contains(content, Opener)
    requires Find(content, Opener) + |Opener| <= RFind(content, Fence)
    ensures var start := Find(content, Opener) + |Opener|;
      var stop := RFind(content, Fence);
      && FencedYaml(content) == content[start..stop]
      && content == content[..start - |Opener|] + Opener + FencedYaml(content) + Fence + content[stop + |Fence|..]
  {
    BetweenMarks(content, Opener, Fence);
  }

  /** Text without a backtick contains neither the opener nor a fence. */
  lemma NoBacktick(s: string, t: string)
    requires t != [] && t[0] == '`'
    requires forall k :: 0 <= k < |s| ==> s[k] != '`'
    ensures !Contains(s, t)
  {
    forall i | 0 <= i <= |s| - |t|
      ensures !OccursAt(s, t, i)
    {
      assert s[i..i + |t|][0] == s[i];
    }
  }

  /** A reply that is bare YAML, without any fence, loses its first seven
      characters and its last one. */
  lemma FencedYamlUnfencedCut(content: string)
    requires |content| >= 8
    requires forall k :: 0 <= k < |content| ==> content[k] != '`'
    ensures FencedYaml(content) == content[7..|content| - 1]
  {
    NoBacktick(content, Opener);
    NoBacktick(content, Fence);
  }

  /** The reply `confidence_rating: 85`, bare YAML, is cut to `nce_rating: 8`. */
  lemma FencedYamlUnfenced(content: string)
    requires content == "confide" + "nce_rating: 8" + "5"
    ensures FencedYaml(content) == "nce_rating: 8"
  {
    forall k | 0 <= k < |content|
      ensures content[k] != '`'
    {
    }
    FencedYamlUnfencedCut(content);
    MiddleOf("confide", "nce_rating: 8", "5");
  }

  lemma MiddleOf(a: string, b: string, c: string)
    ensures (a + b + c)[|a|..|a| + |b|] == b
  {
    assert (a + b + c)[|a|..] == b + c;
  }

  /** The intended cut: after the first opener, up to the last closing mark
      when one follows the opener, to the end when none does; the whole reply
      when it has no opener. */
  function CutBetween(content: string, open: string, close: string): string {
    var i := Find(content, open);
    if i < 0 then content
    else
      var start, stop := i + |open|, RFind(content, close);
      if start <= stop then content[start..stop] else content[start..]
  }

  /** Where the as-written cut has something to cut (an opener, then a
      closing mark), the intended one agrees with it. */
  lemma CutAgrees(content: string, open: string, close: string)
    requires Contains(content, open)
    requires Find(content, open) + |open| <= RFind(content, close)
    ensures CutBetween(content, open, close) == Between(content, open, close)
  {
    var start, stop := Find(content, open) + |open|, RFind(content, close);
    assert Between(content, open, close) == content[start..stop];
  }

  /** The corrected cut of the YAML out of the reply: the whole reply without
      an opener, the as-written cut where that one works, and everything
      after the opener when no fence follows it. */
  function FencedYamlCorrected(content: string): (r: string)
    ensures !Contains(content, Opener) ==> r == content
    ensures Contains(content, Opener) && Find(content, Opener) + |Opener| <= RFind(content, Fence) ==> r == FencedYaml(content)
    ensures Contains(content, Opener) && RFind(content, Fence) < Find(content, Opener) + |Opener| ==>
      r == content[Find(content, Opener) + |Opener|..]
  {
    var r := CutBetween(content, Opener, Fence);
    assert Contains(content, Opener) && Find(content, Opener) + |Opener| <= RFind(content, Fence) ==> r == FencedYaml(content) by {
      if Contains(content, Opener) && Find(content, Opener) + |Opener| <= RFind(content, Fence) {
        CutAgrees(content, Opener, Fence);
      }
    }
    r
  }

  lemma FencedYamlCorrectedUnfenced(content: string)
    requires content == "confidence_rating: 85"
    ensures FencedYamlCorrected(content) == content
  {
    NoBacktick(content, Opener);
  }

  // ---------------------------------------------------------------------------
  // Report pieces
  // ---------------------------------------------------------------------------

  /** `prefix + str(item)` for each item, in order. */
  function PrefixedLines(prefix: string, items: seq<Value>, ext: Foreign): (r: seq<string>)
    ensures |r| == |items|
    ensures forall i :: 0 <= i < |items| ==> r[i] == prefix + Render(items[i], ext)
  {
    seq(|items|, i requires 0 <= i < |items| => prefix + Render(items[i], ext))
  }

  /** `format_list(items, prefix)`; `None` when a non-empty `items` cannot be
      iterated (TypeError). */
  function FormatList(items: Value, prefix: string, ext: Foreign): (r: Option<string>)
    ensures !items.Truthy() ==> r == Some(prefix + "*No items reported*")
    ensures items.Truthy() ==> (r.Some? <==> Iterate(items, ext).Some?)
  {
    if !items.Truthy() then Some(prefix + "*No items reported*")
    else match Iterate(items, ext)
      case None => None
      case Some(xs) => Some(Join("\n", PrefixedLines(prefix, xs, ext)))
  }

  /** Each item gets a line of its own, in order, when neither the prefix nor
      any item's text holds a line break. */
  lemma FormatListLines(items: Value, prefix: string, ext: Foreign)
    requires items.Truthy() && Iterate(items, ext).Some? && Iterate(items, ext).value != []
    requires forall k :: 0 <= k < |prefix| ==> prefix[k] != '\n'
    requires forall x, k :: x in Iterate(items, ext).value && 0 <= k < |Render(x, ext)| ==> Render(x, ext)[k] != '\n'
    ensures Split(FormatList(items, prefix, ext).value, "\n") == PrefixedLines(prefix, Iterate(items, ext).value, ext)
  {
    var xs := Iterate(items, ext).value;
    var lines := PrefixedLines(prefix, xs, ext);
    forall p, k | p in lines && 0 <= k < |p|
      ensures p[k] != '\n'
    {
      var i :| 0 <= i < |lines| && lines[i] == p;
      if k >= |prefix| {
        assert p[k] == Render(xs[i], ext)[k - |prefix|];
      }
    }
    SplitJoin(lines, '\n');
  }

  /** The Markdown of one analysed section. */
  function SectionText(name: string, score: string, strengths: string, weaknesses: string, comments: string): string {
    "### " + name + "\n**Score:** " + score + "/100\n\n**Strengths:**\n" + strengths
      + "\n\n**Weaknesses:**\n" + weaknesses + "\n\n**Analysis:**\n" + comments + "\n"
  }

  /** `format_list(items)` of an empty list. */
  const NoItems := "- " + "*No items reported*"

  /** `format_section_analysis(section_name, section_data)`; `None` when a
      non-empty `section_data` is not a dict, or a non-empty strengths or
      weaknesses entry cannot be iterated. */
  function FormatSectionAnalysis(name: string, data: Value, ext: Foreign): (r: Option<string>)
    ensures !data.Truthy() ==> r == Some("### " + name + "\n*No analysis data available*\n")
    ensures data.Truthy() ==>
      (r.Some? <==>
        && data.Map?
        && FormatList(Get(data, "strengths", List([])).value, "- ", ext).Some?
        && FormatList(Get(data, "weaknesses", List([])).value, "- ", ext).Some?)
  {
    if !data.Truthy() then Some("### " + name + "\n*No analysis data available*\n")
    else if !data.Map? then None
    else
      var score := Get(data, "score", Str("N/A")).value;
      var comments := Get(data, "comments", Str("*No comments provided*")).value;
      match (FormatList(Get(data, "strengths", List([])).value, "- ", ext),
             FormatList(Get(data, "weaknesses", List([])).value, "- ", ext))
      case (Some(strengths), Some(weaknesses)) =>
        Some(SectionText(name, Render(score, ext), strengths, weaknesses, Render(comments, ext)))
      case _ => None
  }

  /** A section whose analysis holds none of the four fields shows every
      default: a score of N/A, no strengths, no weaknesses, no comments. */
  lemma SectionDefaults(name: string, data: Value, ext: Foreign)
    requires data.Map? && data.entries != map[]
    requires "score" !in data.entries && "strengths" !in data.entries
    requires "weaknesses" !in data.entries && "comments" !in data.entries
    ensures FormatSectionAnalysis(name, data, ext)
      == Some(SectionText(name, "N/A", NoItems, NoItems, "*No comments provided*"))
  {
    assert FormatList(List([]), "- ", ext) == Some(NoItems);
  }

  // ---------------------------------------------------------------------------
  // Badges
  // ---------------------------------------------------------------------------

  /** `badges.get(analysis.get(key, 'UNKNOWN'), fallback)`; `None` when
      `analysis` is not a dict or the level is a list or dict (TypeError). */
  function Badge(analysis: Value, key: string, badges: map<string, string>, fallback: string): (r: Option<string>)
    ensures r.Some? <==> analysis.Map? && Get(analysis, key, Str("UNKNOWN")).value.Hashable()
    ensures r.Some? ==> r.value in badges.Values || r.value == fallback
    ensures r.Some? ==> analysis.Map? && r.value == BadgeFor(KnownLevel(analysis, key, badges), badges, fallback)
  {
    match Get(analysis, key, Str("UNKNOWN"))
    case None => None
    case Some(level) =>
      if !level.Hashable() then None
      else if level.Str? && level.s in badges then Some(badges[level.s])
      else Some(fallback)
  }

  /** The level the badge was chosen for, when it is one of the known ones. */
  function KnownLevel(analysis: Value, key: string, badges: map<string, string>): Option<string>
    requires analysis.Map?
  {
    var level := Get(analysis, key, Str("UNKNOWN")).value;
    if level.Str? && level.s in badges then Some(level.s) else None
  }

  /** The badge a known level has in the table, or the fallback. */
  function BadgeFor(level: Option<string>, badges: map<string, string>, fallback: string): string {
    match level
    case Some(l) => if l in badges then badges[l] else fallback
    case None => fallback
  }

  /** Distinct known levels have distinct badges, none of them the fallback. */
  predicate Distinguishes(badges: map<string, string>, fallback: string) {
    && fallback !in badges.Values
    && forall a, b :: a in badges && b in badges && a != b ==> badges[a] != badges[b]
  }

  /** With distinguishing badges, the badge shown tells which known level the
      analysis reported, or that it reported none of them. */
  lemma BadgeIdentifiesLevel(a1: Value, a2: Value, key: string, badges: map<string, string>, fallback: string)
    requires Distinguishes(badges, fallback)
    requires Badge(a1, key, badges, fallback).Some? && Badge(a2, key, badges, fallback).Some?
    ensures Badge(a1, key, badges, fallback) == Badge(a2, key, badges, fallback)
        <==> KnownLevel(a1, key, badges) == KnownLevel(a2, key, badges)
  {
  }

  const RiskBadges := map[
    "LOW" := "\U{1F7E2} **LOW RISK**",
    "MEDIUM" := "\U{1F7E1} **MEDIUM RISK**",
    "HIGH" := "\U{1F534} **HIGH RISK**"]
  const UnknownRisk := "\U{26AA} **UNKNOWN RISK**"

  const ComplianceBadges := map[
    "COMPLIANT" := "\U{2705} **COMPLIANT**",
    "PARTIALLY_COMPLIANT" := "\U{26A0}\U{FE0F} **PARTIALLY COMPLIANT**",
    "NON_COMPLIANT" := "\U{274C} **NON-COMPLIANT**"]
  const UnknownStatus := "\U{2753} **UNKNOWN STATUS**"

  /** The risk badge of the report: each of LOW, MEDIUM and HIGH gets its
      own badge, and a missing level is treated as `'UNKNOWN'`. */
  function RiskBadge(analysis: Value): (r: Option<string>)
    ensures r.Some? <==> analysis.Map? && Get(analysis, "legal_risk_level", Str("UNKNOWN")).value.Hashable()
    ensures analysis.Map? ==> var level := Get(analysis, "legal_risk_level", Str("UNKNOWN")).value;
      && (level == Str("LOW") ==> r == Some("\U{1F7E2} **LOW RISK**"))
      && (level == Str("MEDIUM") ==> r == Some("\U{1F7E1} **MEDIUM RISK**"))
      && (level == Str("HIGH") ==> r == Some("\U{1F534} **HIGH RISK**"))
      && ("legal_risk_level" !in analysis.entries ==> r == Some("\U{26AA} **UNKNOWN RISK**"))
  {
    Badge(analysis, "legal_risk_level", RiskBadges, UnknownRisk)
  }

  /** The compliance badge of the report: each of the three statuses gets
      its own badge, and a missing status is treated as `'UNKNOWN'`. */
  function ComplianceBadge(analysis: Value): (r: Option<string>)
    ensures r.Some? <==> analysis.Map? && Get(analysis, "compliance_status", Str("UNKNOWN")).value.Hashable()
    ensures analysis.Map? ==> var status := Get(analysis, "compliance_status", Str("UNKNOWN")).value;
      && (status == Str("COMPLIANT") ==> r == Some("\U{2705} **COMPLIANT**"))
      && (status == Str("PARTIALLY_COMPLIANT") ==> r == Some("\U{26A0}\U{FE0F} **PARTIALLY COMPLIANT**"))
      && (status == Str("NON_COMPLIANT") ==> r == Some("\U{274C} **NON-COMPLIANT**"))
      && ("compliance_status" !in analysis.entries ==> r == Some("\U{2753} **UNKNOWN STATUS**"))
  {
    Badge(analysis, "compliance_status", ComplianceBadges, UnknownStatus)
  }

  /** Each badge table tells its levels apart: every badge begins with its
      own symbol. */
  lemma BadgesDistinguish()
    ensures Distinguishes(RiskBadges, UnknownRisk)
    ensures Distinguishes(ComplianceBadges, UnknownStatus)
  {
    assert RiskBadges.Values == {RiskBadges["LOW"], RiskBadges["MEDIUM"], RiskBadges["HIGH"]};
    assert ComplianceBadges.Values
        == {ComplianceBadges["COMPLIANT"], ComplianceBadges["PARTIALLY_COMPLIANT"], ComplianceBadges["NON_COMPLIANT"]};
  }

  /** An analysis without a risk level, or with one outside LOW, MEDIUM and
      HIGH, gets the unknown-risk badge. */
  lemma RiskBadgeUnknown(analysis: Value)
    requires analysis.Map?
    requires Get(analysis, "legal_risk_level", Str("UNKNOWN")).value.Hashable()
    ensures RiskBadge(analysis) == Some(UnknownRisk)
        <==> KnownLevel(analysis, "legal_risk_level", RiskBadges).None?
  {
    BadgesDistinguish();
  }

  /** The same rule for the compliance badge: the unknown-status badge
      exactly when the status is none of the three known ones. */
  lemma ComplianceBadgeUnknown(analysis: Value)
    requires analysis.Map?
    requires Get(analysis, "compliance_status", Str("UNKNOWN")).value.Hashable()
    ensures ComplianceBadge(analysis) == Some(UnknownStatus)
        <==> KnownLevel(analysis, "compliance_status", ComplianceBadges).None?
  {
    BadgesDistinguish();
  }
}
