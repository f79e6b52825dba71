/** The wizard's questions, answered from the lines typed at the terminal.
    The lines are a sequence `responses` read from position `at` on; running
    out of lines is Python's `EOFError` from `input()` and gives `None`. */
module Answers {
  import opened Wrappers
  import opened Strings

  /** How the wizard treats the reply to one question. */
  datatype Question =
    | Detailed                      // asked again until the stripped reply has at least 10 characters
    | Raw                           // the reply as typed
    | Nature                        // a yes asks for a detailed follow-up, a no is recorded as "No"
    | LegacyNature(followUp: bool)  // a yes is replaced by a follow-up reply as typed, if the question has one

  const YesReplies: seq<string> := ["Y", "Yes", "y", "yes"]
  const NoReplies: seq<string> := ["N", "No", "n", "no"]

  /** The shortest stripped reply a detailed question accepts. */
  const MinDetail := 10

  /** Where the first reply from `at` on whose stripped form is long enough
      sits. */
  function FirstDetailed(responses: seq<string>, at: nat): (r: Option<nat>)
    requires at <= |responses|
    ensures r.Some? ==> at <= r.value < |responses| && |Strip(responses[r.value])| >= MinDetail
    ensures r.Some? ==> forall j :: at <= j < r.value ==> |Strip(responses[j])| < MinDetail
    ensures r.None? ==> forall j :: at <= j < |responses| ==> |Strip(responses[j])| < MinDetail
    decreases |responses| - at
  {
    if at == |responses| then None
    else if |Strip(responses[at])| >= MinDetail then Some(at)
    else FirstDetailed(responses, at + 1)
  }

  /** The accepted detailed answer (stripped) and the position after it. */
  function DetailedAnswer(responses: seq<string>, at: nat): (r: Option<(string, nat)>)
    requires at <= |responses|
    ensures r.Some? ==> at < r.value.1 <= |responses|
  {
    match FirstDetailed(responses, at)
    case None => None
    case Some(k) => Some((Strip(responses[k]), k + 1))
  }

  /** The recorded answer to `q` and the position after the lines it used. */
  function Ask(q: Question, responses: seq<string>, at: nat): (r: Option<(string, nat)>)
    requires at <= |responses|
    ensures r.Some? ==> at < r.value.1 <= |responses|
  {
    if at == |responses| then None
    else match q
      case Detailed => DetailedAnswer(responses, at)
      case Raw => Some((responses[at], at + 1))
      case Nature =>
        if responses[at] in YesReplies then DetailedAnswer(responses, at + 1)
        else Some((if responses[at] in NoReplies then "No" else responses[at], at + 1))
      case LegacyNature(followUp) =>
        if responses[at] in YesReplies && followUp then
          (if at + 1 == |responses| then None else Some((responses[at + 1], at + 2)))
        else Some((responses[at], at + 1))
  }

  /** What an answer recorded for `q` always looks like. */
  predicate Accepted(q: Question, a: string) {
    match q
    case Detailed => |a| >= MinDetail && Strip(a) == a
    case Nature => a !in YesReplies && (a in NoReplies ==> a == "No")
    case _ => true
  }

  /** A detailed answer is stripped and long enough. */
  lemma DetailedAccepted(responses: seq<string>, at: nat)
    requires at <= |responses| && DetailedAnswer(responses, at).Some?
    ensures Accepted(Detailed, DetailedAnswer(responses, at).value.0)
  {
    StripIdempotent(responses[FirstDetailed(responses, at).value]);
  }

  /** The nature-of-data rule: a yes becomes a detailed description, one of
      the no replies becomes "No", anything else is kept as typed. */
  lemma NatureReply(responses: seq<string>, at: nat)
    requires at < |responses| && Ask(Nature, responses, at).Some?
    ensures var a := Ask(Nature, responses, at).value.0;
      && (responses[at] in YesReplies ==> |a| >= MinDetail && Strip(a) == a)
      && (responses[at] in NoReplies ==> a == "No")
      && (responses[at] !in YesReplies && responses[at] !in NoReplies ==> a == responses[at])
      && Accepted(Nature, a)
  {
    if responses[at] in YesReplies {
      DetailedAccepted(responses, at + 1);
      var a := Ask(Nature, responses, at).value.0;
      assert forall y | y in YesReplies :: |y| < MinDetail;
      assert forall y | y in NoReplies :: |y| < MinDetail;
    }
  }

  /** The legacy follow-up: a yes is replaced by the next line exactly when
      the question has a follow-up; any other reply is kept as typed. Input
      ends too early when there is no line for the question, or no line for
      the follow-up it asks. */
  lemma LegacyNatureReply(responses: seq<string>, at: nat, followUp: bool)
    requires at <= |responses|
    ensures var r := Ask(LegacyNature(followUp), responses, at);
      r.None? <==> at == |responses| || (followUp && responses[at] in YesReplies && at + 1 == |responses|)
    ensures var r := Ask(LegacyNature(followUp), responses, at);
      r.Some? ==>
        if responses[at] in YesReplies && followUp then r.value == (responses[at + 1], at + 2)
        else r.value == (responses[at], at + 1)
  {
  }

  /** `Some((prefix + answers, p))` when `r` is `Some((answers, p))`. */
  function Continue(prefix: seq<string>, r: Option<(seq<string>, nat)>): Option<(seq<string>, nat)> {
    match r
    case None => None
    case Some((answers, p)) => Some((prefix + answers, p))
  }

  /** The answers to `qs` in order, and the position after the lines used. */
  function AskAll(qs: seq<Question>, responses: seq<string>, at: nat): (r: Option<(seq<string>, nat)>)
    requires at <= |responses|
    ensures r.Some? ==> |r.value.0| == |qs| && at + |qs| <= r.value.1 <= |responses|
    decreases |qs|
  {
    if qs == [] then Some(([], at))
    else match Ask(qs[0], responses, at)
      case None => None
      case Some((a, p)) => Continue([a], AskAll(qs[1..], responses, p))
  }

  /** Answer `i` of a completed run is the answer to question `i` asked at
      the line where the answers to the questions before it stopped, and
      the run over the first `i + 1` questions ends where that answer does. */
  lemma {:induction false} AskAllAt(qs: seq<Question>, responses: seq<string>, at: nat, i: nat)
    requires at <= |responses| && AskAll(qs, responses, at).Some? && i < |qs|
    ensures var pre := AskAll(qs[..i], responses, at);
      && pre.Some?
      && var one := Ask(qs[i], responses, pre.value.1);
      && one.Some?
      && AskAll(qs, responses, at).value.0[i] == one.value.0
      && AskAll(qs[..i + 1], responses, at) == Some((pre.value.0 + [one.value.0], one.value.1))
    decreases i
  {
    var (a, p) := Ask(qs[0], responses, at).value;
    var rest := AskAll(qs[1..], responses, p);
    assert AskAll(qs, responses, at) == Continue([a], rest);
    if i == 0 {
      assert qs[..0] == [];
      assert qs[..1][0] == qs[0] && qs[..1][1..] == [];
      assert [] + [a] == [a] + [];
    } else {
      AskAllAt(qs[1..], responses, p, i - 1);
      assert qs[..i][0] == qs[0] && qs[..i][1..] == qs[1..][..i - 1];
      assert qs[..i + 1][0] == qs[0] && qs[..i + 1][1..] == qs[1..][..i];
      assert qs[1..][i - 1] == qs[i];
      var pre := AskAll(qs[1..][..i - 1], responses, p).value;
      var one := Ask(qs[i], responses, pre.1).value;
      assert AskAll(qs[..i], responses, at) == Some(([a] + pre.0, pre.1));
      assert [a] + (pre.0 + [one.0]) == ([a] + pre.0) + [one.0];
    }
  }

  /** Every answer in a completed run is accepted by its question. */
  lemma {:induction false} AskAllAccepted(qs: seq<Question>, responses: seq<string>, at: nat)
    requires at <= |responses| && AskAll(qs, responses, at).Some?
    ensures forall i :: 0 <= i < |qs| ==> Accepted(qs[i], AskAll(qs, responses, at).value.0[i])
    decreases |qs|
  {
    if qs != [] {
      var p := Ask(qs[0], responses, at).value.1;
      AskAllAccepted(qs[1..], responses, p);
      match qs[0]
      case Detailed => DetailedAccepted(responses, at);
      case Nature => NatureReply(responses, at);
      case _ =>
    }
  }

  // ---------------------------------------------------------------------------
  // The prompting loops
  // ---------------------------------------------------------------------------

  /** `answer = input(q).strip()` followed by `while len(answer) < 10:` asking again. */
  method AskDetailed(responses: seq<string>, at: nat) returns (r: Option<(string, nat)>)
    requires at <= |responses|
    ensures r == DetailedAnswer(responses, at)
  {
    if at == |responses| {
      return None;
    }
    var answer := Strip(responses[at]);
    var next := at + 1;
    while |answer| < MinDetail
      invariant at < next <= |responses|
      invariant answer == Strip(responses[next - 1])
      invariant FirstDetailed(responses, at) == FirstDetailed(responses, next - 1)
      decreases |responses| - next
    {
      if next == |responses| {
        return None;
      }
      answer := Strip(responses[next]);
      next := next + 1;
    }
    return Some((answer, next));
  }

  method AskOne(q: Question, responses: seq<string>, at: nat) returns (r: Option<(string, nat)>)
    requires at <= |responses|
    ensures r == Ask(q, responses, at)
  {
    if at == |responses| {
      return None;
    }
    match q {
      case Detailed =>
        r := AskDetailed(responses, at);
      case Raw =>
        r := Some((responses[at], at + 1));
      case Nature =>
        var initial := responses[at];
        if initial in YesReplies {
          r := AskDetailed(responses, at + 1);
        } else {
          r := Some((if initial in NoReplies then "No" else initial, at + 1));
        }
      case LegacyNature(followUp) =>
        var answer := responses[at];
        var next := at + 1;
        if answer in YesReplies && followUp {
          if next == |responses| {
            return None;
          }
          answer := responses[next];
          next := next + 1;
        }
        r := Some((answer, next));
    }
  }

  /** The `for key, data in questions.items():` loop appending each answer. */
  method AskEach(qs: seq<Question>, responses: seq<string>, at: nat) returns (r: Option<(seq<string>, nat)>)
    requires at <= |responses|
    ensures r == AskAll(qs, responses, at)
  {
    var answers: seq<string> := [];
    var pos: nat := at;
    assert qs[0..] == qs;
    if AskAll(qs, responses, at).Some? {
      assert [] + AskAll(qs, responses, at).value.0 == AskAll(qs, responses, at).value.0;
    }
    for i := 0 to |qs|
      invariant pos <= |responses|
      invariant AskAll(qs, responses, at) == Continue(answers, AskAll(qs[i..], responses, pos))
    {
      assert qs[i..][0] == qs[i] && qs[i..][1..] == qs[i + 1..];
      var one := AskOne(qs[i], responses, pos);
      if one.None? {
        return None;
      }
      var (a, p) := one.value;
      ghost var rest := AskAll(qs[i + 1..], responses, p);
      if rest.Some? {
        assert answers + ([a] + rest.value.0) == (answers + [a]) + rest.value.0;
      }
      answers := answers + [a];
      pos := p;
    }
    assert qs[|qs|..] == [];
    assert answers + [] == answers;
    return Some((answers, pos));
  }
}
