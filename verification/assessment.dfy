/** The earlier, console version of the assessment: the reply of the
    language model is cut down to its JSON object, and the report lists the
    concerns and recommendations as bullets. Extracting the assessment
    answers is the same projection as `Analysis.ExtractLiaData`. */
module Assessment {
  import opened Wrappers
  import opened Strings
  import opened Yaml
  import opened Externals
  import opened Analysis

  /** `content[content.find(open) : content.rfind(close) + 1]` */
  function SliceThrough(content: string, open: string, close: string): string {
    Slice(content, Find(content, open), RFind(content, close) + 1)
  }

  /** `content[content.find('{') : content.rfind('}') + 1]` */
  function JsonSlice(content: string): string {
    SliceThrough(content, "{", "}")
  }

  /** A one-character mark found by `find` is the first of its kind. */
  lemma FirstMark(content: string, mark: string)
    requires |mark| == 1 && Contains(content, mark)
    ensures var first := Find(content, mark);
      && content[first] == mark[0]
      && forall k :: 0 <= k < first ==> content[k] != mark[0]
  {
    var first := Find(content, mark);
    assert content[first..first + 1][0] == content[first];
    forall k | 0 <= k < first
      ensures content[k] != mark[0]
    {
      assert !OccursAt(content, mark, k);
      assert content[k..k + 1][0] == content[k];
    }
  }

  /** A one-character mark found by `rfind` is the last of its kind. */
  lemma LastMark(content: string, mark: string)
    requires |mark| == 1 && Contains(content, mark)
    ensures var last := RFind(content, mark);
      && last < |content| && content[last] == mark[0]
      && forall k :: last < k < |content| ==> content[k] != mark[0]
  {
    var last := RFind(content, mark);
    assert OccursAt(content, mark, last);
    assert content[last..last + 1][0] == content[last];
    NoMarkAfter(content, mark, last);
  }

  lemma NoMarkAfter(content: string, mark: string, last: int)
    requires |mark| == 1 && last == RFind(content, mark) >= 0
    ensures forall k :: last < k < |content| ==> content[k] != mark[0]
  {
    forall k | last < k < |content|
      ensures content[k] != mark[0]
    {
      NotMarkAt(content, mark, k);
    }
  }

  lemma NotMarkAt(content: string, mark: string, k: int)
    requires |mark| == 1 && 0 <= k < |content| && !OccursAt(content, mark, k)
    ensures content[k] != mark[0]
  {
    assert content[k..k + 1] == [content[k]];
  }

  /** With an opening mark and a closing mark after it, the slice runs from
      the first opening mark through the last closing mark. */
  lemma SliceThroughMarks(content: string, open: string, close: string)
    requires |open| == 1 && |close| == 1 && Contains(content, open)
    requires Find(content, open) <= RFind(content, close)
    ensures var first, last := Find(content, open), RFind(content, close);
      var r := SliceThrough(content, open, close);
      && last < |content| && r == content[first..last + 1]
      && r[0] == open[0] && r[|r| - 1] == close[0]
      && (forall k :: 0 <= k < first ==> content[k] != open[0])
      && (forall k :: last < k < |content| ==> content[k] != close[0])
  {
    FirstMark(content, open);
    LastMark(content, close);
  }

  /** When the reply has a `{` and a `}` after it, the text handed to the
      JSON parser runs from the first `{` through the last `}`: it starts
      with `{`, ends with `}`, and nothing before it is a `{` nor after it a
      `}`. */
  lemma JsonSliceBraces(content: string)
    requires Contains(content, "{")
    requires Find(content, "{") <= RFind(content, "}")
    ensures var first, last := Find(content, "{"), RFind(content, "}");
      var r := JsonSlice(content);
      && r == content[first..last + 1]
      && r[0] == '{' && r[|r| - 1] == '}'
      && (forall k :: 0 <= k < first ==> content[k] != '{')
      && (forall k :: last < k < |content| ==> content[k] != '}')
  {
    var open, close := "{", "}";
    assert open[0] == '{' && close[0] == '}';
    SliceThroughMarks(content, open, close);
  }

  /** The bullet of the console report: three spaces, the UTF-8 bytes of
      U+2022 read back as Windows-1252 text, and a space. */
  const BulletPrefix := "   \U{E2}\U{20AC}\U{A2} "

  /** `chr(10).join(f'   • {x}' for x in analysis.get(key, []))`; `None`
      when `analysis` is not a dict or the entry cannot be iterated. */
  function Bullets(analysis: Value, key: string, ext: Foreign): (r: Option<string>)
    ensures r.Some? <==> analysis.Map? && Iterate(Get(analysis, key, List([])).value, ext).Some?
    ensures analysis.Map? && key !in analysis.entries ==> r == Some("")
  {
    match Get(analysis, key, List([]))
    case None => None
    case Some(items) =>
      match Iterate(items, ext)
      case None => None
      case Some(xs) => Some(Join("\n", PrefixedLines(BulletPrefix, xs, ext)))
  }

  /** The concerns block. */
  function Concerns(analysis: Value, ext: Foreign): Option<string> {
    Bullets(analysis, "key_concerns", ext)
  }

  /** The recommendations block. */
  function Recommendations(analysis: Value, ext: Foreign): Option<string> {
    Bullets(analysis, "recommendations", ext)
  }

  /** One bullet line per entry, in order, when no entry's text holds a line
      break. */
  lemma BulletLines(analysis: Value, key: string, ext: Foreign)
    requires analysis.Map? && key in analysis.entries
    requires Iterate(analysis.entries[key], ext).Some? && Iterate(analysis.entries[key], ext).value != []
    requires forall x, k :: x in Iterate(analysis.entries[key], ext).value && 0 <= k < |Render(x, ext)| ==> Render(x, ext)[k] != '\n'
    ensures Split(Bullets(analysis, key, ext).value, "\n") == PrefixedLines(BulletPrefix, Iterate(analysis.entries[key], ext).value, ext)
  {
    var xs := Iterate(analysis.entries[key], ext).value;
    var lines := PrefixedLines(BulletPrefix, xs, ext);
    forall p, k | p in lines && 0 <= k < |p|
      ensures p[k] != '\n'
    {
      var i :| 0 <= i < |lines| && lines[i] == p;
      if k >= |BulletPrefix| {
        assert p[k] == Render(xs[i], ext)[k - |BulletPrefix|];
      }
    }
    SplitJoin(lines, '\n');
  }
}
