/** Field selectors of a target configuration: `"<css> | t1 | t2 ..."`, the
    small language of list transformations applied after the CSS query, and
    the shaping of the final list into a scalar, a list or `None`. */
module Transform {
  import opened Wrappers
  import opened Strings
  import opened Yaml
  import opened Externals

  // ---------------------------------------------------------------------------
  // Transformations
  // ---------------------------------------------------------------------------

  datatype Transformation =
    | StripOp                              // `strip`
    | ReplaceOp(pat: string, rep: string)  // `replace: 'old', 'new'`
    | JoinOp                               // `join`
    | RegexOp(pattern: string)             // `regex:<pattern>`
    | Unchanged                            // anything else, or a malformed `replace:`

  /** The quote characters trimmed from `replace:` arguments. */
  const Quotes: set<char> := {'"', '\''}

  /** A `replace:` argument: surrounding whitespace, then surrounding quotes, removed. */
  function ReplaceArg(a: string): string {
    StripChars(Strip(a), Quotes)
  }

  /** How a (stripped) transformation name is read. */
  function ParseTransformation(t: string): (r: Transformation)
    ensures r == StripOp <==> t == "strip"
    ensures r == JoinOp <==> t == "join"
    ensures r.RegexOp? <==> StartsWith(t, "regex:") && t != "strip" && !StartsWith(t, "replace:")
    ensures r.RegexOp? ==> r.pattern == t[6..]
    ensures r.ReplaceOp? <==> StartsWith(t, "replace:") && |Split(t[8..], ",")| == 2
    ensures r.ReplaceOp? ==> var args := Split(t[8..], ",");
      r.pat == ReplaceArg(args[0]) && r.rep == ReplaceArg(args[1])
  {
    if t == "strip" then StripOp
    else if StartsWith(t, "replace:") then
      AfterReplaceColon(t);
      var args := Split(After(t, ":").value, ",");
      if |args| == 2 then ReplaceOp(ReplaceArg(args[0]), ReplaceArg(args[1])) else Unchanged
    else if t == "join" then JoinOp
    else if StartsWith(t, "regex:") then
      AfterRegexColon(t);
      RegexOp(After(t, ":").value)
    else Unchanged
  }

  /** In a `replace:...` name the first colon is the one after `replace`. */
  lemma AfterReplaceColon(t: string)
    requires StartsWith(t, "replace:")
    ensures After(t, ":") == Some(t[8..])
  {
    assert OccursAt(t, ":", 7) by { assert t[7..8] == t[..8][7..8]; }
    var i := Find(t, ":");
    forall j | 0 <= j < 7 ensures !OccursAt(t, ":", j) {
      assert t[j..j + 1][0] == t[..8][j];
    }
    assert i == 7;
  }

  /** In a `regex:...` name the first colon is the one after `regex`. */
  lemma AfterRegexColon(t: string)
    requires StartsWith(t, "regex:")
    ensures After(t, ":") == Some(t[6..])
  {
    assert OccursAt(t, ":", 5) by { assert t[5..6] == t[..6][5..6]; }
    var i := Find(t, ":");
    forall j | 0 <= j < 5 ensures !OccursAt(t, ":", j) {
      assert t[j..j + 1][0] == t[..6][j];
    }
    assert i == 5;
  }

  /** `[v.strip() for v in values if v]` */
  function StripAll(values: seq<string>): (r: seq<string>)
    ensures |r| <= |values|
  {
    if values == [] then []
    else
      var last := values[|values| - 1];
      StripAll(values[..|values| - 1]) + (if last == "" then [] else [Strip(last)])
  }

  /** `[re.sub(pattern, '', v) for v in values]`; `None` when the pattern is rejected. */
  function RegexAll(values: seq<string>, pattern: string, ext: Foreign): (r: Option<seq<string>>)
    ensures r.Some? ==> |r.value| == |values|
  {
    if values == [] then Some([])
    else match (ext.regexSub(pattern, values[0]), RegexAll(values[1..], pattern, ext))
      case (Some(v), Some(vs)) => Some([v] + vs)
      case _ => None
  }

  /** One transformation over the extracted values; `None` when it raises. */
  function Apply(values: seq<string>, t: Transformation, ext: Foreign): (r: Option<seq<string>>)
    ensures t.RegexOp? || r.Some?
    ensures t == StripOp ==> |r.value| <= |values|
    ensures t == JoinOp ==> |r.value| == 1
    ensures t.ReplaceOp? || t.RegexOp? ==> r.Some? ==> |r.value| == |values|
    ensures t == Unchanged ==> r == Some(values)
  {
    match t
    case StripOp => Some(StripAll(values))
    case ReplaceOp(pat, rep) => Some(seq(|values|, i requires 0 <= i < |values| => Replace(values[i], pat, rep)))
    case JoinOp => Some([Join(" ", values)])
    case RegexOp(pattern) => RegexAll(values, pattern, ext)
    case Unchanged => Some(values)
  }

  /** `_apply_transformation(values, transformation)` */
  function ApplyTransformation(values: seq<string>, transformation: string, ext: Foreign): Option<seq<string>> {
    Apply(values, ParseTransformation(transformation), ext)
  }

  /** `idx` lists, in increasing order, exactly the positions of the
      non-empty entries of `values`, and `r` holds those entries stripped. */
  predicate StripsAt(values: seq<string>, r: seq<string>, idx: seq<nat>, f: string -> string) {
    && |idx| == |r|
    && (forall k :: 0 <= k < |idx| ==> idx[k] < |values| && values[idx[k]] != "" && r[k] == f(values[idx[k]]))
    && (forall k, l :: 0 <= k < l < |idx| ==> idx[k] < idx[l])
    && (forall j :: 0 <= j < |values| && values[j] != "" ==> j in idx)
  }

  /** `strip` keeps exactly the non-empty entries, in their order, each one
      stripped: `idx` lists the positions it keeps. */
  lemma {:induction false} StripSelects(values: seq<string>) returns (idx: seq<nat>)
    ensures StripsAt(values, StripAll(values), idx, Strip)
  {
    if values == [] {
      idx := [];
    } else {
      var init := values[..|values| - 1];
      var rest := StripSelects(init);
      idx := StripsAtSnoc(values, StripAll(init), rest, Strip);
    }
  }

  lemma StripsAtSnoc(values: seq<string>, ri: seq<string>, rest: seq<nat>, f: string -> string) returns (idx: seq<nat>)
    requires values != [] && StripsAt(values[..|values| - 1], ri, rest, f)
    ensures var last := values[|values| - 1];
      StripsAt(values, ri + (if last == "" then [] else [f(last)]), idx, f)
  {
    var n := |values| - 1;
    var init := values[..n];
    forall k | 0 <= k < |rest|
      ensures rest[k] < n && values[rest[k]] == init[rest[k]]
    {
    }
    if values[n] == "" {
      idx := rest;
      forall j | 0 <= j < |values| && values[j] != ""
        ensures j in idx
      {
        assert j < n && init[j] == values[j];
      }
    } else {
      idx := rest + [n];
      forall j | 0 <= j < |values| && values[j] != ""
        ensures j in idx
      {
        if j < n {
          assert init[j] == values[j];
          assert j in rest;
        } else {
          assert idx[|rest|] == j;
        }
      }
    }
  }

  /** `join` yields one entry which splits back at the spaces into the
      original entries, when none of them holds a space itself. */
  lemma JoinSplitsBack(values: seq<string>, ext: Foreign)
    requires forall v, k :: v in values && 0 <= k < |v| ==> v[k] != ' '
    ensures var r := ApplyTransformation(values, "join", ext);
      r.Some? && |r.value| == 1 &&
      (values == [] ==> r.value == [""]) &&
      (values != [] ==> Split(r.value[0], " ") == values)
  {
    if values != [] {
      SplitJoin(values, ' ');
    }
  }

  /** A well-formed `replace` rewrites each entry as splitting it at the old
      text and joining the pieces with the new text; replacing a text by
      itself leaves the list as it was. */
  lemma ReplaceEntries(values: seq<string>, transformation: string, ext: Foreign)
    requires ParseTransformation(transformation).ReplaceOp?
    ensures var t := ParseTransformation(transformation);
      var r := ApplyTransformation(values, transformation, ext);
      && r.Some? && |r.value| == |values|
      && (t.pat != [] ==> forall i :: 0 <= i < |values| ==> r.value[i] == Join(t.rep, Split(values[i], t.pat)))
      && (t.pat == t.rep ==> r.value == values)
  {
    var t := ParseTransformation(transformation);
    var r := ApplyTransformation(values, transformation, ext);
    if t.pat != [] {
      forall i | 0 <= i < |values|
        ensures r.value[i] == Join(t.rep, Split(values[i], t.pat))
      {
        ReplaceIsJoinSplit(values[i], t.pat, t.rep);
      }
    }
    if t.pat == t.rep {
      forall i | 0 <= i < |values|
        ensures r.value[i] == values[i]
      {
        ReplaceSelf(values[i], t.pat);
      }
    }
  }

  // ---------------------------------------------------------------------------
  // Selectors
  // ---------------------------------------------------------------------------

  datatype Selector =
    | PageUrl                                      // exactly `response.url`
    | Query(css: string, transforms: seq<string>)  // `<css> | t1 | t2 ...`

  /** How a selector string is read: split at `' | '`, the first piece is the
      CSS selector and the others are transformation names. */
  function ParseSelector(config: string): (r: Selector)
    ensures r.PageUrl? <==> config == "response.url"
    ensures r.Query? ==> Join(" | ", [r.css] + r.transforms) == config
  {
    if config == "response.url" then PageUrl
    else
      var parts := Split(config, " | ");
      JoinSplit(config, " | ");
      assert parts == [parts[0]] + parts[1..];
      Query(parts[0], parts[1..])
  }

  /** The CSS query actually run: a selector that asks for neither text nor
      an attribute is made to ask for text. */
  function QueryFor(selector: string): (r: string)
    ensures Contains(r, "::text") || Contains(r, "::attr(")
    ensures r == selector || r == selector + "::text"
    ensures r == selector <==> Contains(selector, "::text") || Contains(selector, "::attr(")
  {
    if Contains(selector, "::text") || Contains(selector, "::attr(") then selector
    else
      var q := selector + "::text";
      assert OccursAt(q, "::text", |selector|);
      q
  }

  /** The transformations applied left to right, each name stripped first. */
  function ApplyAll(values: seq<string>, transforms: seq<string>, ext: Foreign): Option<seq<string>>
    decreases |transforms|
  {
    if transforms == [] then Some(values)
    else match ApplyTransformation(values, Strip(transforms[0]), ext)
      case None => None
      case Some(next) => ApplyAll(next, transforms[1..], ext)
  }

  /** Running two lists of transformations one after the other is running
      their concatenation. */
  lemma {:induction false} ApplyAllAppend(values: seq<string>, a: seq<string>, b: seq<string>, ext: Foreign)
    ensures var mid := ApplyAll(values, a, ext);
      ApplyAll(values, a + b, ext) == if mid.None? then None else ApplyAll(mid.value, b, ext)
    decreases |a|
  {
    if a == [] {
      assert a + b == b;
    } else {
      var ab := a + b;
      assert ab[0] == a[0] && ab[1..] == a[1..] + b;
      var step := ApplyTransformation(values, Strip(a[0]), ext);
      if step.Some? {
        ApplyAllAppend(step.value, a[1..], b, ext);
      }
    }
  }

  /** The result handed back for the final list: one value is returned on its
      own, none becomes `None`, more stay a list. */
  function Shape(values: seq<string>): (r: Value)
    ensures r == Null <==> values == []
    ensures Unshape(r) == values
    ensures |values| == 1 ==> r == Str(values[0])
    ensures |values| >= 2 ==> r.List? && |r.items| == |values|
  {
    if |values| == 1 then Str(values[0])
    else if |values| == 0 then Null
    else List(seq(|values|, i requires 0 <= i < |values| => Str(values[i])))
  }

  /** The list a shaped result stands for: shaping loses nothing. */
  function Unshape(v: Value): seq<string> {
    match v
    case Null => []
    case Str(s) => [s]
    case List(items) => seq(|items|, i requires 0 <= i < |items| => if items[i].Str? then items[i].s else "")
    case _ => []
  }

  /** What `_extract_with_selector` returns; `None` when it raises. */
  function SelectorValue(response: Response, config: string, ext: Foreign): Option<Value> {
    match ParseSelector(config)
    case PageUrl => Some(Str(response.url))
    case Query(selector, transforms) =>
      match ext.css(response.doc, QueryFor(selector))
      case None => None
      case Some(found) =>
        match ApplyAll(found, transforms, ext)
        case None => None
        case Some(values) => Some(Shape(values))
  }

  /** `_extract_with_selector(response, selector_config)`: reassigns the value
      list once per transformation. */
  method ExtractWithSelector(response: Response, config: string, ext: Foreign) returns (r: Option<Value>)
    ensures r == SelectorValue(response, config, ext)
    ensures config == "response.url" ==> r == Some(Str(response.url))
  {
    if config == "response.url" {
      return Some(Str(response.url));
    }
    var parts := Split(config, " | ");
    var selector := parts[0];
    var transforms := if |parts| > 1 then parts[1..] else [];
    var found := ext.css(response.doc, QueryFor(selector));
    if found.None? {
      return None;
    }
    var values := found.value;
    for i := 0 to |transforms|
      invariant ApplyAll(values, transforms[i..], ext) == ApplyAll(found.value, transforms, ext)
    {
      assert transforms[i..][1..] == transforms[i + 1..];
      var next := ApplyTransformation(values, Strip(transforms[i]), ext);
      if next.None? {
        return None;
      }
      values := next.value;
    }
    r := Some(Shape(values));
  }
}
