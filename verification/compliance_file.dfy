/** Recording wizard answers in the compliance YAML document: the section
    named by a dotted path is found (missing sections are created empty) and
    the answers are merged into it. */
module ComplianceFile {
  import opened Wrappers
  import opened Strings
  import opened Yaml

  /** The top-level section of the compliance document that holds the
      Legitimate Interest Assessment. */
  const LiaSection := "legitimate_interest_assessment"

  /** The last step: merge `data` into `section[key]`, creating it as `{}`
      when missing. `None` when Python raises: `section` is not a dict (a
      list or string only gets through when `key` is in it and there is
      nothing to write), or the existing `section[key]` is not a dict while
      there is something to write. */
  function WriteFinal(section: Value, key: string, data: map<string, Value>): Option<Value> {
    match section
    case Map(m) =>
      var target := if key in m then m[key] else EmptyMap;
      if data == map[] then Some(Map(m[key := target]))
      else if target.Map? then Some(Map(m[key := Map(target.entries + data)]))
      else None
    case List(items) => if Str(key) in items && data == map[] then Some(section) else None
    case Str(s) => if Contains(s, key) && data == map[] then Some(section) else None
    case _ => None
  }

  /** The document after merging `data` into the section at `parts`; `None`
      when the walk raises because a section on the way is not a dict. */
  function WriteAt(section: Value, parts: seq<string>, data: map<string, Value>): Option<Value>
    requires |parts| >= 1
    decreases |parts|
  {
    if |parts| == 1 then WriteFinal(section, parts[0], data)
    else match section
      case Map(m) =>
        var child := if parts[0] in m then m[parts[0]] else EmptyMap;
        (match WriteAt(child, parts[1..], data)
         case None => None
         case Some(c) => Some(Map(m[parts[0] := c])))
      case _ => None
  }

  /** `_write_to_compliance_yaml(path, section_path, data)` on the loaded document. */
  function WriteCompliance(doc: Value, sectionPath: string, data: map<string, Value>): Option<Value> {
    WriteAt(doc, Split(sectionPath, "."), data)
  }

  // ---------------------------------------------------------------------------
  // The walk, step by step
  // ---------------------------------------------------------------------------

  /** A dict the walk went through, and the key it went down. */
  datatype Frame = Frame(entries: map<string, Value>, key: string)

  /** Puts `v` back in place under the frames walked through, innermost last. */
  function Plug(frames: seq<Frame>, v: Value): Value
    decreases |frames|
  {
    if frames == [] then v
    else
      var f := frames[|frames| - 1];
      Plug(frames[..|frames| - 1], Map(f.entries[f.key := v]))
  }

  function PlugResult(frames: seq<Frame>, r: Option<Value>): Option<Value> {
    match r
    case None => None
    case Some(v) => Some(Plug(frames, v))
  }

  lemma PlugStep(frames: seq<Frame>, f: Frame)
    ensures forall v :: Plug(frames + [f], v) == Plug(frames, Map(f.entries[f.key := v]))
  {
    assert (frames + [f])[..|frames|] == frames;
  }

  /** Going down one more parent section is one more frame. */
  lemma PlugResultStep(frames: seq<Frame>, f: Frame, r: Option<Value>)
    ensures PlugResult(frames, PlugResult([f], r)) == PlugResult(frames + [f], r)
  {
    PlugStep(frames, f);
    if r.Some? {
      assert Plug([f], r.value) == Plug([], Map(f.entries[f.key := r.value]));
    }
  }

  /** One step of the walk through the parent section `current`, whose
      entries `m` have the next key created as `{}` when missing. */
  lemma StepDown(current: Value, rest: seq<string>, data: map<string, Value>, m: map<string, Value>)
    requires |rest| >= 2 && current.Map?
    requires m == if rest[0] in current.entries then current.entries else current.entries[rest[0] := EmptyMap]
    ensures WriteAt(current, rest, data) == PlugResult([Frame(m, rest[0])], WriteAt(m[rest[0]], rest[1..], data))
  {
    var r := WriteAt(m[rest[0]], rest[1..], data);
    if r.Some? {
      assert m[rest[0] := r.value] == current.entries[rest[0] := r.value];
      assert Plug([Frame(m, rest[0])], r.value) == Plug([], Map(m[rest[0] := r.value]));
    }
  }

  /** The navigation loop of `_write_to_compliance_yaml`: walks down the
      parent sections, creating each missing one as `{}`, then merges `data`
      into the final section. */
  method WriteSection(doc: Value, sectionPath: string, data: map<string, Value>) returns (r: Option<Value>)
    ensures r == WriteCompliance(doc, sectionPath, data)
  {
    var parts := Split(sectionPath, ".");
    var current := doc;
    var frames: seq<Frame> := [];
    for i := 0 to |parts| - 1
      invariant WriteAt(doc, parts, data) == PlugResult(frames, WriteAt(current, parts[i..], data))
    {
      if !current.Map? {
        assert WriteAt(current, parts[i..], data) == None;
        return None;
      }
      var m := current.entries;
      if parts[i] !in m {
        m := m[parts[i] := EmptyMap];
      }
      StepDown(current, parts[i..], data, m);
      assert parts[i..][0] == parts[i] && parts[i..][1..] == parts[i + 1..];
      PlugResultStep(frames, Frame(m, parts[i]), WriteAt(m[parts[i]], parts[i + 1..], data));
      frames := frames + [Frame(m, parts[i])];
      current := m[parts[i]];
    }
    assert parts[|parts| - 1..] == [parts[|parts| - 1]];
    r := PlugResult(frames, WriteFinal(current, parts[|parts| - 1], data));
  }

  // ---------------------------------------------------------------------------
  // What a write does
  // ---------------------------------------------------------------------------

  /** The entries of the section at `parts` before the write; `{}` when it is missing. */
  function SectionBefore(doc: Value, parts: seq<string>): map<string, Value> {
    match Lookup(doc, parts)
    case Some(Map(e)) => e
    case _ => map[]
  }

  /** After a successful write, the section holds its previous entries
      updated with `data` (the `update` loop of the source). */
  lemma {:induction false} WrittenSection(doc: Value, parts: seq<string>, data: map<string, Value>)
    requires |parts| >= 1 && data != map[]
    requires WriteAt(doc, parts, data).Some?
    ensures Lookup(WriteAt(doc, parts, data).value, parts) == Some(Map(SectionBefore(doc, parts) + data))
    decreases |parts|
  {
    var m := doc.entries;
    if |parts| > 1 {
      var child := if parts[0] in m then m[parts[0]] else EmptyMap;
      WrittenSection(child, parts[1..], data);
      var c := WriteAt(child, parts[1..], data).value;
      assert WriteAt(doc, parts, data).value == Map(m[parts[0] := c]);
      assert Lookup(Map(m[parts[0] := c]), parts) == Lookup(c, parts[1..]);
      if parts[0] !in m {
        assert Lookup(EmptyMap, parts[1..]) == None;
      } else {
        assert Lookup(doc, parts) == Lookup(child, parts[1..]);
      }
    } else {
      var target := if parts[0] in m then m[parts[0]] else EmptyMap;
      assert WriteAt(doc, parts, data).value == Map(m[parts[0] := Map(target.entries + data)]);
      assert Lookup(Map(target.entries + data), parts[1..]) == Some(Map(target.entries + data));
      if parts[0] in m {
        assert Lookup(doc, parts) == Some(target);
      }
    }
  }

  /** A path that leaves the written path somewhere leads to what it led to before. */
  predicate Diverges(q: seq<string>, parts: seq<string>) {
    exists i :: 0 <= i < |q| && i < |parts| && q[i] != parts[i]
  }

  lemma {:induction false} OtherSectionsUnchanged(doc: Value, parts: seq<string>, data: map<string, Value>, q: seq<string>)
    requires |parts| >= 1 && WriteAt(doc, parts, data).Some?
    requires Diverges(q, parts)
    ensures Lookup(WriteAt(doc, parts, data).value, q) == Lookup(doc, q)
    decreases |parts|
  {
    var i :| 0 <= i < |q| && i < |parts| && q[i] != parts[i];
    if q[0] == parts[0] {
      var m := doc.entries;
      var child := if parts[0] in m then m[parts[0]] else EmptyMap;
      assert q[1..][i - 1] != parts[1..][i - 1];
      OtherSectionsUnchanged(child, parts[1..], data, q[1..]);
    }
  }

  /** Every section on the way that already exists is a dict (and so is the
      target itself when there is something to write). */
  predicate Writable(v: Value, parts: seq<string>, data: map<string, Value>)
    requires |parts| >= 1
    decreases |parts|
  {
    v.Map? &&
    (parts[0] !in v.entries ||
     if |parts| == 1 then data == map[] || v.entries[parts[0]].Map?
     else Writable(v.entries[parts[0]], parts[1..], data))
  }

  /** Missing sections are created, so a path through a fresh `{}` always works. */
  lemma {:induction false} FreshPathWritable(parts: seq<string>, data: map<string, Value>)
    requires |parts| >= 1
    ensures WriteAt(EmptyMap, parts, data).Some?
    decreases |parts|
  {
    if |parts| > 1 {
      FreshPathWritable(parts[1..], data);
    }
  }

  lemma {:induction false} WritableSucceeds(doc: Value, parts: seq<string>, data: map<string, Value>)
    requires |parts| >= 1 && Writable(doc, parts, data)
    ensures WriteAt(doc, parts, data).Some?
    decreases |parts|
  {
    if |parts| > 1 {
      if parts[0] in doc.entries {
        WritableSucceeds(doc.entries[parts[0]], parts[1..], data);
      } else {
        FreshPathWritable(parts[1..], data);
      }
    }
  }

  /** A non-dict parent section, or a non-dict target when there is
      something to write, makes the write raise. */
  lemma {:induction false} NonDictBlocks(doc: Value, parts: seq<string>, data: map<string, Value>, j: nat, v: Value)
    requires |parts| >= 1 && j <= |parts|
    requires Lookup(doc, parts[..j]) == Some(v) && !v.Map?
    requires j < |parts| - 1 || data != map[]
    ensures WriteAt(doc, parts, data).None?
    decreases |parts|
  {
    if j > 0 {
      assert parts[..j][0] == parts[0] && parts[..j][1..] == parts[1..][..j - 1];
      if |parts| > 1 {
        NonDictBlocks(doc.entries[parts[0]], parts[1..], data, j - 1, v);
      }
    }
  }
}
