/** The data-protection pass over an extracted item: pseudonymising the
    fields listed under `extract_fields.pseudonymise`, then dropping the
    columns the compliance file lists under `data_protection.columns_dropped`. */
module Protection {
  import opened Wrappers
  import opened Strings
  import opened Yaml
  import opened Externals

  /** The value a present, truthy field is replaced by under pseudonymisation
      `how` (the configured method); `None` when it raises (it is not a string, or the
      length after `SHA256:` is not an integer). */
  function Pseudonym(how: Value, v: Value, ext: Foreign): (r: Option<Value>)
    ensures !how.Str? ==> r.None?
    ensures how.Str? && !StartsWith(how.s, "SHA256") ==>
      r == Some(if how.s == "Stub" then Str("[REDACTED]") else v)
    ensures how.Str? && StartsWith(how.s, "SHA256") ==>
      && (r.None? ==> Contains(how.s, ":"))
      && (r.Some? ==> var full := ext.sha256hex(Render(v, ext));
            r.value.Str? && |r.value.s| <= 64 && r.value.s == full[..|r.value.s|])
  {
    match how
    case Str(m) =>
      if StartsWith(m, "SHA256") then
        var full := ext.sha256hex(Render(v, ext));
        if Contains(m, ":") then
          match ParseInt(Split(m, ":")[1])
          case Some(n) => Some(Str(Slice(full, 0, n)))
          case None => None
        else Some(Str(full))
      else if m == "Stub" then Some(Str("[REDACTED]"))
      else Some(v)
    case _ => None
  }

  /** A field the pseudonymisation loop acts on: configured, present and truthy. */
  predicate Touched(item: map<string, Value>, config: map<string, Value>, f: string) {
    f in config && f in item && item[f].Truthy()
  }

  predicate Fails(item: map<string, Value>, config: map<string, Value>, f: string, ext: Foreign) {
    Touched(item, config, f) && Pseudonym(config[f], item[f], ext).None?
  }

  /** The item once the fields in `done` have been pseudonymised. */
  function PseudonymisedOver(item: map<string, Value>, config: map<string, Value>, done: set<string>, ext: Foreign): map<string, Value>
    requires forall f :: f in done && Touched(item, config, f) ==> Pseudonym(config[f], item[f], ext).Some?
  {
    map k | k in item :: if k in done && Touched(item, config, k) then Pseudonym(config[k], item[k], ext).value else item[k]
  }

  /** The item after the pseudonymisation loop; `None` when it raises
      (`extract_fields` or its `pseudonymise` entry is not a dict, or one
      method raises). */
  function Pseudonymised(item: map<string, Value>, extractFields: Value, ext: Foreign): Option<map<string, Value>> {
    match Get(extractFields, "pseudonymise", EmptyMap)
    case Some(Map(config)) =>
      if exists f :: f in config && Fails(item, config, f, ext) then None
      else Some(PseudonymisedOver(item, config, config.Keys, ext))
    case _ => None
  }

  /** The keys the compliance file has removed from every item; `None` when
      reading the setting raises. Without a (truthy) compliance file nothing
      is dropped. */
  function DroppedKeys(compliance: Value, ext: Foreign): Option<set<string>> {
    if !compliance.Truthy() then Some({})
    else match Get(compliance, "data_protection", EmptyMap)
      case None => None
      case Some(settings) =>
        match Get(settings, "columns_dropped", List([]))
        case None => None
        case Some(columns) =>
          match Iterate(columns, ext)
          case None => None
          case Some(cs) =>
            if forall i :: 0 <= i < |cs| ==> cs[i].Hashable() then
              Some(set i | 0 <= i < |cs| && cs[i].Str? :: cs[i].s)
            else None
  }

  /** The item `apply_data_protection` returns; `None` when it raises. */
  function Protected(item: map<string, Value>, extractFields: Value, compliance: Value, ext: Foreign): (r: Option<map<string, Value>>)
    ensures r.Some? ==> DroppedKeys(compliance, ext).Some? && r.value.Keys == item.Keys - DroppedKeys(compliance, ext).value
  {
    match Pseudonymised(item, extractFields, ext)
    case None => None
    case Some(p) =>
      match DroppedKeys(compliance, ext)
      case None => None
      case Some(dropped) => Some(p - dropped)
  }

  /** `apply_data_protection(item)`: overwrites the pseudonymised fields,
      then pops the dropped columns. */
  method ApplyDataProtection(item: map<string, Value>, extractFields: Value, compliance: Value, ext: Foreign)
    returns (r: Option<map<string, Value>>)
    ensures r == Protected(item, extractFields, compliance, ext)
  {
    var settings := Get(extractFields, "pseudonymise", EmptyMap);
    if settings.None? || !settings.value.Map? {
      return None;
    }
    var pseudonymised := PseudonymiseFields(item, settings.value.entries, ext);
    if pseudonymised.None? {
      return None;
    }
    r := DropColumns(pseudonymised.value, compliance, ext);
  }

  /** The pseudonymisation loop: each configured, present and truthy field
      is overwritten in turn. */
  method PseudonymiseFields(item: map<string, Value>, config: map<string, Value>, ext: Foreign)
    returns (r: Option<map<string, Value>>)
    ensures r.None? <==> exists f :: f in config && Fails(item, config, f, ext)
    ensures r.Some? ==> r.value == PseudonymisedOver(item, config, config.Keys, ext)
  {
    var result := item;
    var todo := config.Keys;
    while todo != {}
      invariant todo <= config.Keys
      invariant forall f :: f in config && f !in todo ==> !Fails(item, config, f, ext)
      invariant result == PseudonymisedOver(item, config, config.Keys - todo, ext)
      decreases todo
    {
      var f :| f in todo;
      if f in result && result[f].Truthy() {
        var v := Pseudonym(config[f], result[f], ext);
        if v.None? {
          assert Fails(item, config, f, ext);
          return None;
        }
        result := result[f := v.value];
      }
      todo := todo - {f};
    }
    return Some(result);
  }

  /** The column-dropping step: each listed column is popped in turn. */
  method DropColumns(item: map<string, Value>, compliance: Value, ext: Foreign) returns (r: Option<map<string, Value>>)
    ensures r.None? <==> DroppedKeys(compliance, ext).None?
    ensures r.Some? ==> r.value == item - DroppedKeys(compliance, ext).value
  {
    if !compliance.Truthy() {
      assert item == item - {};
      return Some(item);
    }
    var protection := Get(compliance, "data_protection", EmptyMap);
    if protection.None? {
      return None;
    }
    var columnsSetting := Get(protection.value, "columns_dropped", List([]));
    if columnsSetting.None? {
      return None;
    }
    var columns := Iterate(columnsSetting.value, ext);
    if columns.None? {
      return None;
    }
    var cs := columns.value;
    var result := item;
    for i := 0 to |cs|
      invariant forall j :: 0 <= j < i ==> cs[j].Hashable()
      invariant result == item - (set j | 0 <= j < i && cs[j].Str? :: cs[j].s)
    {
      if !cs[i].Hashable() {
        return None;
      }
      if cs[i].Str? {
        result := result - {cs[i].s};
      }
      assert (set j | 0 <= j < i + 1 && cs[j].Str? :: cs[j].s) ==
        (set j | 0 <= j < i && cs[j].Str? :: cs[j].s) + (if cs[i].Str? then {cs[i].s} else {});
    }
    return Some(result);
  }

  // ---------------------------------------------------------------------------
  // What the pass promises
  // ---------------------------------------------------------------------------

  /** A dropped column is gone from the protected item even when it was also
      pseudonymised; every other key survives. */
  lemma DroppedColumnsGone(item: map<string, Value>, extractFields: Value, compliance: Value, ext: Foreign, c: string)
    requires Protected(item, extractFields, compliance, ext).Some?
    ensures var dropped := DroppedKeys(compliance, ext).value;
      var r := Protected(item, extractFields, compliance, ext).value;
      (c in dropped ==> c !in r) && (c in item && c !in dropped ==> c in r)
  {
  }

  /** A field that is not dropped and not pseudonymised (unconfigured,
      missing or falsy) keeps its value. */
  lemma UntouchedUnchanged(item: map<string, Value>, extractFields: Value, compliance: Value, ext: Foreign, k: string)
    requires Protected(item, extractFields, compliance, ext).Some?
    requires k in item && k !in DroppedKeys(compliance, ext).value
    requires !(extractFields.Map? && "pseudonymise" in extractFields.entries
               && Touched(item, extractFields.entries["pseudonymise"].entries, k))
    ensures Protected(item, extractFields, compliance, ext).value[k] == item[k]
  {
  }

  /** `SHA256:N` keeps the first min(N, 64) characters of the hex digest of
      the value's text. */
  lemma HashPrefix(v: Value, n: nat, ext: Foreign)
    ensures var full := ext.sha256hex(Render(v, ext));
      Pseudonym(Str("SHA256:" + IntToString(n)), v, ext) == Some(Str(full[..if n < 64 then n else 64]))
  {
    var digits := IntToString(n);
    var m := "SHA256:" + digits;
    assert StartsWith(m, "SHA256") by { assert m[..6] == "SHA256"; }
    MethodSplit(digits);
    assert Contains(m, ":");
    ParseIntRoundTrip(n);
  }

  /** `SHA256:<digits>` splits at its one colon. */
  lemma MethodSplit(digits: string)
    requires AllDigits(digits)
    ensures Split("SHA256:" + digits, ":") == ["SHA256", digits]
  {
    assert Join([':'], ["SHA256", digits]) == "SHA256:" + digits;
    forall p, k | p in ["SHA256", digits] && 0 <= k < |p|
      ensures p[k] != ':'
    {
      if p == digits {
        assert IsDigit(p[k]);
      }
    }
    SplitJoin(["SHA256", digits], ':');
  }

  /** Plain `SHA256` keeps the whole 64-character digest; `Stub` redacts. */
  lemma WholeHashOrRedacted(v: Value, ext: Foreign)
    ensures Pseudonym(Str("SHA256"), v, ext) == Some(Str(ext.sha256hex(Render(v, ext))))
    ensures Pseudonym(Str("Stub"), v, ext) == Some(Str("[REDACTED]"))
    ensures forall m :: !StartsWith(m, "SHA256") && m != "Stub" ==> Pseudonym(Str(m), v, ext) == Some(v)
  {
    NotContainsSingle("SHA256", ':');
  }
}
