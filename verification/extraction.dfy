/** Building the item dict for one page from the `extract_fields` section
    of a target configuration. */
module Extraction {
  import opened Wrappers
  import opened Yaml
  import opened Externals
  import opened Transform

  /** Entries of `extract_fields` that configure the extraction rather than
      name a field. */
  const Reserved: set<string> := {"placeholder_value", "pseudonymise"}

  /** The keys every item carries whatever the configuration says. */
  const MetadataKeys: set<string> := {"scraped_at", "source_url", "response_time"}

  /** What a field whose extraction raised is set to. */
  function Placeholder(fields: map<string, Value>): Value {
    if "placeholder_value" in fields then fields["placeholder_value"] else Str("[ERROR]")
  }

  /** The value extracted for one field configuration; `None` when the
      extraction raises. A selector string is run; a dict goes to
      `_extract_complex_field`, which yields `None`, and so does any other
      kind of configuration. */
  function FieldValue(config: Value, response: Response, ext: Foreign): (r: Option<Value>)
    ensures !config.Str? ==> r == Some(Null)
    ensures config == Str("response.url") ==> r == Some(Str(response.url))
  {
    match config
    case Str(selector) => SelectorValue(response, selector, ext)
    case Map(_) => Some(Null)
    case _ => Some(Null)
  }

  /** What ends up under a configured field: its value, or the placeholder
      when extracting it raised. */
  function FieldEntry(fields: map<string, Value>, f: string, response: Response, ext: Foreign): Value
    requires f in fields
  {
    FieldValue(fields[f], response, ext).GetOr(Placeholder(fields))
  }

  /** The item `extract_configured_data` returns; `None` when it raises
      (`extract_fields` is not a dict). */
  function ConfiguredItem(extractFields: Value, response: Response, now: string, ext: Foreign): (r: Option<map<string, Value>>)
    ensures r.Some? <==> extractFields.Map?
    ensures r.Some? ==> var item, fields := r.value, extractFields.entries;
      && item.Keys == (fields.Keys - Reserved) + MetadataKeys
      && (forall k :: k in Reserved ==> k !in item)
      && item["scraped_at"] == Str(now)
      && item["source_url"] == Str(response.url)
      && item["response_time"] == (if response.latency.Some? then response.latency.value else Int(0))
      && (forall f :: f in fields && f !in Reserved && f !in MetadataKeys ==>
            && (!fields[f].Str? ==> item[f] == Null)
            && (FieldValue(fields[f], response, ext).None? ==> item[f] == Placeholder(fields))
            && (FieldValue(fields[f], response, ext).Some? ==> item[f] == FieldValue(fields[f], response, ext).value))
  {
    match extractFields
    case Map(fields) =>
      var extracted := map f | f in fields && f !in Reserved :: FieldEntry(fields, f, response, ext);
      Some(extracted["scraped_at" := Str(now)]["source_url" := Str(response.url)]["response_time" := response.latency.GetOr(Int(0))])
    case _ => None
  }

  /** `extract_configured_data(response)`: fills the item one configured
      field at a time, then adds the metadata. */
  method ExtractConfiguredData(extractFields: Value, response: Response, now: string, ext: Foreign)
    returns (r: Option<map<string, Value>>)
    ensures r == ConfiguredItem(extractFields, response, now, ext)
  {
    if !extractFields.Map? {
      return None;
    }
    var fields := extractFields.entries;
    var item: map<string, Value> := map[];
    var todo := fields.Keys;
    while todo != {}
      invariant todo <= fields.Keys
      invariant item == map f | f in fields && f !in todo && f !in Reserved :: FieldEntry(fields, f, response, ext)
      decreases todo
    {
      var f :| f in todo;
      if f !in Reserved {
        var value := Null;
        if fields[f].Str? {
          var extracted := ExtractWithSelector(response, fields[f].s, ext);
          value := extracted.GetOr(Placeholder(fields));
        }
        item := item[f := value];
      }
      todo := todo - {f};
    }
    assert item == map f | f in fields && f !in Reserved :: FieldEntry(fields, f, response, ext);
    item := item["scraped_at" := Str(now)];
    item := item["source_url" := Str(response.url)];
    item := item["response_time" := response.latency.GetOr(Int(0))];
    return Some(item);
  }
}
