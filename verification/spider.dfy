/** The ethical spider: its configuration, read once from the target file,
    and the per-page state it keeps while crawling (a page counter with a
    hard limit and the list of stored items). */
module Scraper {
  import opened Wrappers
  import opened Yaml
  import opened Externals
  import opened Extraction
  import opened Protection
  import opened Output

  // ---------------------------------------------------------------------------
  // Configuration from the target file
  // ---------------------------------------------------------------------------

  /** What `urlparse(url).netloc` gives: text for a string URL, and the
      empty bytes `b''` for a falsy non-string (`None`, `0`, `False`, `[]`,
      `{}`), which `urlparse` decodes to the empty URL and answers in bytes.
      `b''` never equals a text host, not even `''`. */
  datatype Host = Text(name: string) | NoHostBytes

  /** What `_setup_spider` takes from the target configuration;
      `allowedDomains` is `None` when no start URL is configured (the
      attribute is then left unset). */
  datatype Settings = Settings(
    startUrls: Value,
    allowedDomains: Option<seq<Host>>,
    jobName: Value,
    extractFields: Value,
    outputConfig: Value)

  /** `urlparse` accepts a string it can split or a falsy value; a string
      it cannot split raises ValueError, and a truthy non-string (`True`, a
      non-zero number, a non-empty list or dict) has no `decode` and raises. */
  predicate Parsable(url: Value, ext: Foreign) {
    if url.Str? then ext.netloc(url.s).Some? else !url.Truthy()
  }

  /** `urlparse(url).netloc` of a URL `urlparse` accepts. */
  function HostOf(url: Value, ext: Foreign): (r: Host)
    requires Parsable(url, ext)
    ensures url.Str? ==> r.Text? && ext.netloc(url.s) == Some(r.name)
    ensures !url.Str? ==> r == NoHostBytes
  {
    if url.Str? then Text(ext.netloc(url.s).value) else NoHostBytes
  }

  /** The hosts of `urls`, one per URL, in order. */
  function Netlocs(urls: seq<Value>, ext: Foreign): (r: seq<Host>)
    requires forall i :: 0 <= i < |urls| ==> Parsable(urls[i], ext)
    ensures |r| == |urls|
    ensures forall i :: 0 <= i < |urls| && urls[i].Str? ==> r[i].Text? && ext.netloc(urls[i].s) == Some(r[i].name)
    ensures forall i :: 0 <= i < |urls| && !urls[i].Str? ==> r[i] == NoHostBytes
  {
    seq(|urls|, i requires 0 <= i < |urls| => HostOf(urls[i], ext))
  }

  predicate NoDuplicates<T(==)>(s: seq<T>) {
    forall i, j :: 0 <= i < j < |s| ==> s[i] != s[j]
  }

  /** `domains` lists the values of `xs` in the order in which each first
      appears: any occurrence of a later entry comes after an occurrence of
      every earlier one. */
  predicate FirstSeenOrder<T(==)>(xs: seq<T>, domains: seq<T>) {
    forall i, j, q :: 0 <= i < j < |domains| && 0 <= q < |xs| && xs[q] == domains[j] ==>
      exists p :: 0 <= p < q && xs[p] == domains[i]
  }

  /** The allowed-domains loop of `_setup_spider`: the host of each start URL,
      appended unless already listed. `None` when `urlparse` raises on a
      start URL: a truthy non-string, or a string it cannot split. */
  method DedupeDomains(urls: seq<Value>, ext: Foreign) returns (r: Option<seq<Host>>)
    ensures r.None? <==> exists i :: 0 <= i < |urls| && !Parsable(urls[i], ext)
    ensures r.Some? ==> var xs := Netlocs(urls, ext);
      && NoDuplicates(r.value)
      && (forall d :: d in r.value <==> d in xs)
      && FirstSeenOrder(xs, r.value)
  {
    var domains: seq<Host> := [];
    ghost var hosts: seq<Host> := [];
    for i := 0 to |urls|
      invariant forall k :: 0 <= k < i ==> Parsable(urls[k], ext)
      invariant |hosts| == i && forall k :: 0 <= k < i ==> hosts[k] == HostOf(urls[k], ext)
      invariant NoDuplicates(domains)
      invariant forall d :: d in domains <==> d in hosts
      invariant FirstSeenOrder(hosts, domains)
    {
      var url := urls[i];
      var domain: Host;
      if url.Str? {
        var host := ext.netloc(url.s);
        if host.None? {
          return None;
        }
        domain := Text(host.value);
      } else if url.Truthy() {
        return None;
      } else {
        domain := NoHostBytes;
      }
      AppendKeepsOrder(hosts, domains, domain);
      if domain !in domains {
        domains := domains + [domain];
      }
      hosts := hosts + [domain];
    }
    assert hosts == Netlocs(urls, ext);
    return Some(domains);
  }

  /** One step of the loop keeps the domains in first-seen order. */
  lemma AppendKeepsOrder<T>(hosts: seq<T>, domains: seq<T>, x: T)
    requires FirstSeenOrder(hosts, domains)
    requires forall d :: d in domains <==> d in hosts
    ensures x !in domains ==> FirstSeenOrder(hosts + [x], domains + [x])
    ensures x in domains ==> FirstSeenOrder(hosts + [x], domains)
  {
    if x !in domains {
      AppendNew(hosts, domains, x);
    } else {
      AppendSeen(hosts, domains, x);
    }
  }

  lemma AppendNew<T>(hosts: seq<T>, domains: seq<T>, x: T)
    requires FirstSeenOrder(hosts, domains)
    requires forall d :: d in domains <==> d in hosts
    requires x !in domains
    ensures FirstSeenOrder(hosts + [x], domains + [x])
  {
    var hs := hosts + [x];
    var ds := domains + [x];
    var n := |hosts|;
    forall a, b, q | 0 <= a < b < |ds| && 0 <= q < |hs| && hs[q] == ds[b]
      ensures exists p :: 0 <= p < q && hs[p] == ds[a]
    {
      if b == |domains| {
        assert ds[a] == domains[a] && domains[a] in hosts;
        var p :| 0 <= p < n && hosts[p] == domains[a];
        assert x !in hosts;
        assert hs[p] == ds[a];
      } else {
        SeenBefore(hosts, domains, a, b, q);
        var p :| 0 <= p < q && p < |hosts| && hosts[p] == domains[a];
        assert hs[p] == ds[a];
      }
    }
  }

  lemma AppendSeen<T>(hosts: seq<T>, domains: seq<T>, x: T)
    requires FirstSeenOrder(hosts, domains)
    requires forall d :: d in domains <==> d in hosts
    requires x in domains
    ensures FirstSeenOrder(hosts + [x], domains)
  {
    var hs := hosts + [x];
    forall a, b, q | 0 <= a < b < |domains| && 0 <= q < |hs| && hs[q] == domains[b]
      ensures exists p :: 0 <= p < q && hs[p] == domains[a]
    {
      SeenBefore(hosts, domains, a, b, q);
      var p :| 0 <= p < q && p < |hosts| && hosts[p] == domains[a];
      assert hs[p] == domains[a];
    }
  }

  /** An occurrence, old or newly appended, of an already listed domain comes
      after an occurrence of every domain listed before it. */
  lemma SeenBefore<T>(hosts: seq<T>, domains: seq<T>, a: nat, b: nat, q: nat)
    requires FirstSeenOrder(hosts, domains)
    requires forall d :: d in domains <==> d in hosts
    requires a < b < |domains| && q <= |hosts|
    requires q < |hosts| ==> hosts[q] == domains[b]
    ensures exists p :: 0 <= p < q && p < |hosts| && hosts[p] == domains[a]
  {
    var q' := q;
    if q == |hosts| {
      assert domains[b] in hosts;
      q' :| 0 <= q' < |hosts| && hosts[q'] == domains[b];
    }
    SeenAt(hosts, domains, a, b, q');
    var p :| 0 <= p < q' && hosts[p] == domains[a];
    assert 0 <= p < q && p < |hosts|;
  }

  lemma SeenAt<T>(xs: seq<T>, domains: seq<T>, i: nat, j: nat, q: nat)
    requires FirstSeenOrder(xs, domains)
    requires i < j < |domains| && q < |xs| && xs[q] == domains[j]
    ensures exists p :: 0 <= p < q && xs[p] == domains[i]
  {
    assert domains[i] in domains;
  }

  /** `start_urls` can be iterated and `urlparse` accepts every entry. */
  predicate UrlsUsable(startUrls: Value, ext: Foreign) {
    var urls := Iterate(startUrls, ext);
    urls.Some? && forall i :: 0 <= i < |urls.value| ==> Parsable(urls.value[i], ext)
  }

  /** `_setup_spider` over the loaded target configuration; `None` when the
      spider cannot be built: an empty configuration leaves the job name
      unset (and setting up logging then raises), a configuration that is
      not a dict, or a start URL that `urlparse` rejects, raises. */
  method SetupSpider(targetConfig: Value, ext: Foreign) returns (r: Option<Settings>)
    ensures r.Some? <==> (
      && targetConfig.Truthy()
      && targetConfig.Map?
      && var start := Get(targetConfig, "start_urls", List([])).value;
         !start.Truthy() || UrlsUsable(start, ext))
    ensures r.Some? ==> var s := r.value;
      && s.startUrls == Get(targetConfig, "start_urls", List([])).value
      && s.jobName == Get(targetConfig, "job_name", Str("ethoscraper_job")).value
      && s.extractFields == Get(targetConfig, "extract_fields", EmptyMap).value
      && s.outputConfig == Get(targetConfig, "output", EmptyMap).value
      && (s.allowedDomains.Some? <==> s.startUrls.Truthy())
      && (s.allowedDomains.Some? ==> var xs := Netlocs(Iterate(s.startUrls, ext).value, ext);
            && NoDuplicates(s.allowedDomains.value)
            && (forall d :: d in s.allowedDomains.value <==> d in xs)
            && FirstSeenOrder(xs, s.allowedDomains.value))
  {
    if !targetConfig.Truthy() || !targetConfig.Map? {
      return None;
    }
    var startUrls := Get(targetConfig, "start_urls", List([])).value;
    var allowed: Option<seq<Host>> := None;
    if startUrls.Truthy() {
      var urls := Iterate(startUrls, ext);
      if urls.None? {
        return None;
      }
      allowed := DedupeDomains(urls.value, ext);
      if allowed.None? {
        return None;
      }
    }
    var jobName := Get(targetConfig, "job_name", Str("ethoscraper_job")).value;
    var extractFields := Get(targetConfig, "extract_fields", EmptyMap).value;
    var outputConfig := Get(targetConfig, "output", EmptyMap).value;
    return Some(Settings(startUrls, allowed, jobName, extractFields, outputConfig));
  }

  // ---------------------------------------------------------------------------
  // The spider
  // ---------------------------------------------------------------------------

  /** The item stored for a page: extracted, then protected; `None` when
      either step raises. */
  function PageItem(extractFields: Value, compliance: Value, response: Response, now: string, ext: Foreign): Option<map<string, Value>> {
    match ConfiguredItem(extractFields, response, now, ext)
    case None => None
    case Some(item) => Protected(item, extractFields, compliance, ext)
  }

  /** How one call of `parse_item` ends. */
  datatype PageOutcome =
    | PageLimitReached                  // CloseSpider raised before anything changed
    | Stored(item: map<string, Value>)  // the item was appended and yielded
    | Raised                            // extraction or protection raised after the count

  /** Where `save_results` writes, or why it writes nothing. */
  datatype SaveOutcome =
    | NothingToSave
    | Write(format: Format, file: string)
    | SaveRaised                        // the output configuration cannot be read

  class Spider {
    const settings: Settings
    const compliance: Value
    const maxPages: int
    const ext: Foreign
    var pagesScraped: nat
    var scrapedData: seq<map<string, Value>>
    /** Pages counted whose processing raised, so stored nothing. */
    ghost var failedPages: nat

    /** Every counted page stored exactly one item or raised, and the count
        never passes the limit. */
    ghost predicate Valid()
      reads this
    {
      && pagesScraped == |scrapedData| + failedPages
      && (pagesScraped == 0 || pagesScraped <= maxPages)
    }

    constructor (settings: Settings, compliance: Value, maxPages: int, ext: Foreign)
      ensures Valid()
      ensures this.settings == settings && this.compliance == compliance
      ensures this.maxPages == maxPages && this.ext == ext
      ensures pagesScraped == 0 && scrapedData == []
    {
      this.settings := settings;
      this.compliance := compliance;
      this.maxPages := maxPages;
      this.ext := ext;
      pagesScraped := 0;
      scrapedData := [];
      failedPages := 0;
    }

    /** `parse_item(response)`: refuses once the limit is reached; otherwise
        counts the page, then extracts, protects and stores its item. */
    method ParseItem(response: Response, now: string) returns (outcome: PageOutcome)
      requires Valid()
      modifies this
      ensures Valid()
      ensures old(pagesScraped) >= maxPages ==>
        outcome == PageLimitReached && pagesScraped == old(pagesScraped) && scrapedData == old(scrapedData)
      ensures old(pagesScraped) < maxPages ==> pagesScraped == old(pagesScraped) + 1
      ensures old(pagesScraped) < maxPages ==>
        match PageItem(settings.extractFields, compliance, response, now, ext)
        case Some(item) => outcome == Stored(item) && scrapedData == old(scrapedData) + [item]
        case None => outcome == Raised && scrapedData == old(scrapedData)
    {
      if pagesScraped >= maxPages {
        return PageLimitReached;
      }
      pagesScraped := pagesScraped + 1;
      var item := ExtractConfiguredData(settings.extractFields, response, now, ext);
      if item.None? {
        failedPages := failedPages + 1;
        return Raised;
      }
      var protected := ApplyDataProtection(item.value, settings.extractFields, compliance, ext);
      if protected.None? {
        failedPages := failedPages + 1;
        return Raised;
      }
      scrapedData := scrapedData + [protected.value];
      return Stored(protected.value);
    }

    /** `save_results`: nothing without data; otherwise the configured file,
        or `defaultFile`, in the format its extension selects. */
    function SaveTarget(defaultFile: string): (r: SaveOutcome)
      reads this
      ensures r == NothingToSave <==> scrapedData == []
      ensures r.Write? ==> r.format == FormatFor(r.file)
      ensures scrapedData != [] && settings.outputConfig.Map? ==>
        var file := Get(settings.outputConfig, "file", Str(defaultFile)).value;
        (r.Write? <==> file.Str?) && (r.Write? ==> r.file == file.s)
    ensures scrapedData != [] && !settings.outputConfig.Map? ==> r == SaveRaised
    {
      if scrapedData == [] then NothingToSave
      else match Get(settings.outputConfig, "file", Str(defaultFile))
        case Some(Str(file)) => Write(FormatFor(file), file)
        case _ => SaveRaised
    }

    /** `_save_as_csv`'s header row for the stored items. */
    method CsvFieldnames() returns (header: seq<string>)
      ensures Sorted(header) && Elems(header) == UnionKeys(scrapedData)
    {
      header := CsvHeader(scrapedData);
    }
  }

  /** Counting starts at zero and stops at the limit: a spider never counts
      more pages than allowed, and never stores more items than it counted. */
  lemma PageBound(s: Spider)
    requires s.Valid()
    ensures s.pagesScraped <= if s.maxPages < 0 then 0 else s.maxPages
    ensures |s.scrapedData| <= s.pagesScraped
  {
  }
}
