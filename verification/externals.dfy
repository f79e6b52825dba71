/** What EthoScraper delegates to libraries whose code is not part of this
    model: Scrapy's CSS selector engine, `re.sub`, SHA-256, `urlparse`,
    Python's `str()` of floats and containers, and the insertion order of a
    dict. Each is an uninterpreted function supplied by the caller; the
    only facts assumed about them are the ones their types state. */
module Externals {
  import opened Wrappers
  import opened Strings
  import opened Yaml

  /** A lowercase hexadecimal SHA-256 digest: always 64 characters. */
  type Digest = s: string | |s| == 64
    witness "0000000000000000000000000000000000000000000000000000000000000000"

  /** The HTML document of a downloaded page. */
  datatype Document = Document(html: string)

  /** A downloaded page: its URL, its document and the download latency
      Scrapy recorded in `response.meta`, when it did. */
  datatype Response = Response(url: string, doc: Document, latency: Option<Value>)

  datatype Foreign = Foreign(
    /** `response.css(selector).getall()`; `None` when the selector is
        rejected (the selector library raises). */
    css: (Document, string) -> Option<seq<string>>,
    /** `re.sub(pattern, '', text)`; `None` when the pattern does not compile. */
    regexSub: (string, string) -> Option<string>,
    /** `hashlib.sha256(text.encode()).hexdigest()` */
    sha256hex: string -> Digest,
    /** `urlparse(url).netloc`; `None` when `urlparse` rejects the text
        (a ValueError, as for an unclosed IPv6 bracket). */
    netloc: string -> Option<string>,
    /** `str(x)` for the values whose text Python's runtime decides: floats,
        lists and dicts. */
    show: Value -> string,
    /** The order in which iterating a dict visits its keys (insertion order,
        which a Dafny `map` does not record). */
    keyOrder: map<string, Value> -> seq<string>)

  /** Python's `str(v)`. */
  function Render(v: Value, ext: Foreign): string {
    match v
    case Null => "None"
    case Bool(b) => if b then "True" else "False"
    case Int(i) => IntToString(i)
    case Str(s) => s
    case _ => ext.show(v)
  }

  /** `for x in v`: a list yields its items and a string its characters; a
      dict yields the keys `keyOrder` lists, and the model does not constrain
      that list (that it holds each key once is not stated); anything else is
      not iterable (TypeError, `None`). */
  function Iterate(v: Value, ext: Foreign): (r: Option<seq<Value>>)
    ensures v.List? ==> r == Some(v.items)
    ensures v.Str? ==> r.Some? && |r.value| == |v.s|
    ensures r.None? <==> !(v.List? || v.Str? || v.Map?)
  {
    match v
    case List(xs) => Some(xs)
    case Str(s) => Some(seq(|s|, i requires 0 <= i < |s| => Str([s[i]])))
    case Map(m) =>
      var ks := ext.keyOrder(m);
      Some(seq(|ks|, i requires 0 <= i < |ks| => Str(ks[i])))
    case _ => None
  }
}
