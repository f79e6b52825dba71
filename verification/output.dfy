/** Choosing how the scraped items are saved: the format follows the output
    file's extension, and a CSV file's header row is the sorted union of the
    items' keys. */
module Output {
  import opened Strings

  // ---------------------------------------------------------------------------
  // File format from the extension
  // ---------------------------------------------------------------------------

  datatype Format = Csv | Yaml | Json

  /** The components of a path as `pathlib` keeps them: empty pieces (from
      repeated or trailing slashes) and `.` pieces are dropped. */
  function PathParts(path: string): (r: seq<string>)
    ensures forall k :: 0 <= k < |r| ==> r[k] != "" && r[k] != "."
  {
    var pieces := Split(path, "/");
    KeptParts(pieces)
  }

  function KeptParts(pieces: seq<string>): (r: seq<string>)
    ensures forall k :: 0 <= k < |r| ==> r[k] != "" && r[k] != "."
  {
    if pieces == [] then []
    else
      var rest := KeptParts(pieces[1..]);
      if pieces[0] == "" || pieces[0] == "." then rest else [pieces[0]] + rest
  }

  /** `Path(path).name`: the last component, or the empty string. */
  function PathName(path: string): (r: string)
    ensures r != "."
  {
    var parts := PathParts(path);
    if parts == [] then "" else parts[|parts| - 1]
  }

  /** `Path(path).suffix`: from the last dot of the name, when that dot is
      neither the name's first nor its last character. */
  function Suffix(name: string): (r: string)
    ensures r == [] || (r[0] == '.' && 2 <= |r| < |name| && r == name[|name| - |r|..])
    ensures r != [] ==> forall k :: 1 <= k < |r| ==> r[k] != '.'
  {
    var i := RFind(name, ".");
    if 0 < i < |name| - 1 then
      assert name[i..][0] == name[i..i + 1][0];
      forall k | 1 <= k < |name| - i ensures name[i..][k] != '.' {
        assert !OccursAt(name, ".", i + k);
        assert name[i + k..i + k + 1] == [name[i + k]];
      }
      name[i..]
    else []
  }

  /** The format `save_results` writes: `.csv` gives CSV, `.yaml` or `.yml`
      YAML, anything else JSON; the extension is compared lower-cased. */
  function FormatFor(path: string): (r: Format)
    ensures var ext := Lower(Suffix(PathName(path)));
      && (r == Csv <==> ext == ".csv")
      && (r == Yaml <==> ext == ".yaml" || ext == ".yml")
      && (r == Json <==> ext != ".csv" && ext != ".yaml" && ext != ".yml")
  {
    var ext := Lower(Suffix(PathName(path)));
    if ext == ".csv" then Csv
    else if ext == ".yaml" || ext == ".yml" then Yaml
    else Json
  }

  // ---------------------------------------------------------------------------
  // CSV header: `sorted(fieldnames)`
  // ---------------------------------------------------------------------------

  /** Python's ordering of strings: code point by code point, a proper
      prefix first. */
  predicate StrLess(a: string, b: string)
    decreases |a|
  {
    if a == [] then b != []
    else if b == [] then false
    else if a[0] != b[0] then a[0] < b[0]
    else StrLess(a[1..], b[1..])
  }

  lemma {:induction false} StrLessIrreflexive(a: string)
    ensures !StrLess(a, a)
    decreases |a|
  {
    if a != [] {
      StrLessIrreflexive(a[1..]);
    }
  }

  lemma {:induction false} StrLessTransitive(a: string, b: string, c: string)
    requires StrLess(a, b) && StrLess(b, c)
    ensures StrLess(a, c)
    decreases |a|
  {
    if a != [] && a[0] == b[0] && b[0] == c[0] {
      StrLessTransitive(a[1..], b[1..], c[1..]);
    }
  }

  lemma {:induction false} StrLessTotal(a: string, b: string)
    ensures a == b || StrLess(a, b) || StrLess(b, a)
    decreases |a|
  {
    if a != [] && b != [] && a[0] == b[0] {
      StrLessTotal(a[1..], b[1..]);
      if a[1..] == b[1..] {
        assert a == [a[0]] + a[1..] && b == [b[0]] + b[1..];
      }
    }
  }

  /** Strictly increasing, hence also free of duplicates. */
  predicate Sorted(s: seq<string>) {
    forall i, j :: 0 <= i < j < |s| ==> StrLess(s[i], s[j])
  }

  function Elems(s: seq<string>): set<string> {
    set x | x in s
  }

  /** Adds `k` to a sorted list, keeping it sorted. */
  function Insert(s: seq<string>, k: string): (r: seq<string>)
    requires Sorted(s)
    ensures Sorted(r) && Elems(r) == Elems(s) + {k}
  {
    if s == [] then [k]
    else if k == s[0] then s
    else if StrLess(k, s[0]) then
      forall j | 0 < j < |s| ensures StrLess(k, s[j]) {
        StrLessTransitive(k, s[0], s[j]);
      }
      assert Elems([k] + s) == Elems(s) + {k};
      [k] + s
    else
      StrLessTotal(k, s[0]);
      var rest := Insert(s[1..], k);
      assert Elems(s) == {s[0]} + Elems(s[1..]);
      forall x | x in rest ensures StrLess(s[0], x) {
        if x != k {
          assert x in Elems(rest);
          assert x in Elems(s[1..]);
          var j :| 0 <= j < |s[1..]| && s[1..][j] == x;
          assert s[j + 1] == x;
        }
      }
      var r := [s[0]] + rest;
      forall i, j | 0 <= i < j < |r| ensures StrLess(r[i], r[j]) {
        if i == 0 {
          assert r[j] == rest[j - 1] && rest[j - 1] in rest;
        } else {
          assert r[i] == rest[i - 1] && r[j] == rest[j - 1];
        }
      }
      assert Elems(r) == {s[0]} + Elems(rest);
      r
  }

  /** All keys of all items. */
  function UnionKeys<V>(data: seq<map<string, V>>): set<string> {
    if data == [] then {} else UnionKeys(data[..|data| - 1]) + data[|data| - 1].Keys
  }

  /** `_save_as_csv`'s header row: every key of every item, once, in
      sorted order. */
  method CsvHeader<V>(data: seq<map<string, V>>) returns (header: seq<string>)
    ensures Sorted(header)
    ensures Elems(header) == UnionKeys(data)
  {
    header := [];
    for i := 0 to |data|
      invariant Sorted(header)
      invariant Elems(header) == UnionKeys(data[..i])
    {
      assert data[..i + 1][..i] == data[..i];
      var keys := data[i].Keys;
      while keys != {}
        invariant keys <= data[i].Keys
        invariant Sorted(header)
        invariant Elems(header) == UnionKeys(data[..i]) + (data[i].Keys - keys)
        decreases keys
      {
        var k :| k in keys;
        header := Insert(header, k);
        keys := keys - {k};
      }
    }
    assert data[..|data|] == data;
  }

  /** A sorted list is fixed by its elements: the header is the one list
      `sorted()` would produce from the set of keys. */
  lemma {:induction false} SortedUnique(a: seq<string>, b: seq<string>)
    requires Sorted(a) && Sorted(b) && Elems(a) == Elems(b)
    ensures a == b
    decreases |a|
  {
    ElemsEmpty(a);
    ElemsEmpty(b);
    if a != [] && b != [] {
      assert a[0] in Elems(b) && b[0] in Elems(a);
      if a[0] != b[0] {
        var i :| 0 <= i < |b| && b[i] == a[0];
        var j :| 0 <= j < |a| && a[j] == b[0];
        assert StrLess(b[0], a[0]) by { assert i > 0; }
        assert StrLess(a[0], b[0]) by { assert j > 0; }
        StrLessTransitive(a[0], b[0], a[0]);
        StrLessIrreflexive(a[0]);
      }
      assert Elems(a[1..]) == Elems(a) - {a[0]} by {
        forall x | x in a[1..] ensures x != a[0] {
          var k :| 0 <= k < |a[1..]| && a[1..][k] == x;
          assert StrLess(a[0], a[k + 1]);
          StrLessIrreflexive(x);
        }
        assert a == [a[0]] + a[1..];
      }
      assert Elems(b[1..]) == Elems(b) - {b[0]} by {
        forall x | x in b[1..] ensures x != b[0] {
          var k :| 0 <= k < |b[1..]| && b[1..][k] == x;
          assert StrLess(b[0], b[k + 1]);
          StrLessIrreflexive(x);
        }
        assert b == [b[0]] + b[1..];
      }
      SortedUnique(a[1..], b[1..]);
      assert a == [a[0]] + a[1..] && b == [b[0]] + b[1..];
    }
  }

  lemma ElemsEmpty(s: seq<string>)
    ensures Elems(s) == {} <==> s == []
  {
    if s != [] {
      assert s[0] in Elems(s);
    }
  }
}
