/** The file-name rules of tools/download_all.py: which directory-listing
    links are workbooks to fetch, in which order they are fetched, and the
    local name and manifest entry each fetched workbook gets. Fetching, URL
    resolution and URL parsing are given as functions. */
module Download {
  import opened Wrappers
  import opened Text
  import opened Order
  import opened YearMonth
  import opened Seqs

  /** The download directory, as a path prefix. */
  const DownloadDir: string := "downloads/"

  /** The index of the last `c` in `s`. */
  function LastIndexOf(s: string, c: char): (r: Option<nat>)
    ensures r.Some? ==> r.value < |s| && s[r.value] == c && forall j :: r.value < j < |s| ==> s[j] != c
    ensures r.None? ==> forall j :: 0 <= j < |s| ==> s[j] != c
  {
    if s == [] then None
    else if s[|s| - 1] == c then Some(|s| - 1)
    else LastIndexOf(s[..|s| - 1], c)
  }

  /** `PurePosixPath(path).name`: the last component, where empty and "."
      components do not count. */
  function PathName(path: string): (n: string)
    ensures forall j :: 0 <= j < |n| ==> n[j] != '/'
    ensures n != "."
    decreases |path|
  {
    match LastIndexOf(path, '/')
    case None => if path == "." then "" else path
    case Some(k) =>
      var seg := path[k + 1..];
      if seg == "" || seg == "." then PathName(path[..k]) else seg
  }

  /** `ATM.*\.XLSX` without its anchors, ignoring case: "ATM", then any
      characters but a line feed, then ".XLSX". */
  predicate AtmXlsxText(s: string) {
    |s| >= 8 && Upper(s[..3]) == "ATM" && Upper(s[|s| - 5..]) == ".XLSX" &&
    forall i :: 3 <= i < |s| - 5 ==> s[i] != '\n'
  }

  /** `re.match(r"(?i)^ATM.*\.XLSX$", fn)`: `$` also matches before a final
      line feed. */
  predicate IsXlsxLinkName(fn: string) {
    AtmXlsxText(fn) || (fn != [] && fn[|fn| - 1] == '\n' && AtmXlsxText(fn[..|fn| - 1]))
  }

  /** The name without a final line feed: the part the pattern spans. */
  function Core(fn: string): string {
    if fn != [] && fn[|fn| - 1] == '\n' && AtmXlsxText(fn[..|fn| - 1]) then fn[..|fn| - 1] else fn
  }

  /** `PurePath.suffix`: from the last '.', unless that dot opens or ends
      the name. */
  function Suffix(name: string): (r: string)
    ensures |r| <= |name| && r == name[|name| - |r|..]
  {
    match LastIndexOf(name, '.')
    case None => ""
    case Some(i) => if 0 < i < |name| - 1 then name[i..] else ""
  }

  /** `(DL / name).with_suffix(".xlsx").name`: the suffix replaced by, or
      extended with, ".xlsx"; an empty name leaves the download directory
      itself to be renamed. */
  function LocalName(name: string): string {
    if name == "" then "downloads.xlsx" else name[..|name| - |Suffix(name)|] + ".xlsx"
  }

  /** One line of the download manifest. */
  datatype ManifestEntry = ManifestEntry(
    path: string, year: Option<int>, month: Option<int>, sourceUrl: string, linkText: string)

  /** The links kept from the listing: the non-empty hrefs, resolved, whose
      URL path ends in a workbook name. */
  ghost predicate IsKeptLink(u: string, hrefs: seq<string>, resolve: string -> string, urlPath: string -> string) {
    IsXlsxLinkName(PathName(urlPath(u))) &&
    exists i :: 0 <= i < |hrefs| && hrefs[i] != "" && resolve(hrefs[i]) == u
  }

  /** The collection loop and `sorted(hrefs)`: each kept URL once, ascending. */
  method CollectLinks(hrefs: seq<string>, resolve: string -> string, urlPath: string -> string)
    returns (urls: seq<string>)
    ensures StrictlySorted(urls)
    ensures forall u :: u in urls <==> IsKeptLink(u, hrefs, resolve, urlPath)
  {
    var kept: set<string> := {};
    var i := 0;
    while i < |hrefs|
      invariant 0 <= i <= |hrefs|
      invariant forall u :: u in kept <==> (IsXlsxLinkName(PathName(urlPath(u))) &&
        exists j :: 0 <= j < i && hrefs[j] != "" && resolve(hrefs[j]) == u)
    {
      var href := hrefs[i];
      if href != "" {
        var absUrl := resolve(href);
        var fn := PathName(urlPath(absUrl));
        if IsXlsxLinkName(fn) {
          kept := kept + {absUrl};
        }
      }
      i := i + 1;
    }
    urls := SortSet(kept);
  }

  /** The manifest entry of a fetched workbook: its local path, the year and
      month its local name gives, the URL and an empty link text. */
  function EntryFor(url: string, urlPath: string -> string): ManifestEntry
  {
    var local := LocalName(PathName(urlPath(url)));
    var ym := ParseYearMonthFromFilename(local);
    ManifestEntry(DownloadDir + local,
      if ym.Some? then Some(ym.value.year) else None,
      if ym.Some? then Some(ym.value.month) else None,
      url, "")
  }

  /** `EntryFor` as a function of the URL. */
  function EntryMaker(urlPath: string -> string): string -> ManifestEntry {
    u => EntryFor(u, urlPath)
  }

  /** The entries for `urls` in order, leaving out the failed fetches. */
  function EntriesOf(urls: seq<string>, urlPath: string -> string, fetched: string -> bool): seq<ManifestEntry>
  {
    FilterMap(urls, fetched, EntryMaker(urlPath))
  }

  /** The download loop: visits the URLs in order, skips a failed fetch and
      records an entry for each other one. */
  method BuildEntries(urls: seq<string>, urlPath: string -> string, fetched: string -> bool)
    returns (entries: seq<ManifestEntry>)
    ensures entries == EntriesOf(urls, urlPath, fetched)
  {
    entries := [];
    var i := 0;
    while i < |urls|
      invariant 0 <= i <= |urls|
      invariant entries == EntriesOf(urls[..i], urlPath, fetched)
    {
      assert urls[..i + 1][..i] == urls[..i];
      var url := urls[i];
      if fetched(url) {
        entries := entries + [EntryFor(url, urlPath)];
      }
      i := i + 1;
    }
    assert urls[..|urls|] == urls;
  }

  // ---------------------------------------------------------------------
  // Properties
  // ---------------------------------------------------------------------

  /** A '/' followed by a segment without one is the last one. */
  lemma LastSlash(path: string, k: nat)
    requires k < |path| && path[k] == '/'
    requires '/' !in path[k + 1..]
    ensures LastIndexOf(path, '/') == Some(k)
  {
    forall j | k < j < |path| ensures path[j] != '/' {
      assert path[j] == path[k + 1..][j - k - 1];
    }
  }

  /** After the last '/', a proper segment is the path name. */
  lemma PathNameAfterSlash(path: string, k: nat)
    requires LastIndexOf(path, '/') == Some(k)
    requires path[k + 1..] != "" && path[k + 1..] != "."
    ensures PathName(path) == path[k + 1..]
  {
  }

  /** In `dir + "/" + name`, the '/' after `dir` is the last one. */
  lemma JoinSlashIsLast(dir: string, name: string)
    requires forall j :: 0 <= j < |name| ==> name[j] != '/'
    ensures LastIndexOf(dir + "/" + name, '/') == Some(|dir|)
    ensures (dir + "/" + name)[|dir| + 1..] == name
  {
    var path := dir + "/" + name;
    assert path[|dir|] == '/' && path[|dir| + 1..] == name;
    LastSlash(path, |dir|);
  }

  /** A plain file name under any directory is its own path name. */
  lemma PathNameOfJoin(dir: string, name: string)
    requires name != "" && name != "." && forall j :: 0 <= j < |name| ==> name[j] != '/'
    ensures PathName(dir + "/" + name) == name
  {
    JoinSlashIsLast(dir, name);
    PathNameAfterSlash(dir + "/" + name, |dir|);
  }

  lemma UpperCharIsDot(c: char)
    requires UpperChar(c) == '.'
    ensures c == '.'
  {
  }

  /** The shape of a kept name: the part the pattern spans ends in ".XLSX"
      whatever its case, and that dot is the last one of the name. */
  lemma KeptNameShape(fn: string)
    requires IsXlsxLinkName(fn)
    ensures AtmXlsxText(Core(fn))
    ensures fn == Core(fn) || fn == Core(fn) + "\n"
    ensures Core(fn)[|Core(fn)| - 5] == '.'
    ensures LastIndexOf(fn, '.') == Some(|Core(fn)| - 5)
  {
    var c := Core(fn);
    if fn != c {
      assert fn == c + "\n";
    }
    var tail := c[|c| - 5..];
    assert Upper(tail)[0] == UpperChar(tail[0]);
    UpperCharIsDot(tail[0]);
    forall j | |c| - 5 < j < |fn| ensures fn[j] != '.' {
      if j < |c| {
        assert Upper(tail)[j - (|c| - 5)] == UpperChar(fn[j]);
        assert ".XLSX"[j - (|c| - 5)] != '.';
      }
    }
  }

  /** The local name of a kept link is the spanned part with its ".XLSX",
      whatever its case, written ".xlsx"; a final line feed goes with the
      old suffix. */
  lemma LocalNameOfKept(fn: string)
    requires IsXlsxLinkName(fn)
    ensures fn != ""
    ensures LocalName(fn) == Core(fn)[..|Core(fn)| - 5] + ".xlsx"
  {
    KeptNameShape(fn);
    var c := Core(fn);
    assert Suffix(fn) == fn[|c| - 5..];
  }

  /** Replacing the ".XLSX" of a kept text by ".xlsx" keeps it kept and
      changes nothing once upper-cased. */
  lemma LowerSuffixKept(c: string)
    requires AtmXlsxText(c)
    ensures AtmXlsxText(c[..|c| - 5] + ".xlsx")
    ensures Upper(c[..|c| - 5] + ".xlsx") == Upper(c)
  {
    var stem := c[..|c| - 5];
    var local := stem + ".xlsx";
    assert c == stem + c[|c| - 5..];
    UpperAppend(stem, ".xlsx");
    UpperAppend(stem, c[|c| - 5..]);
    assert Upper(".xlsx") == ".XLSX";
    assert local[..3] == c[..3];
    assert local[|local| - 5..] == ".xlsx";
  }

  /** Texts that read the same once upper-cased give the same year and
      month. */
  lemma ParseByUpper(a: string, b: string)
    requires Upper(a) == Upper(b)
    ensures ParseYearMonthFromFilename(a) == ParseYearMonthFromFilename(b)
  {
  }

  /** The local name of a kept link is kept itself, and it reads the same
      once upper-cased, so it gives the same year and month as the link's
      name. */
  lemma LocalNameKeepsDate(fn: string)
    requires IsXlsxLinkName(fn)
    ensures fn != ""
    ensures IsXlsxLinkName(LocalName(fn))
    ensures Upper(LocalName(fn)) == Upper(Core(fn))
    ensures ParseYearMonthFromFilename(LocalName(fn)) == ParseYearMonthFromFilename(Core(fn))
  {
    LocalNameOfKept(fn);
    KeptNameShape(fn);
    LowerSuffixKept(Core(fn));
    ParseByUpper(LocalName(fn), Core(fn));
  }

  /** The keys of `r` strictly ascend. */
  predicate KeysAscending<U>(r: seq<U>, key: U -> string) {
    forall i, j :: 0 <= i < j < |r| ==> StrLess(key(r[i]), key(r[j]))
  }

  /** Images that carry their element as a key keep the order of ascending
      elements. */
  lemma {:induction false} FilterMapOrdered<U>(xs: seq<string>, keep: string -> bool, f: string -> U, key: U -> string)
    requires forall i :: 0 <= i < |xs| ==> key(f(xs[i])) == xs[i]
    requires StrictlySorted(xs)
    ensures KeysAscending(FilterMap(xs, keep, f), key)
  {
    if xs != [] {
      var k := |xs| - 1;
      var init := xs[..k];
      FilterMapOrdered(init, keep, f, key);
      var prev := FilterMap(init, keep, f);
      if keep(xs[k]) {
        var r := prev + [f(xs[k])];
        assert FilterMap(xs, keep, f) == r;
        FilterMapOrigin(init, keep, f);
        forall i | 0 <= i < |prev| ensures StrLess(key(prev[i]), xs[k]) {
          assert prev[i] in prev;
          var j :| 0 <= j < k && keep(init[j]) && prev[i] == f(init[j]);
          assert init[j] == xs[j];
        }
        forall i, j | 0 <= i < j < |r| ensures StrLess(key(r[i]), key(r[j])) {
          if j < |prev| {
            assert r[i] == prev[i] && r[j] == prev[j];
          } else {
            assert r[i] == prev[i] && r[j] == f(xs[k]);
          }
        }
      } else {
        assert FilterMap(xs, keep, f) == prev;
      }
    }
  }

  /** Every fetched URL has its entry. */
  lemma EntriesOfComplete(urls: seq<string>, urlPath: string -> string, fetched: string -> bool, i: nat)
    requires i < |urls| && fetched(urls[i])
    ensures EntryFor(urls[i], urlPath) in EntriesOf(urls, urlPath, fetched)
  {
    FilterMapComplete(urls, fetched, EntryMaker(urlPath), i);
  }

  /** Every entry is that of a fetched URL, and there are no more entries
      than URLs. */
  lemma EntriesOfOrigin(urls: seq<string>, urlPath: string -> string, fetched: string -> bool)
    ensures |EntriesOf(urls, urlPath, fetched)| <= |urls|
    ensures forall e :: e in EntriesOf(urls, urlPath, fetched) ==>
      exists i :: 0 <= i < |urls| && fetched(urls[i]) && e == EntryFor(urls[i], urlPath)
  {
    FilterMapOrigin(urls, fetched, EntryMaker(urlPath));
  }

  /** With sorted URLs, the manifest lists its entries in strictly ascending
      source-URL order, so no URL is recorded twice. */
  lemma EntriesOfSorted(urls: seq<string>, urlPath: string -> string, fetched: string -> bool)
    requires StrictlySorted(urls)
    ensures var es := EntriesOf(urls, urlPath, fetched);
      forall i, j :: 0 <= i < j < |es| ==> StrLess(es[i].sourceUrl, es[j].sourceUrl)
  {
    var key := (e: ManifestEntry) => e.sourceUrl;
    FilterMapOrdered(urls, fetched, EntryMaker(urlPath), key);
    var es := EntriesOf(urls, urlPath, fetched);
    assert KeysAscending(es, key);
    forall i, j | 0 <= i < j < |es| ensures StrLess(es[i].sourceUrl, es[j].sourceUrl) {
      assert key(es[i]) == es[i].sourceUrl && key(es[j]) == es[j].sourceUrl;
    }
  }

  /** What an entry says: the local path is the download directory and the
      local name, which ends in ".xlsx"; the year and month are both there or
      both absent, and are those the link's name gives. */
  lemma EntryForShape(url: string, urlPath: string -> string)
    requires IsXlsxLinkName(PathName(urlPath(url)))
    ensures var fn := PathName(urlPath(url)); var e := EntryFor(url, urlPath);
      e.path == DownloadDir + LocalName(fn) &&
      e.path[|e.path| - 5..] == ".xlsx" &&
      e.year.Some? == e.month.Some? &&
      (e.month.Some? ==> 1 <= e.month.value <= 12) &&
      (e.year.Some? ==> Some(YearMonth(e.year.value, e.month.value)) == ParseYearMonthFromFilename(Core(fn)))
  {
    var fn := PathName(urlPath(url));
    LocalNameKeepsDate(fn);
    LocalNameOfKept(fn);
  }
}
