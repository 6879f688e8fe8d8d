/** `rebuild_index_and_banks` (tools/emit_json.py): the month index and the
    bank list rebuilt from the month files under `docs/data`. The directory
    is given as a map from file name to the document read from it. */
module Aggregate {
  import opened Wrappers
  import opened Order
  import opened Cells
  import opened MonthFiles
  import opened Header
  import opened Rows

  /** A month document as read back: its "year" and "month" values and the
      "bank" value of each row, `None` where the key is missing or null.
      Values of other JSON types (a string year, a numeric bank) are not
      represented, so the rebuild never aborts here. */
  datatype StoredMonth = StoredMonth(year: Option<int>, month: Option<int>, banks: seq<Option<string>>)

  /** One entry of `index.json`. */
  datatype IndexEntry = IndexEntry(file: string, year: Option<int>, month: Option<int>, path: string)

  /** The files of `docs/data`: each name with its decoded document, or
      `None` where reading or decoding fails. */
  type DataDirectory = map<string, Option<StoredMonth>>

  /** The names the month glob lists. */
  function MonthFilesIn(dir: DataDirectory): (r: set<string>)
    ensures forall n :: n in r <==> n in dir && MatchesMonthGlob(n)
  {
    set n | n in dir && MatchesMonthGlob(n)
  }

  /** The index entry of a file that decoded. */
  function EntryFor(name: string, doc: StoredMonth): IndexEntry {
    IndexEntry(name, doc.year, doc.month, DataDir + name)
  }

  /** Each row's bank value cleaned, in row order. */
  function CleanedNames(banks: seq<Option<string>>): (r: seq<string>)
    ensures |r| == |banks| && forall j :: 0 <= j < |banks| ==> r[j] == CleanBankName(banks[j])
  {
    seq(|banks|, j requires 0 <= j < |banks| => CleanBankName(banks[j]))
  }

  /** The non-empty names among `names`. */
  function NonEmptyNames(names: seq<string>): set<string> {
    if names == [] then {}
    else
      var k := |names| - 1;
      NonEmptyNames(names[..k]) + if names[k] != "" then {names[k]} else {}
  }

  /** A name is among the non-empty names exactly when it is not empty and
      occurs. */
  lemma {:induction false} NonEmptyNamesMembers(names: seq<string>, b: string)
    ensures b in NonEmptyNames(names) <==> b != "" && b in names
  {
    if names != [] {
      var k := |names| - 1;
      NonEmptyNamesMembers(names[..k], b);
      assert names == names[..k] + [names[k]];
    }
  }

  /** The non-empty cleaned bank names of one document. */
  function BanksOfRows(banks: seq<Option<string>>): set<string> {
    NonEmptyNames(CleanedNames(banks))
  }

  /** The bank names a listed file contributes: none when it failed to
      decode. */
  function DocBanks(dir: DataDirectory, n: string): set<string>
    requires n in dir
  {
    match dir[n]
    case None => {}
    case Some(doc) => BanksOfRows(doc.banks)
  }

  /** The index built from the files `names`, in that order. */
  function IndexOf(names: seq<string>, dir: DataDirectory): seq<IndexEntry>
    requires forall i :: 0 <= i < |names| ==> names[i] in dir
  {
    if names == [] then []
    else
      var n := names[|names| - 1];
      IndexOf(names[..|names| - 1], dir) +
        match dir[n] case None => [] case Some(doc) => [EntryFor(n, doc)]
  }

  /** The bank names each file contributes. */
  function BanksByFile(dir: DataDirectory): (m: map<string, set<string>>)
    ensures m.Keys == dir.Keys
  {
    map n | n in dir :: DocBanks(dir, n)
  }

  /** The union of what the files `names` contribute. */
  function UnionOver(names: seq<string>, m: map<string, set<string>>): set<string>
    requires forall i :: 0 <= i < |names| ==> names[i] in m
  {
    if names == [] then {}
    else UnionOver(names[..|names| - 1], m) + m[names[|names| - 1]]
  }

  /** The file names of an index, in order. */
  function FilesOf(index: seq<IndexEntry>): (r: seq<string>)
    ensures |r| == |index| && forall i :: 0 <= i < |index| ==> r[i] == index[i].file
  {
    seq(|index|, i requires 0 <= i < |index| => index[i].file)
  }

  /** `index` is the index of `dir`: one entry per listed month file that
      decoded, in ascending name order, each carrying that document's year
      and month and its path under `docs/data`. */
  ghost predicate IsIndexOf(index: seq<IndexEntry>, dir: DataDirectory) {
    StrictlySorted(FilesOf(index)) &&
    (forall n :: n in FilesOf(index) <==> n in MonthFilesIn(dir) && dir[n].Some?) &&
    (forall i :: 0 <= i < |index| ==>
      index[i].file in dir && dir[index[i].file].Some? &&
      index[i] == EntryFor(index[i].file, dir[index[i].file].value))
  }

  /** `banks` is the bank list of `dir`: ascending, without repetition, and
      holding exactly the non-empty cleaned names of the listed month files
      that decoded. */
  ghost predicate IsBankListOf(banks: seq<string>, dir: DataDirectory) {
    StrictlySorted(banks) &&
    forall b :: b in banks <==> exists n :: n in MonthFilesIn(dir) && b in DocBanks(dir, n)
  }

  /** The index of sorted names is the index of the directory. */
  lemma {:induction false} IndexOfSorted(names: seq<string>, dir: DataDirectory)
    requires forall i :: 0 <= i < |names| ==> names[i] in dir
    requires StrictlySorted(names)
    ensures StrictlySorted(FilesOf(IndexOf(names, dir)))
    ensures forall n :: n in FilesOf(IndexOf(names, dir)) <==> n in names && dir[n].Some?
    ensures forall i :: 0 <= i < |IndexOf(names, dir)| ==>
      var e := IndexOf(names, dir)[i];
      e.file in dir && dir[e.file].Some? && e == EntryFor(e.file, dir[e.file].value)
  {
    if names != [] {
      var k := |names| - 1;
      var n := names[k];
      var init := names[..k];
      IndexOfSorted(init, dir);
      var prev := IndexOf(init, dir);
      assert forall x :: x in init <==> exists i :: 0 <= i < k && names[i] == x;
      assert forall x :: x in init ==> StrLess(x, n);
      match dir[n]
      case None =>
        assert IndexOf(names, dir) == prev;
        forall x ensures x in FilesOf(prev) <==> x in names && dir[x].Some? {
          assert x in names <==> x in init || x == n;
        }
      case Some(doc) =>
        var idx := prev + [EntryFor(n, doc)];
        assert IndexOf(names, dir) == idx;
        assert FilesOf(idx) == FilesOf(prev) + [n];
        forall x ensures x in FilesOf(idx) <==> x in names && dir[x].Some? {
          assert x in names <==> x in init || x == n;
        }
    }
  }

  /** The union over some names holds exactly what one of them
      contributes. */
  lemma {:induction false} UnionOverMembers(names: seq<string>, m: map<string, set<string>>)
    requires forall i :: 0 <= i < |names| ==> names[i] in m
    ensures forall b :: b in UnionOver(names, m) <==>
      exists i :: 0 <= i < |names| && b in m[names[i]]
  {
    if names != [] {
      var k := |names| - 1;
      var init := names[..k];
      UnionOverMembers(init, m);
      forall b ensures b in UnionOver(names, m) <==>
        exists i :: 0 <= i < |names| && b in m[names[i]]
      {
        if b in UnionOver(init, m) {
          var i :| 0 <= i < k && b in m[init[i]];
          assert names[i] == init[i];
        }
        if exists i :: 0 <= i < |names| && b in m[names[i]] {
          var i :| 0 <= i < |names| && b in m[names[i]];
          if i < k {
            assert init[i] == names[i];
          }
        }
      }
    }
  }

  /** Gathering over all listed files, in any order, gives what the bank
      list must hold. */
  lemma GatheredBanks(names: seq<string>, dir: DataDirectory)
    requires forall x :: x in names <==> x in MonthFilesIn(dir)
    ensures forall i :: 0 <= i < |names| ==> names[i] in BanksByFile(dir)
    ensures forall b :: b in UnionOver(names, BanksByFile(dir)) <==>
      exists n :: n in MonthFilesIn(dir) && b in DocBanks(dir, n)
  {
    var m := BanksByFile(dir);
    assert forall i :: 0 <= i < |names| ==> names[i] in MonthFilesIn(dir);
    UnionOverMembers(names, m);
    forall b ensures b in UnionOver(names, m) <==> exists n :: n in MonthFilesIn(dir) && b in DocBanks(dir, n) {
      if b in UnionOver(names, m) {
        var i :| 0 <= i < |names| && b in m[names[i]];
        assert names[i] in MonthFilesIn(dir) && b in DocBanks(dir, names[i]);
      }
      if exists n :: n in MonthFilesIn(dir) && b in DocBanks(dir, n) {
        var n :| n in MonthFilesIn(dir) && b in DocBanks(dir, n);
        assert n in names;
        var i :| 0 <= i < |names| && names[i] == n;
        assert b in m[names[i]];
      }
    }
  }

  lemma NonEmptyStep(names: seq<string>, j: nat)
    requires j < |names|
    ensures NonEmptyNames(names[..j + 1]) == NonEmptyNames(names[..j]) + if names[j] != "" then {names[j]} else {}
  {
    assert names[..j + 1][..j] == names[..j];
  }

  /** Adds the non-empty cleaned bank names of one document to the set. */
  method AddBanks(bankSet: set<string>, banks: seq<Option<string>>) returns (r: set<string>)
    ensures r == bankSet + BanksOfRows(banks)
  {
    ghost var cleaned := CleanedNames(banks);
    r := bankSet;
    var j := 0;
    while j < |banks|
      invariant 0 <= j <= |banks|
      invariant r == bankSet + NonEmptyNames(cleaned[..j])
    {
      NonEmptyStep(cleaned, j);
      var b := CleanBankName(banks[j]);
      assert b == cleaned[j];
      if b != "" {
        r := r + {b};
      }
      j := j + 1;
    }
    assert cleaned[..|banks|] == cleaned;
  }

  /** One file more: its entry, if it decoded, and its bank names join
      those of the files before it. */
  lemma RebuildStep(names: seq<string>, dir: DataDirectory, i: nat)
    requires i < |names| && forall k :: 0 <= k < |names| ==> names[k] in dir
    ensures IndexOf(names[..i + 1], dir) == IndexOf(names[..i], dir) +
      match dir[names[i]] case None => [] case Some(doc) => [EntryFor(names[i], doc)]
    ensures UnionOver(names[..i + 1], BanksByFile(dir)) ==
      UnionOver(names[..i], BanksByFile(dir)) + DocBanks(dir, names[i])
  {
    assert names[..i + 1][..i] == names[..i];
  }

  /** `rebuild_index_and_banks`: visits the listed month files in sorted
      order, skips those that fail to decode, records an index entry for
      each of the others and gathers their non-empty cleaned bank names. */
  method RebuildIndexAndBanks(dir: DataDirectory) returns (index: seq<IndexEntry>, banks: seq<string>)
    ensures IsIndexOf(index, dir)
    ensures IsBankListOf(banks, dir)
  {
    var names := SortSet(MonthFilesIn(dir));
    GatheredBanks(names, dir);
    ghost var m := BanksByFile(dir);
    index := [];
    var bankSet: set<string> := {};
    var i := 0;
    while i < |names|
      invariant 0 <= i <= |names|
      invariant index == IndexOf(names[..i], dir)
      invariant bankSet == UnionOver(names[..i], m)
    {
      var name := names[i];
      RebuildStep(names, dir, i);
      if dir[name].Some? {
        var doc := dir[name].value;
        index := index + [EntryFor(name, doc)];
        bankSet := AddBanks(bankSet, doc.banks);
      }
      i := i + 1;
    }
    assert names[..|names|] == names;
    IndexOfSorted(names, dir);
    banks := SortSet(bankSet);
  }

  /** A document as `emit_month` writes it, read back. */
  function Stored(doc: MonthJson): (r: StoredMonth)
    ensures |r.banks| == |doc.rows|
  {
    StoredMonth(Some(doc.year), Some(doc.month),
      seq(|doc.rows|, i requires 0 <= i < |doc.rows| => Some(doc.rows[i].bank)))
  }

  /** A document whose bank names are already clean contributes exactly its
      non-empty bank names. */
  lemma StoredBanksListed(doc: MonthJson)
    requires forall j :: 0 <= j < |doc.rows| ==> CleanBankName(Some(doc.rows[j].bank)) == doc.rows[j].bank
    ensures forall b :: b in BanksOfRows(Stored(doc).banks) <==>
      b != "" && exists j :: 0 <= j < |doc.rows| && doc.rows[j].bank == b
  {
    var cleaned := CleanedNames(Stored(doc).banks);
    assert forall j :: 0 <= j < |doc.rows| ==> cleaned[j] == doc.rows[j].bank;
    forall b ensures b in BanksOfRows(Stored(doc).banks) <==>
      b != "" && exists j :: 0 <= j < |doc.rows| && doc.rows[j].bank == b
    {
      NonEmptyNamesMembers(cleaned, b);
    }
  }

  /** Re-cleaning the names `emit_month` wrote changes none of them: the bank
      list gets exactly the non-empty bank names of the emitted rows. */
  lemma EmittedBanksListed(path: string, raw: seq<seq<Cell>>, width: nat, year: int, month: int)
    requires IsTable(raw, width) && MonthDocument(path, raw, width, year, month).Ok?
    ensures var doc := MonthDocument(path, raw, width, year, month).value.1;
      forall b :: b in BanksOfRows(Stored(doc).banks) <==>
        b != "" && exists j :: 0 <= j < |doc.rows| && doc.rows[j].bank == b
  {
    var doc := MonthDocument(path, raw, width, year, month).value.1;
    forall j | 0 <= j < |doc.rows|
      ensures CleanBankName(Some(doc.rows[j].bank)) == doc.rows[j].bank
    {
      MonthDocumentRows(path, raw, width, year, month, j);
    }
    StoredBanksListed(doc);
  }

  /** A month written for a year 0..9999 and a month 1..12 appears in the
      index with that year and month. */
  lemma EmittedMonthIndexed(index: seq<IndexEntry>, dir: DataDirectory, doc: MonthJson)
    requires IsIndexOf(index, dir)
    requires 0 <= doc.year <= 9999 && 1 <= doc.month <= 12
    requires var name := MonthFileName(doc.year, doc.month); name in dir && dir[name] == Some(Stored(doc))
    ensures var name := MonthFileName(doc.year, doc.month);
      IndexEntry(name, Some(doc.year), Some(doc.month), DataDir + name) in index
  {
    var name := MonthFileName(doc.year, doc.month);
    MonthFileNameMatchesGlob(doc.year, doc.month);
    assert name in FilesOf(index);
    var i :| 0 <= i < |index| && FilesOf(index)[i] == name;
    assert index[i] == IndexEntry(name, Some(doc.year), Some(doc.month), DataDir + name);
  }
}
