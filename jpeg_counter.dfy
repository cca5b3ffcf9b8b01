/**
 * The Python JPEG counter: the files under a directory whose suffix is a
 * JPEG suffix in any case, the `Counter` of their stems, the grouping of
 * the files by stem, the number of distinct and of repeated stems, and the
 * repeated stems in `most_common()` order.
 *
 * `Path.resolve`, `exists`, `rglob` and the clock are parameters; the rich
 * table and the log lines are left out.
 */
module JpegCounter {
  import opened Wrappers
  import opened Text
  import opened Paths
  import opened Counting

  /** `f.suffix.lower() in (".jpg", ".jpeg")`. */
  predicate HasJpegSuffix(p: Path) {
    Lower(PySuffix(PyName(p))) == ".jpg" || Lower(PySuffix(PyName(p))) == ".jpeg"
  }

  /** `f.is_file()` (links followed) and a JPEG suffix. */
  predicate IsJpegFile(e: Entry) {
    IsFile(e) && HasJpegSuffix(e.path)
  }

  /** The `jpeg_files` comprehension: the kept entries' paths, in walk order. */
  function JpegFiles(walk: seq<Entry>): (files: seq<Path>)
    ensures |files| <= |walk|
    ensures forall i :: 0 <= i < |files| ==> HasJpegSuffix(files[i])
  {
    if walk == [] then []
    else
      var last := walk[|walk| - 1];
      JpegFiles(walk[..|walk| - 1]) + (if IsJpegFile(last) then [last.path] else [])
  }

  /** A path is listed exactly when some kept entry of the walk has it. */
  lemma {:induction false} JpegFilesMembers(walk: seq<Entry>, p: Path)
    ensures p in JpegFiles(walk) <==> exists e :: e in walk && e.path == p && IsJpegFile(e)
  {
    if walk != [] {
      var init := walk[..|walk| - 1];
      JpegFilesMembers(init, p);
      assert walk == init + [walk[|walk| - 1]];
    }
  }

  /** `f.stem`. */
  function StemOf(p: Path): string {
    PyStem(PyName(p))
  }

  /** The stems of the files, in order: what the `Counter` consumes. */
  function Stems(files: seq<Path>): (stems: seq<string>)
    ensures |stems| == |files|
  {
    if files == [] then [] else Stems(files[..|files| - 1]) + [StemOf(files[|files| - 1])]
  }

  /** The distinct values of `s` in the order they first appear: the key order of a `Counter`. */
  function FirstOccurrences(s: seq<string>): (r: seq<string>)
    ensures forall x :: x in r <==> x in s
    ensures forall i, j :: 0 <= i < j < |r| ==> r[i] != r[j]
  {
    if s == [] then []
    else
      var init := FirstOccurrences(s[..|s| - 1]);
      assert s == s[..|s| - 1] + [s[|s| - 1]];
      if s[|s| - 1] in init then init else init + [s[|s| - 1]]
  }

  /** `filename_counter.items()`: each stem, in first-occurrence order, with its count. */
  function CounterItems(s: seq<string>): (items: seq<(string, nat)>)
    ensures |items| == |FirstOccurrences(s)|
  {
    var keys := FirstOccurrences(s);
    CountMapCounts(s);
    seq(|keys|, i requires 0 <= i < |keys| => (keys[i], CountMap(s)[keys[i]]))
  }

  /** The items list the whole tally. */
  lemma CounterItemsListing(s: seq<string>)
    ensures Listing(CounterItems(s), CountMap(s))
  {
    var items := CounterItems(s);
    var keys := FirstOccurrences(s);
    CountMapCounts(s);
    forall k | k in CountMap(s) ensures exists i :: 0 <= i < |items| && items[i].0 == k {
      var i :| 0 <= i < |keys| && keys[i] == k;
      assert items[i].0 == k;
    }
  }

  /** The stem counts add up to the number of JPEG files, and there is one item per distinct stem. */
  lemma CounterTotals(files: seq<Path>)
    ensures SumCounts(CounterItems(Stems(files))) == |files|
    ensures |CounterItems(Stems(files))| == |CountMap(Stems(files))|
  {
    CounterItemsListing(Stems(files));
    ListingSum(Stems(files), CounterItems(Stems(files)));
    ListingLength(CounterItems(Stems(files)), CountMap(Stems(files)));
  }

  // ------------------------------------------------------------ grouping

  /** The files with a given stem, in discovery order. */
  function FilesWithStem(files: seq<Path>, stem: string): (r: seq<Path>)
    ensures |r| <= |files|
  {
    if files == [] then []
    else
      var last := files[|files| - 1];
      FilesWithStem(files[..|files| - 1], stem) + (if StemOf(last) == stem then [last] else [])
  }

  /** Each group is as long as its stem's count, and it is empty exactly for the stems that do not occur. */
  lemma {:induction false} GroupSize(files: seq<Path>, stem: string)
    ensures |FilesWithStem(files, stem)| == multiset(Stems(files))[stem]
    ensures FilesWithStem(files, stem) != [] <==> stem in Stems(files)
  {
    if files != [] {
      var init := files[..|files| - 1];
      GroupSize(init, stem);
      assert multiset(Stems(files)) == multiset(Stems(init)) + multiset{StemOf(files[|files| - 1])};
    }
  }

  /** The `filename_paths` loop: start a list at a stem's first file, then append each file to its stem's list. */
  method FilenamePaths(files: seq<Path>) returns (paths: map<string, seq<Path>>)
    ensures forall stem :: stem in paths <==> stem in Stems(files)
    ensures forall stem :: stem in paths ==> paths[stem] == FilesWithStem(files, stem)
  {
    paths := map[];
    var i := 0;
    while i < |files|
      invariant 0 <= i <= |files|
      invariant forall stem :: stem in paths <==> FilesWithStem(files[..i], stem) != []
      invariant forall stem :: stem in paths ==> paths[stem] == FilesWithStem(files[..i], stem)
    {
      assert files[..i + 1][..i] == files[..i];
      var filePath := files[i];
      var stem := StemOf(filePath);
      if stem !in paths {
        paths := paths[stem := []];
      }
      paths := paths[stem := paths[stem] + [filePath]];
      i := i + 1;
    }
    assert files[..i] == files;
    forall stem ensures stem in paths <==> stem in Stems(files) {
      GroupSize(files, stem);
    }
  }

  // ---------------------------------------------------------- duplicates

  /** Keeps the pairs whose count is above one. */
  function Repeated(items: seq<(string, nat)>): (r: seq<(string, nat)>)
    ensures |r| <= |items|
    ensures forall i :: 0 <= i < |r| ==> r[i].1 > 1
  {
    if items == [] then []
    else
      var last := items[|items| - 1];
      Repeated(items[..|items| - 1]) + (if last.1 > 1 then [last] else [])
  }

  /** The tally restricted to the stems that occur more than once. */
  function RepeatedTally(m: map<string, nat>): map<string, nat> {
    map k | k in m && m[k] > 1 :: m[k]
  }

  lemma {:induction false} RepeatedMembers(items: seq<(string, nat)>, x: (string, nat))
    ensures x in Repeated(items) <==> x in items && x.1 > 1
  {
    if items != [] {
      var init := items[..|items| - 1];
      RepeatedMembers(init, x);
      assert items == init + [items[|items| - 1]];
    }
  }

  /** Filtering a listing of a tally gives a listing of the repeated part of the tally. */
  lemma RepeatedListing(items: seq<(string, nat)>, m: map<string, nat>)
    requires Listing(items, m)
    ensures Listing(Repeated(items), RepeatedTally(m))
  {
    var r := Repeated(items);
    forall i | 0 <= i < |r| ensures r[i] in items {
      RepeatedMembers(items, r[i]);
    }
    forall i, j | 0 <= i < j < |r| ensures r[i].0 != r[j].0 {
      RepeatedDistinct(items, i, j);
    }
    forall k | k in RepeatedTally(m) ensures exists i :: 0 <= i < |r| && r[i].0 == k {
      var j :| 0 <= j < |items| && items[j].0 == k;
      RepeatedMembers(items, items[j]);
      var i :| 0 <= i < |r| && r[i] == items[j];
    }
  }

  lemma {:induction false} RepeatedDistinct(items: seq<(string, nat)>, i: nat, j: nat)
    requires forall a, b :: 0 <= a < b < |items| ==> items[a].0 != items[b].0
    requires i < j < |Repeated(items)|
    ensures Repeated(items)[i].0 != Repeated(items)[j].0
  {
    var init := items[..|items| - 1];
    var r := Repeated(items);
    if j < |Repeated(init)| {
      RepeatedDistinct(init, i, j);
    } else {
      RepeatedMembers(init, r[i]);
      assert r[i] in init;
    }
  }

  /** Filtering keeps a descending order. */
  lemma {:induction false} RepeatedSorted(items: seq<(string, nat)>)
    requires SortedDesc(items)
    ensures SortedDesc(Repeated(items))
  {
    if items != [] {
      var init := items[..|items| - 1];
      RepeatedSorted(init);
      forall i | 0 <= i < |Repeated(init)| ensures Repeated(init)[i] in init {
        RepeatedMembers(init, Repeated(init)[i]);
      }
    }
  }

  /** `sum(1 for c in filename_counter.values() if c > 1)`. */
  function CountRepeated(items: seq<(string, nat)>): nat {
    if items == [] then 0
    else CountRepeated(items[..|items| - 1]) + (if items[|items| - 1].1 > 1 then 1 else 0)
  }

  lemma {:induction false} CountRepeatedIsLength(items: seq<(string, nat)>)
    ensures CountRepeated(items) == |Repeated(items)|
  {
    if items != [] {
      CountRepeatedIsLength(items[..|items| - 1]);
    }
  }

  /** The `duplicates` list: `most_common()` filtered to counts above one. */
  function Duplicates(stems: seq<string>): seq<(string, nat)> {
    Repeated(SortDesc(CounterItems(stems)))
  }

  /**
   * The duplicates list holds exactly the stems counted more than once, each
   * once and with its count, in non-increasing order of count; the number
   * of duplicate names reported is its length.
   */
  lemma DuplicatesSpec(stems: seq<string>)
    ensures Listing(Duplicates(stems), RepeatedTally(CountMap(stems)))
    ensures SortedDesc(Duplicates(stems))
    ensures |Duplicates(stems)| == CountRepeated(CounterItems(stems)) == |RepeatedTally(CountMap(stems))|
  {
    var items := CounterItems(stems);
    var m := CountMap(stems);
    CounterItemsListing(stems);
    ListingPermutation(items, SortDesc(items), m);
    RepeatedListing(SortDesc(items), m);
    RepeatedSorted(SortDesc(items));
    ListingLength(Duplicates(stems), RepeatedTally(m));
    RepeatedListing(items, m);
    ListingLength(Repeated(items), RepeatedTally(m));
    CountRepeatedIsLength(items);
  }

  // ---------------------------------------------------------------- main

  /** What the counter reports. */
  datatype CountReport = CountReport(
    total: nat, unique: nat, duplicateNames: nat,
    duplicates: seq<(string, nat)>, paths: map<string, seq<Path>>)

  /** `main`: nothing is counted when the directory does not exist. */
  method CountJpegs(inputExists: bool, walk: seq<Entry>) returns (r: Option<CountReport>)
    ensures r.None? <==> !inputExists
    ensures r.Some? ==>
      var files := JpegFiles(walk);
      var stems := Stems(files);
      && r.value.total == |files|
      && r.value.unique == |CountMap(stems)|
      && r.value.duplicateNames == CountRepeated(CounterItems(stems))
      && r.value.duplicates == Duplicates(stems)
      && (forall stem :: stem in r.value.paths <==> stem in stems)
      && (forall stem :: stem in r.value.paths ==> r.value.paths[stem] == FilesWithStem(files, stem))
  {
    if !inputExists {
      return None;
    }
    var jpegFiles := JpegFiles(walk);
    var stems := Stems(jpegFiles);
    var counter := CountMap(stems);
    var paths := FilenamePaths(jpegFiles);
    var items := CounterItems(stems);
    r := Some(CountReport(|jpegFiles|, |counter|, CountRepeated(items), Repeated(SortDesc(items)), paths));
  }
}
