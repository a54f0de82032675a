/**
 * The file-selection part of `AcademiaSD_BatchLoader.load_batch_images` in nodes/batch_loader.py:
 * the default-folder sentinel, the extension and substring filter over the sorted listing, the
 * empty-result error and the circular index.
 */
module BatchLoader {
  import opened Text
  import opened Sorting
  import opened PosixPath

  /** The `folder_path` widget's default; a missing folder with this name is not an error. */
  const DefaultFolder := "C:\\Ruta\\A\\Tus\\Imagenes"
  const ValidExtensions: seq<string> := [".jpg", ".jpeg", ".png", ".webp", ".bmp", ".tiff"]

  datatype Selection =
    /** The zero image, with `image_path` "" and `filename_text` "dummy". */
    | Placeholder(imagePath: string, filenameText: string)
    /** The `FileNotFoundError` raised for a missing folder. */
    | FolderNotFound(folder: string)
    /** The `FileNotFoundError` raised when no file passes the filter. */
    | NoValidImages
    /** `files[actual_index]` out of `count` kept files. */
    | Selected(actualIndex: int, count: int, imagePath: string)

  /** The lower-cased last extension is one of the six image extensions. */
  predicate HasImageExtension(name: string)
  {
    LowerAsciiString(SplitExt(name).1) in ValidExtensions
  }

  /** An empty filter lets everything through; otherwise the name must contain it. */
  predicate PassesFilter(name: string, filenameFilter: string)
  {
    filenameFilter == [] || Contains(name, filenameFilter)
  }

  predicate Keep(name: string, filenameFilter: string)
  {
    HasImageExtension(name) && PassesFilter(name, filenameFilter)
  }

  /** The names the loop keeps, in the order it sees them. */
  function KeptNames(names: seq<string>, filenameFilter: string): seq<string>
  {
    if names == [] then []
    else
      var last := names[|names| - 1];
      KeptNames(names[..|names| - 1], filenameFilter) + (if Keep(last, filenameFilter) then [last] else [])
  }

  /** Each name joined onto the folder. */
  function JoinAll(folderPath: string, names: seq<string>): (r: seq<string>)
    ensures |r| == |names|
    ensures forall i :: 0 <= i < |r| ==> r[i] == JoinPath(folderPath, names[i])
  {
    seq(|names|, i requires 0 <= i < |names| => JoinPath(folderPath, names[i]))
  }

  lemma JoinAllAppend(folderPath: string, a: seq<string>, b: seq<string>)
    ensures JoinAll(folderPath, a + b) == JoinAll(folderPath, a) + JoinAll(folderPath, b)
  {
    var l := JoinAll(folderPath, a + b);
    var r := JoinAll(folderPath, a) + JoinAll(folderPath, b);
    forall j | 0 <= j < |l| ensures l[j] == r[j] {
      if j < |a| {
        assert (a + b)[j] == a[j];
      } else {
        assert (a + b)[j] == b[j - |a|];
      }
    }
  }

  /** `files`: the kept names, each joined onto the folder. */
  function KeptPaths(folderPath: string, names: seq<string>, filenameFilter: string): (r: seq<string>)
    ensures |r| == |KeptNames(names, filenameFilter)|
    ensures forall i :: 0 <= i < |r| ==> r[i] == JoinPath(folderPath, KeptNames(names, filenameFilter)[i])
  {
    JoinAll(folderPath, KeptNames(names, filenameFilter))
  }

  /** What `load_batch_images` selects, given whether the folder is a directory and its listing. */
  function Select(folderPath: string, imageIndex: int, filenameFilter: string, isDir: bool, listing: seq<string>): Selection
  {
    if !isDir then
      if folderPath == DefaultFolder then Placeholder("", "dummy") else FolderNotFound(folderPath)
    else
      var files := KeptPaths(folderPath, Sort(listing), filenameFilter);
      if files == [] then NoValidImages
      else
        var count := |files|;
        Selected(imageIndex % count, count, files[imageIndex % count])
  }

  /** The loop of the node: walks the sorted listing and appends the path of every name it keeps. */
  method LoadBatchImages(folderPath: string, imageIndex: int, filenameFilter: string, isDir: bool, listing: seq<string>)
    returns (r: Selection)
    ensures r == Select(folderPath, imageIndex, filenameFilter, isDir, listing)
  {
    if !isDir {
      if folderPath == DefaultFolder {
        return Placeholder("", "dummy");
      }
      return FolderNotFound(folderPath);
    }
    var sorted := Sort(listing);
    var files: seq<string> := [];
    var i := 0;
    while i < |sorted|
      invariant 0 <= i <= |sorted|
      invariant files == KeptPaths(folderPath, sorted[..i], filenameFilter)
    {
      var f := sorted[i];
      KeptPathsStep(folderPath, sorted, i, filenameFilter);
      var ext := LowerAsciiString(SplitExt(f).1);
      if ext in ValidExtensions && (filenameFilter == [] || Contains(f, filenameFilter)) {
        assert Keep(f, filenameFilter);
        files := files + [JoinPath(folderPath, f)];
      } else {
        assert !Keep(f, filenameFilter);
      }
      assert files == KeptPaths(folderPath, sorted[..i + 1], filenameFilter);
      i := i + 1;
    }
    assert sorted[..|sorted|] == sorted;
    if files == [] {
      return NoValidImages;
    }
    var count := |files|;
    var actualIndex := imageIndex % count;
    return Selected(actualIndex, count, files[actualIndex]);
  }

  /** Extending the scanned prefix by one name appends that name's path when it is kept. */
  lemma KeptPathsStep(folderPath: string, names: seq<string>, i: int, filenameFilter: string)
    requires 0 <= i < |names|
    ensures KeptPaths(folderPath, names[..i + 1], filenameFilter) ==
      KeptPaths(folderPath, names[..i], filenameFilter) +
      (if Keep(names[i], filenameFilter) then [JoinPath(folderPath, names[i])] else [])
  {
    var keptBefore := KeptNames(names[..i], filenameFilter);
    var added := if Keep(names[i], filenameFilter) then [names[i]] else [];
    assert names[..i + 1][..i] == names[..i];
    assert KeptNames(names[..i + 1], filenameFilter) == keptBefore + added;
    JoinAllAppend(folderPath, keptBefore, added);
    var joined := JoinAll(folderPath, added);
    if Keep(names[i], filenameFilter) {
      assert joined == [JoinPath(folderPath, names[i])];
    } else {
      assert joined == [];
    }
  }

  /** A name is kept exactly when it is in the listing and passes both tests. */
  lemma {:induction false} KeptNamesMembership(names: seq<string>, filenameFilter: string, f: string)
    ensures f in KeptNames(names, filenameFilter) <==> f in names && Keep(f, filenameFilter)
  {
    if names != [] {
      var init := names[..|names| - 1];
      KeptNamesMembership(init, filenameFilter, f);
      assert names == init + [names[|names| - 1]];
    }
  }

  /** Filtering keeps the order: the kept names of a sorted listing are sorted. */
  lemma {:induction false} KeptNamesSorted(names: seq<string>, filenameFilter: string)
    requires Sorted(names)
    ensures Sorted(KeptNames(names, filenameFilter))
  {
    if names != [] {
      var init := names[..|names| - 1];
      var last := names[|names| - 1];
      var kept := KeptNames(init, filenameFilter);
      assert Sorted(init);
      KeptNamesSorted(init, filenameFilter);
      if Keep(last, filenameFilter) {
        forall j | 0 <= j < |kept| ensures LexLe(kept[j], last) {
          KeptNamesMembership(init, filenameFilter, kept[j]);
          var k :| 0 <= k < |init| && init[k] == kept[j];
          assert LexLe(names[k], names[|names| - 1]);
        }
        var r := kept + [last];
        forall a, b | 0 <= a < b < |r| ensures LexLe(r[a], r[b]) {
          if b < |kept| { assert LexLe(kept[a], kept[b]); }
        }
      }
    }
  }

  /** Every selected file is the folder joined with a kept name of the listing, at an index below the count. */
  lemma SelectedIsKeptImage(folderPath: string, imageIndex: int, filenameFilter: string, listing: seq<string>)
    ensures var r := Select(folderPath, imageIndex, filenameFilter, true, listing);
      r.Selected? ==>
        && 0 <= r.actualIndex < r.count
        && r.count == |KeptNames(Sort(listing), filenameFilter)|
        && exists f :: f in listing && Keep(f, filenameFilter) && r.imagePath == JoinPath(folderPath, f)
  {
    var r := Select(folderPath, imageIndex, filenameFilter, true, listing);
    if r.Selected? {
      var kept := KeptNames(Sort(listing), filenameFilter);
      var f := kept[r.actualIndex];
      KeptNamesMembership(Sort(listing), filenameFilter, f);
      assert f in multiset(Sort(listing));
    }
  }

  /** The "no valid images" error is raised exactly when no entry of the listing passes both tests. */
  lemma NoValidImagesIff(folderPath: string, imageIndex: int, filenameFilter: string, listing: seq<string>)
    ensures Select(folderPath, imageIndex, filenameFilter, true, listing) == NoValidImages <==>
      forall f :: f in listing ==> !Keep(f, filenameFilter)
  {
    var sorted := Sort(listing);
    var kept := KeptNames(sorted, filenameFilter);
    if kept != [] {
      KeptNamesMembership(sorted, filenameFilter, kept[0]);
      assert kept[0] in multiset(sorted);
    } else {
      forall f | f in listing ensures !Keep(f, filenameFilter) {
        KeptNamesMembership(sorted, filenameFilter, f);
        assert f in multiset(listing);
      }
    }
  }

  /** Indices congruent modulo the number of kept files select the same file. */
  lemma CongruentIndicesSelectSameFile(folderPath: string, i: int, j: int, filenameFilter: string, listing: seq<string>)
    requires var count := |KeptNames(Sort(listing), filenameFilter)|;
      count > 0 && i % count == j % count
    ensures Select(folderPath, i, filenameFilter, true, listing) == Select(folderPath, j, filenameFilter, true, listing)
  {
    SelectIsByRemainder(folderPath, i, filenameFilter, listing);
    SelectIsByRemainder(folderPath, j, filenameFilter, listing);
  }

  /**
   * The `filename_text` output: the base name of the selected path is the kept name at the chosen
   * index, as `os.listdir` entries are non-empty names without `/`.
   */
  lemma SelectedFileName(folderPath: string, imageIndex: int, filenameFilter: string, listing: seq<string>)
    requires forall i :: 0 <= i < |listing| ==> listing[i] != [] && '/' !in listing[i]
    ensures var r := Select(folderPath, imageIndex, filenameFilter, true, listing);
      r.Selected? ==> Basename(r.imagePath) == KeptNames(Sort(listing), filenameFilter)[r.actualIndex]
  {
    var r := Select(folderPath, imageIndex, filenameFilter, true, listing);
    if r.Selected? {
      var kept := KeptNames(Sort(listing), filenameFilter);
      var f := kept[r.actualIndex];
      KeptNamesMembership(Sort(listing), filenameFilter, f);
      assert f in multiset(Sort(listing));
      assert f in listing;
    }
  }

  /** With at least one kept file, the selection depends on the index only through its remainder. */
  lemma SelectIsByRemainder(folderPath: string, imageIndex: int, filenameFilter: string, listing: seq<string>)
    requires KeptNames(Sort(listing), filenameFilter) != []
    ensures var files := KeptPaths(folderPath, Sort(listing), filenameFilter);
      var m := imageIndex % |files|;
      Select(folderPath, imageIndex, filenameFilter, true, listing) == Selected(m, |files|, files[m])
  {
  }

  /** `os.listdir` returns entries in arbitrary order; the selection does not depend on it. */
  lemma ListingOrderIrrelevant(folderPath: string, imageIndex: int, filenameFilter: string, isDir: bool,
                               a: seq<string>, b: seq<string>)
    requires multiset(a) == multiset(b)
    ensures Select(folderPath, imageIndex, filenameFilter, isDir, a) == Select(folderPath, imageIndex, filenameFilter, isDir, b)
  {
    SortIgnoresOrder(a, b);
  }
}
