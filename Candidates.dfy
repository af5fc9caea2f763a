/**
 * The list of images waiting to be converted: files dropped on the window or picked in
 * the file dialog are appended when they exist, carry a supported ending, and are not
 * listed yet.
 */
module Candidates {
  import opened Catalog

  /** No path occurs twice. */
  predicate NoDuplicates(paths: seq<string>) {
    forall i, j :: 0 <= i < j < |paths| ==> paths[i] != paths[j]
  }

  /** The test applied to each offered file before it is appended. */
  predicate Admissible(paths: seq<string>, f: string, isFile: string -> bool) {
    isFile(f) && IsSupported(f) && f !in paths
  }

  /** One step of the append loop. */
  function Admit(paths: seq<string>, f: string, isFile: string -> bool): seq<string> {
    if Admissible(paths, f, isFile) then paths + [f] else paths
  }

  /**
   * The list after offering `files` in order: the old list stays as it was, at the front,
   * and a list without duplicates stays so.
   */
  function AppendAll(paths: seq<string>, files: seq<string>, isFile: string -> bool): (r: seq<string>)
    ensures |paths| <= |r| && r[..|paths|] == paths
    ensures NoDuplicates(paths) ==> NoDuplicates(r)
    decreases |files|
  {
    if files == [] then paths
    else Admit(AppendAll(paths, files[..|files| - 1], isFile), files[|files| - 1], isFile)
  }

  /**
   * A path is listed after offering `files` exactly when it was listed before or is one of
   * `files` that exists and has a supported ending.
   */
  lemma {:induction false} AppendAllMembers(paths: seq<string>, files: seq<string>, isFile: string -> bool, x: string)
    ensures x in AppendAll(paths, files, isFile) <==> x in paths || (x in files && isFile(x) && IsSupported(x))
    decreases |files|
  {
    if files != [] {
      var n := |files| - 1;
      AppendAllMembers(paths, files[..n], isFile, x);
      assert files == files[..n] + [files[n]];
      assert x in files <==> x in files[..n] || x == files[n];
    }
  }

  /** Offering two batches of files one after the other is the same as offering them together. */
  lemma {:induction false} AppendAllConcat(paths: seq<string>, files1: seq<string>, files2: seq<string>, isFile: string -> bool)
    ensures AppendAll(AppendAll(paths, files1, isFile), files2, isFile) == AppendAll(paths, files1 + files2, isFile)
    decreases |files2|
  {
    if files2 == [] {
      assert files1 + files2 == files1;
    } else {
      var n := |files2| - 1;
      var all := files1 + files2;
      var last := files2[n];
      AppendAllConcat(paths, files1, files2[..n], isFile);
      assert all[..|all| - 1] == files1 + files2[..n];
      assert all[|all| - 1] == last;
      calc {
        AppendAll(paths, all, isFile);
        Admit(AppendAll(paths, files1 + files2[..n], isFile), last, isFile);
        Admit(AppendAll(AppendAll(paths, files1, isFile), files2[..n], isFile), last, isFile);
        AppendAll(AppendAll(paths, files1, isFile), files2, isFile);
      }
    }
  }

  /** Offering the same files again adds nothing. */
  lemma {:induction false} AppendAllAgain(paths: seq<string>, files: seq<string>, isFile: string -> bool)
    ensures AppendAll(AppendAll(paths, files, isFile), files, isFile) == AppendAll(paths, files, isFile)
  {
    var once := AppendAll(paths, files, isFile);
    forall f | f in files && isFile(f) && IsSupported(f) ensures f in once {
      AppendAllMembers(paths, files, isFile, f);
    }
    AppendAllKnown(once, files, isFile);
  }

  /** Offering files that are all listed already, or rejected anyway, leaves the list alone. */
  lemma {:induction false} AppendAllKnown(paths: seq<string>, files: seq<string>, isFile: string -> bool)
    requires forall f :: f in files && isFile(f) && IsSupported(f) ==> f in paths
    ensures AppendAll(paths, files, isFile) == paths
    decreases |files|
  {
    if files != [] {
      var n := |files| - 1;
      assert forall f :: f in files[..n] ==> f in files;
      AppendAllKnown(paths, files[..n], isFile);
      assert files[n] in files;
    }
  }
}
