/**
 * Planning one conversion: the rule key taken from the source path, the destination
 * extension it resolves to, the encoder name, the destination path and the keyword
 * arguments passed to the encoder.
 */
module Planner {
  import opened Wrappers
  import opened Text
  import opened PathOps
  import opened PathFacts
  import opened Catalog
  import opened Rules

  /** The destinations whose encoder takes a quality setting. */
  const LossyExtensions: seq<string> := ["jpg", "jpeg", "webp"]

  /** The keyword arguments of the encode call; an absent keyword is `None`. */
  datatype SaveOptions = SaveOptions(quality: Option<int>, optimize: Option<bool>)

  /** Everything decided about one source path before the image is touched. */
  datatype Plan = Plan(
    source: string,
    destExt: string,
    formatName: string,
    destPath: string,
    options: SaveOptions)

  /** `os.path.splitext(path)[1][1:].lower()`: the rule key of a source path, `""` when it has no extension. */
  function ExtensionKey(path: string): (key: string)
    ensures ExtSep !in key && Sep !in key
    ensures IsLowercase(key)
  {
    var ext := SplitExt(path).1;
    if ext == [] then [] else Lower(ext[1..])
  }

  /** `os.path.splitext(os.path.basename(path))[0]`: the file name without its extension, case kept. */
  function Stem(path: string): (stem: string)
    ensures Sep !in stem
  {
    var name := Basename(path);
    var stem := SplitExt(name).0;
    assert stem == name[..|stem|];
    stem
  }

  /**
   * `os.path.join(output_dir, f"{base_name}.{dst_ext}")`: the output directory's prefix
   * followed by the file name `stem.ext`, since that name never starts at the root. The
   * destination lies directly inside the output directory exactly when the extension has
   * no separator; an extension such as `x/y` leads into a sub-directory.
   */
  function DestinationPath(outputDir: string, path: string, destExt: string): (dest: string)
    ensures dest == DirPrefix(outputDir) + Stem(path) + [ExtSep] + destExt
    ensures Sep in dest[|DirPrefix(outputDir)|..] <==> Sep in destExt
  {
    var name := Stem(path) + [ExtSep] + destExt;
    assert name[0] != Sep by {
      if Stem(path) != [] {
        assert name[0] == Stem(path)[0];
      }
    }
    JoinRelative(outputDir, name);
    SepInFileName(Stem(path), destExt);
    assert (DirPrefix(outputDir) + name)[|DirPrefix(outputDir)|..] == name;
    Join(outputDir, name)
  }

  /** The file name `stem.ext`, for a stem without separator, holds a separator exactly when `ext` does. */
  lemma SepInFileName(stem: string, ext: string)
    requires Sep !in stem
    ensures Sep in stem + [ExtSep] + ext <==> Sep in ext
  {
    var name := stem + [ExtSep] + ext;
    if Sep in ext {
      var k :| 0 <= k < |ext| && ext[k] == Sep;
      assert name[|stem| + 1 + k] == Sep;
    }
  }

  /**
   * The encode keyword arguments: `quality` and `optimize=True` exactly when the
   * destination extension is jpg, jpeg or webp, and none otherwise.
   */
  function SaveOptionsFor(destExt: string, quality: int): (opts: SaveOptions)
    ensures opts.quality.Some? <==> destExt in {"jpg", "jpeg", "webp"}
    ensures opts.quality.Some? ==> opts == SaveOptions(Some(quality), Some(true))
    ensures opts.quality.None? ==> opts == SaveOptions(None, None)
  {
    if destExt in LossyExtensions then SaveOptions(Some(quality), Some(true))
    else SaveOptions(None, None)
  }

  /** The per-item planning steps of the batch loop. */
  function PlanItem(rules: RuleTable, outputDir: string, quality: int, path: string): Plan {
    var destExt := Resolve(rules, ExtensionKey(path));
    Plan(path, destExt, EncoderName(destExt), DestinationPath(outputDir, path, destExt),
      SaveOptionsFor(destExt, quality))
  }

  /**
   * The plan for a path: the destination is the rule for its key or else `jpg`; the
   * encoder is `JPEG` for `jpg` and the upper-cased extension otherwise; the quality
   * options are attached exactly for jpg, jpeg and webp; and the plan depends on nothing
   * but its inputs.
   */
  lemma PlanItemFacts(rules: RuleTable, outputDir: string, quality: int, path: string)
    ensures var p := PlanItem(rules, outputDir, quality, path);
      && p.source == path
      && p.destExt == (if ExtensionKey(path) in rules then rules[ExtensionKey(path)] else DefaultFormat)
      && p.formatName == (if p.destExt == "jpg" then "JPEG" else Upper(p.destExt))
      && p.destPath == DestinationPath(outputDir, path, p.destExt)
      && (p.options.quality.Some? <==> p.destExt in {"jpg", "jpeg", "webp"})
      && (p.options.quality.Some? ==> p.options == SaveOptions(Some(quality), Some(true)))
  {
  }

  /**
   * A file named `stem.e` (a non-dot character in `stem`, no dot in `e`) has rule key
   * `e` lower-cased and base name `stem`.
   */
  lemma {:induction false} KeyOfNamedFile(dir: string, stem: string, e: string)
    requires dir == [] || dir[|dir| - 1] == Sep
    requires Sep !in stem && HasNonDot(stem)
    requires Sep !in e && ExtSep !in e
    ensures ExtensionKey(dir + stem + [ExtSep] + e) == Lower(e)
    ensures Stem(dir + stem + [ExtSep] + e) == stem
  {
    SplitExtOfNamed(dir, stem, e);
    SplitExtOfNamed([], stem, e);
    assert [] + stem + [ExtSep] + e == stem + [ExtSep] + e;
    assert ([ExtSep] + e)[1..] == e;
  }

  /** A file whose name has no dot except leading ones has the empty rule key and is its own base name. */
  lemma {:induction false} KeyOfUndottedFile(dir: string, name: string)
    requires dir == [] || dir[|dir| - 1] == Sep
    requires Sep !in name
    requires forall i, j :: 0 <= j < i < |name| && name[i] == ExtSep ==> name[j] == ExtSep
    ensures ExtensionKey(dir + name) == []
    ensures Stem(dir + name) == name
  {
    SplitExtOfUndotted(dir, name);
    SplitExtOfUndotted([], name);
    assert [] + name == name;
  }

  /** The base name of a path in a directory is the file name, whatever the directory. */
  lemma StemOfJoined(dir: string, name: string)
    requires dir == [] || dir[|dir| - 1] == Sep
    requires Sep !in name
    ensures Stem(dir + name) == SplitExt(name).0
  {
    LastSepOfJoined(dir, name);
    BasenameAfter(dir + name, |dir| - 1);
    assert (dir + name)[|dir|..] == name;
  }

  /**
   * Two sources with the same file name in different directories are planned to the same
   * destination path, so the later one in a run overwrites the output of the earlier.
   */
  lemma SameNameSameDestination(outputDir: string, dir1: string, dir2: string, name: string, destExt: string)
    requires dir1 == [] || dir1[|dir1| - 1] == Sep
    requires dir2 == [] || dir2[|dir2| - 1] == Sep
    requires Sep !in name
    ensures DestinationPath(outputDir, dir1 + name, destExt) == DestinationPath(outputDir, dir2 + name, destExt)
  {
    StemOfJoined(dir1, name);
    StemOfJoined(dir2, name);
  }

  /**
   * Planning the destination path again recovers the chosen extension as its rule key and
   * the source's base name, as long as that base name is not made of dots only and the
   * extension is a lower-case name without dot or separator.
   */
  lemma {:induction false} DestinationRoundTrip(outputDir: string, path: string, destExt: string)
    requires HasNonDot(Stem(path))
    requires Sep !in destExt && ExtSep !in destExt && IsLowercase(destExt)
    ensures ExtensionKey(DestinationPath(outputDir, path, destExt)) == destExt
    ensures Stem(DestinationPath(outputDir, path, destExt)) == Stem(path)
  {
    var stem := Stem(path);
    assert stem != [] && stem[0] != Sep by {
      var i :| 0 <= i < |stem| && stem[i] != ExtSep;
    }
    JoinNamed(outputDir, stem, destExt);
    KeyOfNamedFile(DirPrefix(outputDir), stem, destExt);
    LowerOfLowercase(destExt);
  }

  /**
   * A path with a dot at `n`, neither dot nor separator after it, and a non-dot character
   * in its last component before it, has the text after that dot as its extension.
   */
  lemma {:induction false} KeyAfterDot(path: string, n: int)
    requires 0 <= n < |path| && path[n] == ExtSep
    requires HasNonDot(Basename(path[..n]))
    requires forall k :: n < k < |path| ==> path[k] != ExtSep && path[k] != Sep
    ensures ExtensionKey(path) == Lower(path[n + 1..])
  {
    SplitExtAt(path, n);
    assert path[n..][1..] == path[n + 1..];
  }

  /**
   * A path that, lower-cased, ends with a dot and lower-case letters, and whose name has
   * something besides dots before that ending, has those letters as its rule key.
   */
  lemma {:induction false} KeyOfDottedEnding(path: string, suffix: string)
    requires |suffix| >= 1 && suffix[0] == ExtSep
    requires forall k :: 1 <= k < |suffix| ==> IsLowerAscii(suffix[k])
    requires EndsWith(Lower(path), suffix)
    requires HasNonDot(Basename(path[..|path| - |suffix|]))
    ensures ExtensionKey(path) == suffix[1..]
  {
    var n := |path| - |suffix|;
    LowerEndsWithDotted(path, suffix, n);
    KeyAfterDot(path, n);
  }

  /**
   * A path admitted for one of the supported endings, whose name has something besides
   * dots before that ending, is planned under that extension: its rule key is the ending
   * without the dot, which is a source of the catalogue.
   */
  lemma {:induction false} KeyOfSupportedPath(path: string, i: int)
    requires 0 <= i < |SupportedExtensions| && EndsWith(Lower(path), SupportedExtensions[i])
    requires HasNonDot(Basename(path[..|path| - |SupportedExtensions[i]|]))
    ensures ExtensionKey(path) == SupportedExtensions[i][1..]
    ensures ExtensionKey(path) in ConversionMap
  {
    SupportedExtensionShape(i);
    KeyOfDottedEnding(path, SupportedExtensions[i]);
    SupportedEndingIsSource(i);
  }

  /**
   * For the lower-case destinations the rule editor produces, choosing quality options by
   * extension is the same as choosing them by encoder: exactly the JPEG and WEBP encoders
   * get a quality setting.
   */
  lemma {:induction false} LossyByEncoder(destExt: string, quality: int)
    requires IsLowercase(destExt)
    ensures SaveOptionsFor(destExt, quality).quality.Some? <==> EncoderName(destExt) in {"JPEG", "WEBP"}
  {
    var name := EncoderName(destExt);
    if name == "JPEG" && destExt != "jpg" {
      UpperInjectiveOnLowercase(destExt, "jpeg");
    } else if name == "WEBP" {
      UpperInjectiveOnLowercase(destExt, "webp");
    }
  }

  /** Upper-casing loses nothing on strings without upper-case letters. */
  lemma {:induction false} UpperInjectiveOnLowercase(s: string, t: string)
    requires IsLowercase(s) && IsLowercase(t) && Upper(s) == Upper(t)
    ensures s == t
  {
    forall k | 0 <= k < |s| ensures s[k] == t[k] {
      assert UpperChar(s[k]) == UpperChar(t[k]);
    }
  }
}
