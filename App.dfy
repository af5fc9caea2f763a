/**
 * The application object: the candidate list, the preferences it edits and saves, and the
 * conversion run over the list, with the window, dialogs and image library taken as
 * parameters.
 */
module App {
  import opened Wrappers
  import opened Rules
  import opened Config
  import opened Catalog
  import opened Candidates
  import opened Planner
  import opened Batch

  /** How a press of the convert button ends. */
  datatype RunStatus = NoImagesSelected | NoOutputDirSelected | Completed

  const MinQuality: int := 10
  const MaxQuality: int := 100

  /**
   * The value of the quality slider (`from_=10, to=100`) once it is linked to a variable
   * holding `q`: a Tk scale keeps its value within its range and writes it back to the
   * variable, so a value in range is kept and one outside is moved to the nearer end.
   */
  function SliderValue(q: int): (v: int)
    ensures MinQuality <= v <= MaxQuality
    ensures MinQuality <= q <= MaxQuality ==> v == q
    ensures q < MinQuality ==> v == MinQuality
    ensures q > MaxQuality ==> v == MaxQuality
  {
    if q < MinQuality then MinQuality else if q > MaxQuality then MaxQuality else q
  }

  class ImageConverterApp {
    /** The files waiting to be converted, in the order they were added. */
    var imagePaths: seq<string>
    var outputDir: string
    var quality: int
    var conversionRules: RuleTable
    /** What is stored under `config.json`. */
    var configFile: ConfigFile
    /** The outcomes this session writes to the conversion log, oldest first. */
    var conversionLog: seq<LogEntry>

    /** The preferences as they stand. */
    function Current(): Prefs
      reads this
    {
      Prefs(outputDir, quality, conversionRules)
    }

    /**
     * The candidate list has no duplicates and only supported file names, and the quality
     * is within the slider's range.
     */
    predicate Valid()
      reads this
    {
      && NoDuplicates(imagePaths)
      && (forall i :: 0 <= i < |imagePaths| ==> IsSupported(imagePaths[i]))
      && MinQuality <= quality <= MaxQuality
    }

    /**
     * Start-up: the preferences are read from the configuration file with the per-field
     * defaults, and the quality slider built next brings the quality into its range; an
     * unreadable file makes start-up raise, so it is excluded here.
     */
    constructor (file: ConfigFile)
      requires LoadConfig(file).Success?
      ensures var p := Settings(LoadConfig(file).value);
        Current() == p.(quality := SliderValue(p.quality))
      ensures imagePaths == [] && conversionLog == [] && configFile == file
      ensures Valid()
    {
      var stored := LoadConfig(file).value;
      imagePaths := [];
      outputDir := stored.outputDir.GetOr("");
      quality := SliderValue(stored.quality.GetOr(DefaultQuality));
      conversionRules := stored.conversionRules.GetOr(map[]);
      configFile := file;
      conversionLog := [];
    }

    /** Writes all three preferences, so that the next start-up reads back exactly these. */
    method SaveCurrentConfig()
      modifies this`configFile
      ensures configFile == Present(Snapshot(Current()))
      ensures LoadConfig(configFile).Success? && Settings(LoadConfig(configFile).value) == Current()
    {
      configFile := Present(Snapshot(Current()));
    }

    /**
     * The add button of the rule editor: both inputs are trimmed and lower-cased; when
     * both are non-empty the rule is set, replacing an old one, and the preferences are
     * saved; otherwise nothing changes.
     */
    method AddRule(srcInput: string, dstInput: string)
      modifies this`conversionRules, this`configFile
      ensures conversionRules == WithRule(old(conversionRules), srcInput, dstInput)
      ensures Normalize(srcInput) != [] && Normalize(dstInput) != [] ==> configFile == Present(Snapshot(Current()))
      ensures Normalize(srcInput) == [] || Normalize(dstInput) == [] ==>
        conversionRules == old(conversionRules) && configFile == old(configFile)
      ensures AllNormalized(old(conversionRules)) ==> AllNormalized(conversionRules)
    {
      var src := Normalize(srcInput);
      var dst := Normalize(dstInput);
      if AllNormalized(conversionRules) {
        WithRuleKeepsNormalized(conversionRules, srcInput, dstInput);
      }
      if src != [] && dst != [] {
        conversionRules := conversionRules[src := dst];
        SaveCurrentConfig();
      }
    }

    /**
     * The delete button of the rule editor: with a row selected, its source extension is
     * removed from the table if present and the preferences are saved even when it was
     * not; with no row selected nothing happens.
     */
    method DeleteRule(selected: Option<string>)
      modifies this`conversionRules, this`configFile
      ensures selected.None? ==> conversionRules == old(conversionRules) && configFile == old(configFile)
      ensures selected.Some? ==> conversionRules == WithoutRule(old(conversionRules), selected.value)
      ensures selected.Some? ==> configFile == Present(Snapshot(Current()))
      ensures AllNormalized(old(conversionRules)) ==> AllNormalized(conversionRules)
    {
      match selected
      case None =>
      case Some(src) =>
        if AllNormalized(conversionRules) {
          WithoutRuleKeepsNormalized(conversionRules, src);
        }
        if src in conversionRules {
          conversionRules := conversionRules - {src};
        }
        SaveCurrentConfig();
    }

    /** The folder button: a chosen folder becomes the output directory and is saved; a cancelled dialog changes nothing. */
    method SelectOutputDir(folder: string)
      modifies this`outputDir, this`configFile
      ensures folder != [] ==> outputDir == folder && configFile == Present(Snapshot(Current()))
      ensures folder == [] ==> outputDir == old(outputDir) && configFile == old(configFile)
    {
      if folder != [] {
        outputDir := folder;
        SaveCurrentConfig();
      }
    }

    /** Releasing the quality slider, which ranges over 10 to 100: the value is kept and saved. */
    method ReleaseQualitySlider(q: int)
      requires MinQuality <= q <= MaxQuality
      modifies this`quality, this`configFile
      ensures quality == q && configFile == Present(Snapshot(Current()))
      ensures old(Valid()) ==> Valid()
    {
      quality := q;
      SaveCurrentConfig();
    }

    /**
     * Files dropped on the window or picked in the dialog, offered in order: each one that
     * exists, has a supported ending and is not listed yet is appended.
     */
    method AddCandidates(files: seq<string>, isFile: string -> bool)
      modifies this`imagePaths
      ensures imagePaths == AppendAll(old(imagePaths), files, isFile)
      ensures old(Valid()) ==> Valid()
    {
      var i := 0;
      while i < |files|
        invariant 0 <= i <= |files|
        invariant imagePaths == AppendAll(old(imagePaths), files[..i], isFile)
      {
        var f := files[i];
        assert files[..i + 1][..i] == files[..i];
        if isFile(f) && IsSupported(f) {
          if f !in imagePaths {
            imagePaths := imagePaths + [f];
          }
        }
        i := i + 1;
      }
      assert files[..i] == files;
      if old(Valid()) {
        forall k | 0 <= k < |imagePaths| ensures IsSupported(imagePaths[k]) {
          AppendAllMembers(old(imagePaths), files, isFile, imagePaths[k]);
        }
      }
    }

    /**
     * The loop of the convert button: each path in turn is attempted and its outcome,
     * success or failure, appended to the log before the next path is taken.
     */
    method LogOutcomes(step: string -> LogEntry, paths: seq<string>)
      modifies this`conversionLog
      ensures conversionLog == old(conversionLog) + Run(step, paths)
    {
      var i := 0;
      while i < |paths|
        invariant 0 <= i <= |paths|
        invariant conversionLog == old(conversionLog) + Run(step, paths[..i])
      {
        var entry := step(paths[i]);
        RunStep(step, paths, i);
        conversionLog := conversionLog + [entry];
        i := i + 1;
      }
      assert paths[..i] == paths;
    }

    /**
     * The convert button: with no candidates, or with no output directory, an error is
     * shown and nothing is logged; otherwise every candidate is attempted in order with
     * the current rules, output directory and quality, and its outcome appended to the log.
     */
    method ConvertImages(encode: Job -> SaveOutcome) returns (status: RunStatus)
      modifies this`conversionLog
      ensures status == NoImagesSelected <==> imagePaths == []
      ensures status == NoOutputDirSelected <==> imagePaths != [] && outputDir == []
      ensures status == Completed ==>
        conversionLog == old(conversionLog) + Run(ItemStep(conversionRules, outputDir, quality, encode), imagePaths)
      ensures status != Completed ==> conversionLog == old(conversionLog)
    {
      if imagePaths == [] {
        return NoImagesSelected;
      }
      if outputDir == [] {
        return NoOutputDirSelected;
      }
      LogOutcomes(ItemStep(conversionRules, outputDir, quality, encode), imagePaths);
      return Completed;
    }
  }
}
