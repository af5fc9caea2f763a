/**
 * The persisted preferences (`config.json`): output directory, quality and rule table,
 * how they are read back at start-up with per-field defaults, and how they are written.
 * The JSON text itself is not modelled; a file is either missing, unreadable, or holds a
 * record whose three fields may each be absent.
 */
module Config {
  import opened Wrappers
  import opened Rules

  const DefaultQuality: int := 85

  /** The three preferences the application works with. */
  datatype Prefs = Prefs(outputDir: string, quality: int, conversionRules: RuleTable)

  /** A decoded `config.json` object; a field the file lacks is `None`. */
  datatype StoredConfig = StoredConfig(
    outputDir: Option<string>,
    quality: Option<int>,
    conversionRules: Option<RuleTable>)

  /** What is on disk under `config.json`. */
  datatype ConfigFile = Missing | Unreadable(reason: string) | Present(content: StoredConfig)

  /** Why `load_config` raised instead of returning. */
  datatype LoadError = LoadError(reason: string)

  /** The preferences of a first run: no output directory, quality 85, no rules. */
  const Defaults: Prefs := Prefs("", DefaultQuality, map[])

  /**
   * `load_config()`: a missing file gives a record holding the defaults; a file that
   * cannot be read or decoded makes the call raise; otherwise the decoded record.
   */
  function LoadConfig(file: ConfigFile): (r: Result<StoredConfig, LoadError>)
    ensures file.Missing? ==> r.Success? && Settings(r.value) == Defaults
    ensures file.Unreadable? <==> r.Failure?
    ensures file.Present? ==> r == Success(file.content)
  {
    match file
    case Missing => Success(StoredConfig(Some(""), Some(DefaultQuality), Some(map[])))
    case Unreadable(reason) => Failure(LoadError(reason))
    case Present(content) => Success(content)
  }

  /**
   * The start-up reading of a loaded record, field by field: a stored field is taken as it
   * is, and an absent one gets its default `""`, 85 or `{}`.
   */
  function Settings(stored: StoredConfig): (p: Prefs)
    ensures stored.outputDir.Some? ==> p.outputDir == stored.outputDir.value
    ensures stored.quality.Some? ==> p.quality == stored.quality.value
    ensures stored.conversionRules.Some? ==> p.conversionRules == stored.conversionRules.value
    ensures stored.outputDir.None? ==> p.outputDir == Defaults.outputDir
    ensures stored.quality.None? ==> p.quality == Defaults.quality
    ensures stored.conversionRules.None? ==> p.conversionRules == Defaults.conversionRules
  {
    Prefs(
      stored.outputDir.GetOr(""),
      stored.quality.GetOr(DefaultQuality),
      stored.conversionRules.GetOr(map[]))
  }

  /**
   * `save_current_config()`: the record written holds all three fields, so reading it
   * back at the next start gives the same preferences.
   */
  function Snapshot(p: Prefs): (stored: StoredConfig)
    ensures stored.outputDir.Some? && stored.quality.Some? && stored.conversionRules.Some?
    ensures LoadConfig(Present(stored)).Success?
    ensures Settings(LoadConfig(Present(stored)).value) == p
  {
    StoredConfig(Some(p.outputDir), Some(p.quality), Some(p.conversionRules))
  }
}
