/**
 * One conversion run over the candidate list: every path is planned and handed to the
 * image library, whose open/convert/save step may raise; each item ends in one log entry,
 * and a failure is recorded and the run goes on with the next item.
 */
module Batch {
  import opened Text
  import opened Rules
  import opened Planner

  /** What the decode-convert-encode step did with one job. */
  datatype SaveOutcome = Saved | Raised(detail: string)

  /** The arguments of the library calls for one item: open `source`, save to `destPath` as `formatName` with `options`. */
  datatype Job = Job(source: string, destPath: string, formatName: string, options: SaveOptions)

  /** One line of the conversion log. */
  datatype LogEntry =
    | Converted(source: string, destPath: string)
    | Failed(source: string, detail: string)

  function JobOf(p: Plan): Job {
    Job(p.source, p.destPath, p.formatName, p.options)
  }

  /**
   * One item of the loop: the outcome names the source, succeeds exactly when the encode
   * step does, and then names the planned destination; otherwise it carries the error.
   */
  function Attempt(p: Plan, encode: Job -> SaveOutcome): (entry: LogEntry)
    ensures entry.source == p.source
    ensures entry.Converted? <==> encode(JobOf(p)).Saved?
    ensures entry.Converted? ==> entry.destPath == p.destPath
    ensures entry.Failed? ==> entry.detail == encode(JobOf(p)).detail
  {
    match encode(JobOf(p))
    case Saved => Converted(p.source, p.destPath)
    case Raised(detail) => Failed(p.source, detail)
  }

  /** The outcome of the item for `path`. */
  function ItemOutcome(rules: RuleTable, outputDir: string, quality: int, encode: Job -> SaveOutcome, path: string): LogEntry {
    Attempt(PlanItem(rules, outputDir, quality, path), encode)
  }

  /** The item step of a run with fixed rules, output directory, quality and library. */
  function ItemStep(rules: RuleTable, outputDir: string, quality: int, encode: Job -> SaveOutcome): string -> LogEntry {
    path => ItemOutcome(rules, outputDir, quality, encode, path)
  }

  /**
   * The log of a run: one entry per path, in the order of the paths, and the entry for
   * each path is the step's outcome for that path. The step is a function of the path
   * alone, so what earlier items wrote to disk is not part of the model.
   */
  function Run(step: string -> LogEntry, paths: seq<string>): (log: seq<LogEntry>)
    ensures |log| == |paths|
    ensures forall i :: 0 <= i < |paths| ==> log[i] == step(paths[i])
    decreases |paths|
  {
    if paths == [] then []
    else
      var n := |paths| - 1;
      Run(step, paths[..n]) + [step(paths[n])]
  }

  /** Running one more item appends that item's outcome. */
  lemma RunStep(step: string -> LogEntry, paths: seq<string>, i: int)
    requires 0 <= i < |paths|
    ensures Run(step, paths[..i + 1]) == Run(step, paths[..i]) + [step(paths[i])]
  {
    assert paths[..i + 1][..i] == paths[..i];
  }

  /** Entries that record a successful conversion. */
  function CountConverted(log: seq<LogEntry>): (n: nat)
    ensures n <= |log|
  {
    if log == [] then 0
    else CountConverted(log[..|log| - 1]) + (if log[|log| - 1].Converted? then 1 else 0)
  }

  /** A run over two lists logs the first list's outcomes and then the second's. */
  lemma RunConcat(step: string -> LogEntry, paths1: seq<string>, paths2: seq<string>)
    ensures Run(step, paths1 + paths2) == Run(step, paths1) + Run(step, paths2)
  {
    var all := Run(step, paths1 + paths2);
    var r1 := Run(step, paths1);
    var r2 := Run(step, paths2);
    forall i | 0 <= i < |all| ensures all[i] == (r1 + r2)[i] {
      if i >= |paths1| {
        assert (paths1 + paths2)[i] == paths2[i - |paths1|];
      }
    }
  }

  /**
   * When exactly one item's encode step raises, that item is logged as failed and every
   * other item, before or after it, is converted to its planned destination.
   */
  lemma {:induction false} OneFailureDoesNotStopRun(
    rules: RuleTable, outputDir: string, quality: int, encode: Job -> SaveOutcome, paths: seq<string>, j: int)
    requires 0 <= j < |paths|
    requires encode(JobOf(PlanItem(rules, outputDir, quality, paths[j]))).Raised?
    requires forall k :: 0 <= k < |paths| && k != j ==> encode(JobOf(PlanItem(rules, outputDir, quality, paths[k]))).Saved?
    ensures Run(ItemStep(rules, outputDir, quality, encode), paths)[j].Failed?
    ensures forall k :: 0 <= k < |paths| && k != j ==>
      Run(ItemStep(rules, outputDir, quality, encode), paths)[k]
        == Converted(paths[k], PlanItem(rules, outputDir, quality, paths[k]).destPath)
    ensures CountConverted(Run(ItemStep(rules, outputDir, quality, encode), paths)) == |paths| - 1
  {
    var step := ItemStep(rules, outputDir, quality, encode);
    var log := Run(step, paths);
    forall k | 0 <= k < |paths|
      ensures k != j ==> log[k] == Converted(paths[k], PlanItem(rules, outputDir, quality, paths[k]).destPath)
      ensures k == j ==> log[k].Failed?
    {
      ItemStepOutcome(rules, outputDir, quality, encode, paths[k]);
    }
    CountAllButOne(log, j);
  }

  /** The entry of one item: a conversion to its planned path when the encode step saves, a failure when it raises. */
  lemma ItemStepOutcome(rules: RuleTable, outputDir: string, quality: int, encode: Job -> SaveOutcome, path: string)
    ensures var p := PlanItem(rules, outputDir, quality, path);
      && (encode(JobOf(p)).Saved? ==> ItemStep(rules, outputDir, quality, encode)(path) == Converted(path, p.destPath))
      && (encode(JobOf(p)).Raised? ==> ItemStep(rules, outputDir, quality, encode)(path).Failed?)
  {
  }

  /** A log whose entries all record a conversion except the one at `j` counts one conversion short. */
  lemma {:induction false} CountAllButOne(log: seq<LogEntry>, j: int)
    requires 0 <= j < |log| && log[j].Failed?
    requires forall k :: 0 <= k < |log| && k != j ==> log[k].Converted?
    ensures CountConverted(log) == |log| - 1
    decreases |log|
  {
    var n := |log| - 1;
    if j < n {
      CountAllButOne(log[..n], j);
    } else {
      CountAllConverted(log[..n]);
    }
  }

  lemma {:induction false} CountAllConverted(log: seq<LogEntry>)
    requires forall k :: 0 <= k < |log| ==> log[k].Converted?
    ensures CountConverted(log) == |log|
    decreases |log|
  {
    if log != [] {
      CountAllConverted(log[..|log| - 1]);
    }
  }
}
