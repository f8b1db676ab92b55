/** The resumable benchmark queue. */
module Queue {
  import opened Options
  import opened Strings

  /** What the queue reads of a result file. */
  datatype Result = Result(contract: Option<string>, schema: Option<string>, version: Option<string>)

  /** What an arm does once its server is up: deterministic, one per key. */
  datatype Ending = Completes | Mismatches | Fails
  datatype Arm = Arm(version: string, ending: Ending)

  const CONTRACT: string := "contract2"

  /** Everything the queue finds outside the results directory. `tree` is the hash of the schema an arm
      writes, `schema` the one the queue was told to expect, `pinned` the one the field ran under. */
  datatype Config = Config(models: set<string>, onDisk: set<string>, arms: string -> Arm, requireBuild: string,
                           tree: string, schema: string, pinned: string)

  /** `build_matches`: an empty requirement matches anything, and an absent version is an empty one. */
  predicate BuildMatches(version: Option<string>, required: string) {
    required == "" || Contains(if version.Some? then version.value else "", required)
  }

  /** `run_model`: what it returns and writes, or the exception it raises. */
  datatype Ran = Finished(result: Result) | RenderMismatch | OtherError

  function RunModel(c: Config, key: string): (r: Ran) {
    var arm := c.arms(key);
    if !BuildMatches(Some(arm.version), c.requireBuild) then OtherError
    else match arm.ending
      case Completes => Finished(Result(Some(CONTRACT), Some(c.tree), Some(arm.version)))
      case Mismatches => RenderMismatch
      case Fails => OtherError
  }

  datatype Why = UnknownKey | FileAbsent | ArmError

  datatype Action = AlreadyDone | Finish(result: Result) | Skip(why: Why) | Stop

  type Files = map<string, Result>

  /** What the queue does with one key. */
  function ActionFor(c: Config, files: Files, key: string): (a: Action) {
    if key in files then
      var prev := files[key];
      if prev.contract == Some(CONTRACT) && prev.schema == Some(c.schema) && BuildMatches(prev.version, c.requireBuild)
      then AlreadyDone else Stop
    else if key !in c.models then Skip(UnknownKey)
    else if key !in c.onDisk then Skip(FileAbsent)
    else match RunModel(c, key)
      case Finished(result) => Finish(result)
      case RenderMismatch => Stop
      case OtherError => Skip(ArmError)
  }

  /** The directory the run leaves, and what it returns. */
  datatype Outcome = Outcome(files: Files, done: seq<string>, skipped: seq<(string, Why)>, stopped: Option<string>)

  function RunFrom(c: Config, files: Files, keys: seq<string>, i: nat, done: seq<string>,
                   skipped: seq<(string, Why)>): (o: Outcome)
    decreases |keys| - i
  {
    if i >= |keys| then Outcome(files, done, skipped, None)
    else match ActionFor(c, files, keys[i])
      case Stop => Outcome(files, done, skipped, Some(keys[i]))
      case AlreadyDone => RunFrom(c, files, keys, i + 1, done + [keys[i]], skipped)
      case Finish(result) => RunFrom(c, files[keys[i] := result], keys, i + 1, done + [keys[i]], skipped)
      case Skip(why) => RunFrom(c, files, keys, i + 1, done, skipped + [(keys[i], why)])
  }

  /** The specification of a queue that is not refused. */
  function Run(c: Config, files: Files, keys: seq<string>): (o: Outcome) {
    RunFrom(c, files, keys, 0, [], [])
  }

  class ResultsDir {
    var files: Files

    constructor (files: Files)
      ensures this.files == files
    {
      this.files := files;
    }

    /** `run_queue`; `refused` stands for `SystemExit`. */
    method RunQueue(c: Config, keys: seq<string>)
      returns (refused: bool, done: seq<string>, skipped: seq<(string, Why)>, stopped: Option<string>)
      modifies this
      ensures refused <==> c.schema != c.pinned
      ensures refused ==> files == old(files)
      ensures !refused ==> Outcome(files, done, skipped, stopped) == Run(c, old(files), keys)
    {
      refused, done, skipped, stopped := false, [], [], None;
      if c.schema != c.pinned {
        refused := true;
        return;
      }
      for i := 0 to |keys|
        invariant RunFrom(c, files, keys, i, done, skipped) == Run(c, old(files), keys)
      {
        var key := keys[i];
        if key in files {
          var prev := files[key];
          if prev.contract == Some(CONTRACT) && prev.schema == Some(c.schema) {
            if !BuildMatches(prev.version, c.requireBuild) {
              stopped := Some(key);
              return;
            }
            done := done + [key];
            continue;
          }
          stopped := Some(key);
          return;
        }
        if key !in c.models {
          skipped := skipped + [(key, UnknownKey)];
          continue;
        }
        if key !in c.onDisk {
          skipped := skipped + [(key, FileAbsent)];
          continue;
        }
        var ran := RunModel(c, key);
        if ran.RenderMismatch? {
          stopped := Some(key);
          return;
        }
        if ran.OtherError? {
          skipped := skipped + [(key, ArmError)];
          continue;
        }
        files := files[key := ran.result];
        done := done + [key];
      }
    }
  }
}
