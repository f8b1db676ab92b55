/** Crashes, resumptions and overwrites of the benchmark queue. */
module QueueRuns {
  import opened Options
  import opened Queue

  ghost predicate Within(f: Files, g: Files) {
    forall k :: k in f ==> k in g && g[k] == f[k]
  }

  /** A run only adds result files, each the one its key's arm writes, and never changes one. */
  lemma {:induction false} RunOnlyAdds(c: Config, f: Files, keys: seq<string>, i: nat, done: seq<string>,
                                       skipped: seq<(string, Why)>)
    ensures var o := RunFrom(c, f, keys, i, done, skipped);
            && Within(f, o.files)
            && forall k :: k in o.files && k !in f ==>
                 && k in keys[if i < |keys| then i else |keys|..]
                 && k in c.models && k in c.onDisk && RunModel(c, k) == Finished(o.files[k])
    decreases |keys| - i
  {
    if i < |keys| {
      var key := keys[i];
      assert keys[i..] == [key] + keys[i + 1..];
      match ActionFor(c, f, key)
      case Stop =>
      case AlreadyDone => RunOnlyAdds(c, f, keys, i + 1, done + [key], skipped);
      case Finish(result) => RunOnlyAdds(c, f[key := result], keys, i + 1, done + [key], skipped);
      case Skip(why) => RunOnlyAdds(c, f, keys, i + 1, done, skipped + [(key, why)]);
    }
  }

  /** Finding progress of its own, the queue does the same with a key, or finds it done already; or
      stops at it, if the arms write another schema hash than the one expected. */
  lemma {:induction false} ActionOnProgress(c: Config, f: Files, g: Files, key: string)
    requires Within(f, g)
    requires key in g ==> key in f || (key in c.models && key in c.onDisk && RunModel(c, key) == Finished(g[key]))
    ensures ActionFor(c, g, key) ==
              if ActionFor(c, f, key).Finish? && key in g then (if c.tree == c.schema then AlreadyDone else Stop)
              else ActionFor(c, f, key)
    ensures ActionFor(c, f, key).Finish? && key in g ==> g[key] == ActionFor(c, f, key).result
    ensures ActionFor(c, f, key).Skip? || (ActionFor(c, f, key).Stop? && key !in f) ==> key !in g
  {
  }

  /** A run is no different for finding some of its own results already there. */
  lemma {:induction false} RunIgnoresProgress(c: Config, f: Files, g: Files, keys: seq<string>, i: nat,
                                              done: seq<string>, skipped: seq<(string, Why)>)
    requires c.tree == c.schema
    requires Within(f, g) && Within(g, RunFrom(c, f, keys, i, done, skipped).files)
    ensures RunFrom(c, g, keys, i, done, skipped) == RunFrom(c, f, keys, i, done, skipped)
    decreases |keys| - i
  {
    if i >= |keys| {
      SameFiles(f, g);
      return;
    }
    var key := keys[i];
    assert key in g ==> key in f || (key in c.models && key in c.onDisk && RunModel(c, key) == Finished(g[key])) by {
      RunOnlyAdds(c, f, keys, i, done, skipped);
    }
    ActionOnProgress(c, f, g, key);
    match ActionFor(c, f, key)
    case Stop => SameFiles(f, g);
    case AlreadyDone => RunIgnoresProgress(c, f, g, keys, i + 1, done + [key], skipped);
    case Finish(result) =>
      var f' := f[key := result];
      assert Within(f', RunFrom(c, f', keys, i + 1, done + [key], skipped).files) by {
        RunOnlyAdds(c, f', keys, i + 1, done + [key], skipped);
      }
      RunIgnoresProgress(c, f', g[key := result], keys, i + 1, done + [key], skipped);
      assert key in g ==> g[key := result] == g;
    case Skip(why) => RunIgnoresProgress(c, f, g, keys, i + 1, done, skipped + [(key, why)]);
  }

  lemma {:induction false} SameFiles(f: Files, g: Files)
    requires Within(f, g) && Within(g, f)
    ensures f == g
  {
    assert forall k :: k in f <==> k in g;
  }

  // --------------------------------------------------------------------------------------------
  // Crashes

  /** The directory a run over `keys` leaves if it crashes before key `j`. */
  function CrashedBefore(c: Config, f: Files, keys: seq<string>, j: nat): (g: Files)
    requires j <= |keys|
  {
    Run(c, f, keys[..j]).files
  }

  lemma {:induction false} CrashLeavesPart(c: Config, f: Files, keys: seq<string>, j: nat, i: nat,
                                           done: seq<string>, skipped: seq<(string, Why)>)
    requires i <= j <= |keys|
    ensures Within(RunFrom(c, f, keys[..j], i, done, skipped).files, RunFrom(c, f, keys, i, done, skipped).files)
    decreases j - i
  {
    if i == j {
      RunOnlyAdds(c, f, keys, i, done, skipped);
    } else {
      var key := keys[i];
      assert keys[..j][i] == key;
      match ActionFor(c, f, key)
      case Stop =>
      case AlreadyDone => CrashLeavesPart(c, f, keys, j, i + 1, done + [key], skipped);
      case Finish(result) => CrashLeavesPart(c, f[key := result], keys, j, i + 1, done + [key], skipped);
      case Skip(why) => CrashLeavesPart(c, f, keys, j, i + 1, done, skipped + [(key, why)]);
    }
  }

  /** The directory after any number of runs that crashed, each before some key. */
  function AfterCrashes(c: Config, f: Files, keys: seq<string>, crashes: seq<nat>): (g: Files)
    requires forall n :: 0 <= n < |crashes| ==> crashes[n] <= |keys|
  {
    if crashes == [] then f
    else CrashedBefore(c, AfterCrashes(c, f, keys, crashes[..|crashes| - 1]), keys, crashes[|crashes| - 1])
  }

  /** A run that finds part of another run's results leaves no more than that run would. */
  lemma {:induction false} ProgressStaysWithin(c: Config, f: Files, g: Files, keys: seq<string>, i: nat,
                                               done: seq<string>, skipped: seq<(string, Why)>)
    requires Within(f, g) && Within(g, RunFrom(c, f, keys, i, done, skipped).files)
    ensures Within(RunFrom(c, g, keys, i, done, skipped).files, RunFrom(c, f, keys, i, done, skipped).files)
    decreases |keys| - i
  {
    if i >= |keys| {
      return;
    }
    var key := keys[i];
    assert key in g ==> key in f || (key in c.models && key in c.onDisk && RunModel(c, key) == Finished(g[key])) by {
      RunOnlyAdds(c, f, keys, i, done, skipped);
    }
    ActionOnProgress(c, f, g, key);
    match ActionFor(c, f, key)
    case Stop =>
    case AlreadyDone => ProgressStaysWithin(c, f, g, keys, i + 1, done + [key], skipped);
    case Finish(result) =>
      var f' := f[key := result];
      assert Within(f', RunFrom(c, f', keys, i + 1, done + [key], skipped).files) by {
        RunOnlyAdds(c, f', keys, i + 1, done + [key], skipped);
      }
      ProgressStaysWithin(c, f', g[key := result], keys, i + 1, done + [key], skipped);
      assert key in g ==> g[key := result] == g;
    case Skip(why) => ProgressStaysWithin(c, f, g, keys, i + 1, done, skipped + [(key, why)]);
  }

  lemma {:induction false} CrashesLeavePart(c: Config, f: Files, keys: seq<string>, crashes: seq<nat>)
    requires forall n :: 0 <= n < |crashes| ==> crashes[n] <= |keys|
    ensures var g := AfterCrashes(c, f, keys, crashes); Within(f, g) && Within(g, Run(c, f, keys).files)
  {
    RunOnlyAdds(c, f, keys, 0, [], []);
    if crashes != [] {
      var before, j := crashes[..|crashes| - 1], crashes[|crashes| - 1];
      CrashesLeavePart(c, f, keys, before);
      var g := AfterCrashes(c, f, keys, before);
      ProgressStaysWithin(c, f, g, keys, 0, [], []);
      RunOnlyAdds(c, g, keys[..j], 0, [], []);
      CrashLeavesPart(c, g, keys, j, 0, [], []);
    }
  }

  /** After any number of crashes, each between any two arms, re-running the queue reaches the same
      result files and returns the same done, skipped and stopped as a run that never crashed. */
  lemma {:induction false} ResumeIsUninterrupted(c: Config, f: Files, keys: seq<string>, crashes: seq<nat>)
    requires c.tree == c.schema && forall n :: 0 <= n < |crashes| ==> crashes[n] <= |keys|
    ensures Run(c, AfterCrashes(c, f, keys, crashes), keys) == Run(c, f, keys)
  {
    CrashesLeavePart(c, f, keys, crashes);
    RunIgnoresProgress(c, f, AfterCrashes(c, f, keys, crashes), keys, 0, [], []);
  }

  // --------------------------------------------------------------------------------------------
  // When the tree's schema is not the one the queue was told to expect

  lemma {:induction false} DoneGrows(c: Config, f: Files, keys: seq<string>, i: nat, done: seq<string>,
                                     skipped: seq<(string, Why)>)
    ensures |RunFrom(c, f, keys, i, done, skipped).done| >= |done|
    decreases |keys| - i
  {
    if i < |keys| {
      match ActionFor(c, f, keys[i])
      case Stop =>
      case AlreadyDone => DoneGrows(c, f, keys, i + 1, done + [keys[i]], skipped);
      case Finish(result) => DoneGrows(c, f[keys[i] := result], keys, i + 1, done + [keys[i]], skipped);
      case Skip(why) => DoneGrows(c, f, keys, i + 1, done, skipped + [(keys[i], why)]);
    }
  }

  /** A key the run from `f` finishes is a stop for any later run that finds its result. */
  lemma {:induction false} ProgressStops(c: Config, f: Files, g: Files, keys: seq<string>, i: nat,
                                         done: seq<string>, skipped: seq<(string, Why)>, k: string)
    requires c.tree != c.schema && Within(f, g) && Within(g, RunFrom(c, f, keys, i, done, skipped).files)
    requires k in g && k !in f
    ensures |RunFrom(c, g, keys, i, done, skipped).done| < |RunFrom(c, f, keys, i, done, skipped).done|
    decreases |keys| - i
  {
    if i < |keys| {
      var key := keys[i];
      match ActionFor(c, f, key)
      case Stop =>
      case AlreadyDone => ProgressStops(c, f, g, keys, i + 1, done + [key], skipped, k);
      case Finish(result) =>
        var f' := f[key := result];
        RunOnlyAdds(c, f', keys, i + 1, done + [key], skipped);
        DoneGrows(c, f', keys, i + 1, done + [key], skipped);
        if key !in g {
          ProgressStops(c, f', g[key := result], keys, i + 1, done + [key], skipped, k);
        }
      case Skip(why) =>
        RunOnlyAdds(c, f, keys, i + 1, done, skipped + [(key, why)]);
        ProgressStops(c, f, g, keys, i + 1, done, skipped + [(key, why)], k);
    }
  }

  /** Exactly when a run resumed after any number of crashes is the uninterrupted one: the arms write the
      schema hash the queue expects, or none had finished before the crashes. Without an explicit hash
      the first always holds. */
  lemma {:induction false} ResumesIff(c: Config, f: Files, keys: seq<string>, crashes: seq<nat>)
    requires forall n :: 0 <= n < |crashes| ==> crashes[n] <= |keys|
    ensures Run(c, AfterCrashes(c, f, keys, crashes), keys) == Run(c, f, keys)
            <==> c.tree == c.schema || AfterCrashes(c, f, keys, crashes) == f
  {
    var g := AfterCrashes(c, f, keys, crashes);
    CrashesLeavePart(c, f, keys, crashes);
    if c.tree == c.schema {
      ResumeIsUninterrupted(c, f, keys, crashes);
    } else if g != f {
      if forall k :: k in g ==> k in f {
        SameFiles(f, g);
      }
      var k :| k in g && k !in f;
      ProgressStops(c, f, g, keys, 0, [], [], k);
    }
  }

  // --------------------------------------------------------------------------------------------
  // Stops

  /** How many keys a run went through. */
  function Processed(o: Outcome): (n: nat) {
    |o.done| + |o.skipped|
  }

  /** The keys gone through are the leading ones, each either done or skipped; a stop is at the next. */
  lemma {:induction false} RunGoesThroughPrefix(c: Config, f: Files, keys: seq<string>, i: nat,
                                                done: seq<string>, skipped: seq<(string, Why)>)
    requires i <= |keys| && |done| + |skipped| == i
    ensures var o := RunFrom(c, f, keys, i, done, skipped); var n := Processed(o);
            && i <= n <= |keys|
            && (o.stopped.None? <==> n == |keys|)
            && (o.stopped.Some? ==> o.stopped.value == keys[n])
            && o == RunFrom(c, f, keys[..n], i, done, skipped).(stopped := o.stopped)
    decreases |keys| - i
  {
    if i < |keys| {
      var key := keys[i];
      match ActionFor(c, f, key)
      case Stop =>
      case AlreadyDone => RunGoesThroughPrefix(c, f, keys, i + 1, done + [key], skipped);
      case Finish(result) => RunGoesThroughPrefix(c, f[key := result], keys, i + 1, done + [key], skipped);
      case Skip(why) => RunGoesThroughPrefix(c, f, keys, i + 1, done, skipped + [(key, why)]);
    }
  }

  /** No existing result is ever overwritten, and the keys from a stop on leave no trace: the run is
      what it would have been had they not been in the queue. */
  lemma {:induction false} NothingAfterAStop(c: Config, f: Files, keys: seq<string>)
    ensures var o := Run(c, f, keys); var n := Processed(o);
            && Within(f, o.files) && n <= |keys|
            && (o.stopped.None? <==> n == |keys|) && (o.stopped.Some? ==> o.stopped.value == keys[n])
            && Run(c, f, keys[..n]) == o.(stopped := None)
            && forall k :: k in o.files && k !in f ==> k in keys[..n]
  {
    RunOnlyAdds(c, f, keys, 0, [], []);
    RunGoesThroughPrefix(c, f, keys, 0, [], []);
    var n := Processed(Run(c, f, keys));
    RunGoesThroughPrefix(c, f, keys[..n], 0, [], []);
    RunOnlyAdds(c, f, keys[..n], 0, [], []);
  }

  // --------------------------------------------------------------------------------------------
  // What the returned lists mean

  /** A finished result of this contract, on the build asked for, under the schema the queue expects or
      the one in the tree. */
  predicate Measured(c: Config, r: Result) {
    && r.contract == Some(CONTRACT) && BuildMatches(r.version, c.requireBuild)
    && (r.schema == Some(c.schema) || r.schema == Some(c.tree))
  }

  /** Why a key without a result file is passed over, if it is. */
  predicate PassedOver(c: Config, key: string, why: Why) {
    match why
    case UnknownKey => key !in c.models
    case FileAbsent => key in c.models && key !in c.onDisk
    case ArmError => key in c.models && key in c.onDisk && RunModel(c, key) == OtherError
  }

  /** Why the queue stops at a key: a result it will not overwrite, or a render mismatch. */
  predicate Refuses(c: Config, files: Files, key: string) {
    if key in files then
      var r := files[key];
      r.contract != Some(CONTRACT) || r.schema != Some(c.schema) || !BuildMatches(r.version, c.requireBuild)
    else key in c.models && key in c.onDisk && RunModel(c, key) == RenderMismatch
  }

  ghost predicate ListsMean(c: Config, files: Files, done: seq<string>, skipped: seq<(string, Why)>) {
    && (forall k :: k in done ==> k in files && Measured(c, files[k]))
    && (forall p :: p in skipped ==> p.0 !in files && PassedOver(c, p.0, p.1))
  }

  lemma {:induction false} RunKeepsMeaning(c: Config, f: Files, keys: seq<string>, i: nat, done: seq<string>,
                                           skipped: seq<(string, Why)>)
    requires ListsMean(c, f, done, skipped)
    ensures var o := RunFrom(c, f, keys, i, done, skipped);
            && ListsMean(c, o.files, o.done, o.skipped)
            && (o.stopped.Some? ==> Refuses(c, o.files, o.stopped.value))
    decreases |keys| - i
  {
    if i < |keys| {
      var key := keys[i];
      match ActionFor(c, f, key)
      case Stop =>
      case AlreadyDone => RunKeepsMeaning(c, f, keys, i + 1, done + [key], skipped);
      case Finish(result) => RunKeepsMeaning(c, f[key := result], keys, i + 1, done + [key], skipped);
      case Skip(why) => RunKeepsMeaning(c, f, keys, i + 1, done, skipped + [(key, why)]);
    }
  }

  /** In every run each done key has a measured result file, each skipped key has none and its reason
      holds, and a stop is at a result that may not be overwritten or at a render mismatch. */
  lemma {:induction false} ListsMeanWhatTheySay(c: Config, f: Files, keys: seq<string>)
    ensures var o := Run(c, f, keys);
            && ListsMean(c, o.files, o.done, o.skipped)
            && (o.stopped.Some? ==> Refuses(c, o.files, o.stopped.value))
  {
    RunKeepsMeaning(c, f, keys, 0, [], []);
  }
}
