/** The gate over the build script's copies and the applications' source lists, from the parsed copy
    set, compile lists and include sets on. */
module CopyGate {
  import opened Options
  import opened Sets

  datatype App = Driver | Inference | Input

  const APPS: seq<App> := [Driver, Inference, Input]

  /** A relative path, split at its last slash, if it has one. */
  datatype Path = Path(folder: Option<string>, base: string)
  {
    /** The directory looked up in an include list: a path without a slash has the empty one. */
    function Dir(): (dir: string) {
      if folder.Some? then folder.value else ""
    }
  }

  datatype Copy = Copy(app: App, path: Path)

  /** What the gate reads. */
  datatype Tree = Tree(flag: string, inputCmake: bool, copies: set<Copy>, compiled: App -> seq<Path>,
                       includes: App -> set<string>, allow: map<Copy, string>, reverse: set<Copy>)

  predicate EndsWith(s: string, end: string) {
    |s| >= |end| && s[|s| - |end|..] == end
  }

  function CCopies(t: Tree): (cs: set<Copy>) {
    set c | c in t.copies && EndsWith(c.path.base, ".c")
  }

  function HCopies(t: Tree): (cs: set<Copy>) {
    set c | c in t.copies && EndsWith(c.path.base, ".h")
  }

  // --------------------------------------------------------------------------------------------
  // The findings of each check

  predicate Compiles(t: Tree, c: Copy) {
    c.path in t.compiled(c.app)
  }

  predicate BaseIn(paths: seq<Path>, base: string) {
    exists i :: 0 <= i < |paths| && paths[i].base == base
  }

  /** CHECK 1: a copy the application does not compile, while it compiles its namesake elsewhere. */
  predicate Diverges(t: Tree, c: Copy) {
    !Compiles(t, c) && BaseIn(t.compiled(c.app), c.path.base)
  }

  /** CHECK 2: a copy nothing compiles. */
  predicate Orphaned(t: Tree, c: Copy) {
    !Compiles(t, c) && !BaseIn(t.compiled(c.app), c.path.base)
  }

  function Divergences(t: Tree): (cs: set<Copy>) {
    set c | c in CCopies(t) && Diverges(t, c)
  }

  function Orphans(t: Tree): (cs: set<Copy>) {
    set c | c in CCopies(t) && Orphaned(t, c)
  }

  function Unlisted(t: Tree): (cs: set<Copy>) {
    set c | c in Orphans(t) && c !in t.allow
  }

  predicate Blank(reason: string) {
    forall i :: 0 <= i < |reason| ==> reason[i] in " \t\n\r"
  }

  function WithoutReason(t: Tree): (cs: set<Copy>) {
    set c | c in t.allow.Keys && Blank(t.allow[c])
  }

  function Stale(t: Tree): (cs: set<Copy>) {
    set c | c in t.allow.Keys && c !in Orphans(t)
  }

  /** CHECK 3: a compiled source that nothing copies. */
  predicate Unwritten(t: Tree, app: App, src: Path) {
    Copy(app, src) !in CCopies(t) && Copy(app, src) !in t.reverse
  }

  /** One finding for each mention in the source list. */
  function UnwrittenIn(t: Tree, app: App, srcs: seq<Path>): (n: nat) {
    if srcs == [] then 0
    else UnwrittenIn(t, app, srcs[..|srcs| - 1]) + if Unwritten(t, app, srcs[|srcs| - 1]) then 1 else 0
  }

  /** The header copies of an application on its include path. */
  function OnPath(t: Tree, app: App): (cs: set<Copy>) {
    set c | c in HCopies(t) && c.app == app && c.path.Dir() in t.includes(app)
  }

  predicate SharesBase(cs: set<Copy>, c: Copy) {
    exists d :: d in cs && d != c && d.path.base == c.path.base
  }

  /** CHECK 4: the header names with two or more copies on the include path. */
  function Shadowed(t: Tree, app: App): (bases: set<string>) {
    set c | c in OnPath(t, app) && SharesBase(OnPath(t, app), c) :: c.path.base
  }

  // --------------------------------------------------------------------------------------------
  // The floors

  predicate CopiesFor(t: Tree, app: App) {
    exists c :: c in CCopies(t) && c.app == app
  }

  function One(b: bool): (n: nat) {
    if b then 1 else 0
  }

  function FloorOf(t: Tree, app: App): (n: nat) {
    One(!CopiesFor(t, app)) + One(t.compiled(app) == [])
  }

  function Floors(t: Tree): (n: nat) {
    FloorOf(t, Driver) + FloorOf(t, Inference) + FloorOf(t, Input) + One(|CCopies(t)| < 40)
  }

  function HeaderFloors(t: Tree): (n: nat) {
    One(|t.includes(Driver)| < 4) + One(|HCopies(t)| < 20)
  }

  function Check3(t: Tree): (n: nat) {
    UnwrittenIn(t, Driver, t.compiled(Driver)) + UnwrittenIn(t, Inference, t.compiled(Inference))
    + UnwrittenIn(t, Input, t.compiled(Input))
  }

  function Check4(t: Tree): (n: nat) {
    HeaderFloors(t) + |Shadowed(t, Driver)| + |Shadowed(t, Inference)| + |Shadowed(t, Input)|
  }

  /** The number of failures. A wrong flag, a missing list or a failed floor ends the run early. */
  function Failures(t: Tree): (n: nat) {
    if t.flag != "1" || !t.inputCmake then 1
    else if Floors(t) > 0 then Floors(t)
    else
      |Divergences(t)| + (|Unlisted(t)| + |WithoutReason(t)| + |Stale(t)|) + Check3(t) + Check4(t)
  }

  // --------------------------------------------------------------------------------------------
  // The loops

  /** A loop that reports each bad item of a set, in whatever order. */
  method Report<T(==)>(items: set<T>, bad: T -> bool) returns (failures: nat, ghost found: set<T>)
    ensures failures == |found| && forall x :: x in found <==> x in items && bad(x)
  {
    failures, found := 0, {};
    var rest := items;
    while rest != {}
      invariant rest <= items && failures == |found|
      invariant forall x :: x in found <==> x in items - rest && bad(x)
      decreases |rest|
    {
      var x :| x in rest;
      if bad(x) {
        failures := failures + 1;
        found := found + {x};
      }
      rest := rest - {x};
    }
  }

  method ReportUnwritten(t: Tree, app: App) returns (failures: nat)
    ensures failures == UnwrittenIn(t, app, t.compiled(app))
  {
    failures := 0;
    var srcs, copied := t.compiled(app), CCopies(t);
    for i := 0 to |srcs|
      invariant failures == UnwrittenIn(t, app, srcs[..i])
    {
      assert srcs[..i + 1][..i] == srcs[..i];
      if Copy(app, srcs[i]) in copied {
        continue;
      }
      if Copy(app, srcs[i]) in t.reverse {
        continue;
      }
      failures := failures + 1;
    }
    assert srcs[..|srcs|] == srcs;
  }

  /** The copies of each header name on the path, as the dictionary collects them. */
  ghost predicate Grouped(onPath: map<string, set<Path>>, cs: set<Copy>, app: App) {
    && (forall p: Path :: Copy(app, p) in cs <==> p.base in onPath && p in onPath[p.base])
    && (forall b, p :: b in onPath && p in onPath[b] ==> p.base == b)
  }

  function WithHeader(onPath: map<string, set<Path>>, p: Path): (onPath': map<string, set<Path>>) {
    onPath[p.base := (if p.base in onPath then onPath[p.base] else {}) + {p}]
  }

  lemma {:induction false} GroupedWithHeader(onPath: map<string, set<Path>>, cs: set<Copy>, app: App, p: Path)
    requires Grouped(onPath, cs, app)
    ensures Grouped(WithHeader(onPath, p), cs + {Copy(app, p)}, app)
  {
  }

  method GroupHeaders(t: Tree, app: App) returns (onPath: map<string, set<Path>>)
    ensures Grouped(onPath, OnPath(t, app), app)
  {
    onPath := map[];
    var all := HCopies(t);
    var rest := all;
    ghost var seen: set<Copy> := {};
    while rest != {}
      invariant rest <= all && Grouped(onPath, seen, app)
      invariant forall c :: c in seen <==> c in all && c !in rest && c.app == app && c.path.Dir() in t.includes(app)
      decreases |rest|
    {
      var c :| c in rest;
      rest := rest - {c};
      if c.app != app {
        continue;
      }
      if c.path.Dir() in t.includes(app) {
        GroupedWithHeader(onPath, seen, app, c.path);
        onPath := WithHeader(onPath, c.path);
        seen := seen + {c};
      }
    }
    assert seen == OnPath(t, app);
  }

  lemma {:induction false} GroupOfTwo(onPath: map<string, set<Path>>, cs: set<Copy>, app: App, b: string)
    requires Grouped(onPath, cs, app) && forall c :: c in cs ==> c.app == app
    ensures b in onPath && |onPath[b]| >= 2 <==> exists c :: c in cs && SharesBase(cs, c) && c.path.base == b
  {
    if b in onPath && |onPath[b]| >= 2 {
      var p :| p in onPath[b];
      assert |onPath[b] - {p}| == |onPath[b]| - 1;
      var q :| q in onPath[b] - {p};
      assert Copy(app, q) in cs && Copy(app, q) != Copy(app, p);
      assert Copy(app, p) in cs && SharesBase(cs, Copy(app, p));
    }
    if exists c :: c in cs && SharesBase(cs, c) && c.path.base == b {
      var c :| c in cs && SharesBase(cs, c) && c.path.base == b;
      var d :| d in cs && d != c && d.path.base == c.path.base;
      assert Copy(app, c.path) in cs && Copy(app, d.path) in cs;
      TwoDistinct(onPath[b], c.path, d.path);
    }
  }

  lemma {:induction false} TwoDistinct<T>(s: set<T>, p: T, q: T)
    requires p in s && q in s && p != q
    ensures |s| >= 2
  {
    SubsetSize({p, q}, s);
  }

  method ReportShadowed(t: Tree, app: App) returns (failures: nat)
    ensures failures == |Shadowed(t, app)|
  {
    var onPath := GroupHeaders(t, app);
    var bad := (b: string) => b in onPath && |onPath[b]| >= 2;
    ghost var found;
    failures, found := Report(onPath.Keys, bad);
    forall b ensures b in onPath.Keys && bad(b) <==> b in Shadowed(t, app) {
      GroupOfTwo(onPath, OnPath(t, app), app, b);
    }
    assert found == Shadowed(t, app);
  }

  method ReportFloors(t: Tree) returns (failures: nat)
    ensures failures == Floors(t)
  {
    var c := CCopies(t);
    failures := 0;
    for i := 0 to |APPS|
      invariant failures == (if i > 0 then FloorOf(t, Driver) else 0) + (if i > 1 then FloorOf(t, Inference) else 0)
                            + (if i > 2 then FloorOf(t, Input) else 0)
    {
      if !exists x :: x in c && x.app == APPS[i] {
        failures := failures + 1;
      }
      if t.compiled(APPS[i]) == [] {
        failures := failures + 1;
      }
    }
    if |c| < 40 {
      failures := failures + 1;
    }
  }

  method ReportDivergences(t: Tree) returns (failures: nat)
    ensures failures == |Divergences(t)|
  {
    ghost var found;
    failures, found := Report(CCopies(t), c => Diverges(t, c));
    assert found == Divergences(t);
  }

  /** CHECK 2, both ways round. */
  method ReportOrphans(t: Tree) returns (failures: nat)
    ensures failures == |Unlisted(t)| + |WithoutReason(t)| + |Stale(t)|
  {
    var orphans, allowed := Orphans(t), t.allow.Keys;
    ghost var found;
    var unlisted, blank, stale;
    unlisted, found := Report(orphans, c => c !in t.allow);
    assert found == Unlisted(t);
    blank, found := Report(allowed, c => c in t.allow && Blank(t.allow[c]));
    assert found == WithoutReason(t);
    stale, found := Report(allowed, c => c !in orphans);
    assert found == Stale(t);
    failures := unlisted + blank + stale;
  }

  method ReportAllUnwritten(t: Tree) returns (failures: nat)
    ensures failures == Check3(t)
  {
    failures := 0;
    for i := 0 to |APPS|
      invariant failures == (if i > 0 then UnwrittenIn(t, Driver, t.compiled(Driver)) else 0)
                            + (if i > 1 then UnwrittenIn(t, Inference, t.compiled(Inference)) else 0)
                            + (if i > 2 then UnwrittenIn(t, Input, t.compiled(Input)) else 0)
    {
      var n := ReportUnwritten(t, APPS[i]);
      failures := failures + n;
    }
  }

  method ReportHeaders(t: Tree) returns (failures: nat)
    ensures failures == Check4(t)
  {
    failures := 0;
    if |t.includes(Driver)| < 4 {
      failures := failures + 1;
    }
    if |HCopies(t)| < 20 {
      failures := failures + 1;
    }
    for i := 0 to |APPS|
      invariant failures == HeaderFloors(t) + (if i > 0 then |Shadowed(t, Driver)| else 0)
                            + (if i > 1 then |Shadowed(t, Inference)| else 0)
                            + (if i > 2 then |Shadowed(t, Input)| else 0)
    {
      var n := ReportShadowed(t, APPS[i]);
      failures := failures + n;
    }
  }

  /** `run_checks`. */
  method RunChecks(t: Tree) returns (failures: nat)
    ensures failures == Failures(t)
  {
    if t.flag != "1" {
      return 1;
    }
    if !t.inputCmake {
      return 1;
    }
    failures := ReportFloors(t);
    if failures > 0 {
      return failures;
    }
    var divergences := ReportDivergences(t);
    var orphans := ReportOrphans(t);
    var unwritten := ReportAllUnwritten(t);
    var headers := ReportHeaders(t);
    failures := divergences + orphans + unwritten + headers;
  }
}
