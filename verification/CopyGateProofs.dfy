/** What it means for a tree to pass the copy gate, and what a redirected copy does to one that does. */
module CopyGateProofs {
  import opened CopyGate

  function Copied(t: Tree, app: App): (ps: set<Path>) {
    set c | c in CCopies(t) && c.app == app :: c.path
  }

  function Compiled(t: Tree, app: App): (ps: set<Path>) {
    set p | p in t.compiled(app)
  }

  function Allowed(t: Tree, app: App): (ps: set<Path>) {
    set c | c in t.allow.Keys && c.app == app :: c.path
  }

  function Excused(t: Tree, app: App): (ps: set<Path>) {
    set c | c in t.reverse && c.app == app :: c.path
  }

  // --------------------------------------------------------------------------------------------
  // Each check, application by application

  lemma {:induction false} Members(t: Tree, app: App, p: Path)
    ensures p in Copied(t, app) <==> Copy(app, p) in CCopies(t)
    ensures p in Compiled(t, app) <==> p in t.compiled(app)
    ensures p in Allowed(t, app) <==> Copy(app, p) in t.allow.Keys
    ensures p in Excused(t, app) <==> Copy(app, p) in t.reverse
  {
    assert Copy(app, p).app == app && Copy(app, p).path == p;
  }

  /** The copies an application does not compile are exactly its allowlist, and none of them is a
      namesake of a compiled source. */
  predicate RestIsAllowed(t: Tree, app: App) {
    && Copied(t, app) - Compiled(t, app) == Allowed(t, app)
    && (forall p :: p in Allowed(t, app) ==> !BaseIn(t.compiled(app), p.base))
  }

  /** What an application compiles is copied, or excused. */
  predicate AllWritten(t: Tree, app: App) {
    Compiled(t, app) <= Copied(t, app) + Excused(t, app)
  }

  predicate HeadersUnique(t: Tree, app: App) {
    forall c, d :: c in OnPath(t, app) && d in OnPath(t, app) && c != d ==> c.path.base != d.path.base
  }

  predicate FloorsHold(t: Tree) {
    && (forall app: App :: CopiesFor(t, app) && t.compiled(app) != [])
    && |CCopies(t)| >= 40
  }

  lemma {:induction false} FloorsIff(t: Tree)
    ensures Floors(t) == 0 <==> FloorsHold(t)
  {
    forall app: App ensures FloorOf(t, app) == 0 <==> CopiesFor(t, app) && t.compiled(app) != [] {
    }
  }

  lemma {:induction false} UnwrittenIff(t: Tree, app: App, srcs: seq<Path>)
    ensures UnwrittenIn(t, app, srcs) == 0 <==> forall p :: p in srcs ==> !Unwritten(t, app, p)
  {
    if srcs != [] {
      var last := |srcs| - 1;
      UnwrittenIff(t, app, srcs[..last]);
      assert forall p :: p in srcs <==> p in srcs[..last] || p == srcs[last] by {
        assert srcs == srcs[..last] + [srcs[last]];
      }
    }
  }

  lemma {:induction false} WrittenIff(t: Tree, app: App)
    ensures UnwrittenIn(t, app, t.compiled(app)) == 0 <==> AllWritten(t, app)
  {
    UnwrittenIff(t, app, t.compiled(app));
    forall p ensures p in Compiled(t, app) && p !in Copied(t, app) + Excused(t, app)
                     <==> p in t.compiled(app) && Unwritten(t, app, p)
    {
      Members(t, app, p);
    }
  }

  lemma {:induction false} Check3Iff(t: Tree)
    ensures Check3(t) == 0 <==> forall app: App :: AllWritten(t, app)
  {
    WrittenIff(t, Driver);
    WrittenIff(t, Inference);
    WrittenIff(t, Input);
  }

  lemma {:induction false} Check12Iff(t: Tree)
    ensures Divergences(t) == {} && Unlisted(t) == {} && Stale(t) == {} <==> forall app: App :: RestIsAllowed(t, app)
  {
    if Divergences(t) == {} && Unlisted(t) == {} && Stale(t) == {} {
      forall app: App ensures RestIsAllowed(t, app) {
        NothingWrong(t, app);
      }
    }
    if forall app: App :: RestIsAllowed(t, app) {
      forall c: Copy ensures c !in Divergences(t) && c !in Unlisted(t) && c !in Stale(t) {
        assert RestIsAllowed(t, c.app);
        Members(t, c.app, c.path);
      }
    }
  }

  lemma {:induction false} NothingWrong(t: Tree, app: App)
    requires Divergences(t) == {} && Unlisted(t) == {} && Stale(t) == {}
    ensures RestIsAllowed(t, app)
  {
    forall p: Path ensures p in Copied(t, app) - Compiled(t, app) <==> p in Allowed(t, app)
                   ensures p in Allowed(t, app) ==> !BaseIn(t.compiled(app), p.base)
    {
      Members(t, app, p);
      var c := Copy(app, p);
      assert c !in Divergences(t) && c !in Unlisted(t) && c !in Stale(t);
    }
  }

  lemma {:induction false} ShadowedIff(t: Tree, app: App)
    ensures |Shadowed(t, app)| == 0 <==> HeadersUnique(t, app)
  {
    if !HeadersUnique(t, app) {
      var c, d :| c in OnPath(t, app) && d in OnPath(t, app) && c != d && c.path.base == d.path.base;
      assert SharesBase(OnPath(t, app), c);
      assert c.path.base in Shadowed(t, app);
    }
  }

  lemma {:induction false} Check4Iff(t: Tree)
    ensures Check4(t) == 0 <==>
            && |t.includes(Driver)| >= 4 && |HCopies(t)| >= 20
            && forall app: App :: HeadersUnique(t, app)
  {
    ShadowedIff(t, Driver);
    ShadowedIff(t, Inference);
    ShadowedIff(t, Input);
  }

  lemma {:induction false} FailuresAreZeroIff(t: Tree)
    ensures Failures(t) == 0 <==>
            && t.flag == "1" && t.inputCmake && Floors(t) == 0
            && Divergences(t) == {} && Unlisted(t) == {} && WithoutReason(t) == {} && Stale(t) == {}
            && Check3(t) == 0 && Check4(t) == 0
  {
  }

  lemma {:induction false} ReasonsIff(t: Tree)
    ensures WithoutReason(t) == {} <==> forall c :: c in t.allow ==> !Blank(t.allow[c])
  {
    if WithoutReason(t) == {} {
      forall c | c in t.allow ensures !Blank(t.allow[c]) {
        assert c !in WithoutReason(t);
      }
    }
  }

  /** The gate passes exactly if the flag and the floors hold, every allowlist entry has a reason, each
      application's copies are its compiled sources and its allowlist without a shared name, and each
      header name is on its include path once. */
  lemma {:induction false} PassesIff(t: Tree)
    ensures Failures(t) == 0 <==>
            && t.flag == "1" && t.inputCmake && FloorsHold(t)
            && (forall c :: c in t.allow ==> !Blank(t.allow[c]))
            && (forall app: App :: RestIsAllowed(t, app)) && (forall app: App :: AllWritten(t, app))
            && |t.includes(Driver)| >= 4 && |HCopies(t)| >= 20
            && (forall app: App :: HeadersUnique(t, app))
  {
    FailuresAreZeroIff(t);
    FloorsIff(t);
    ReasonsIff(t);
    Check12Iff(t);
    Check3Iff(t);
    Check4Iff(t);
  }

  /** With no excuses, as the gate is shipped, a passing application's copies are the disjoint union of
      its compiled sources and its allowlist. */
  lemma {:induction false} PassingIsDisjointUnion(t: Tree, app: App)
    requires Failures(t) == 0 && Excused(t, app) == {}
    ensures Copied(t, app) == Compiled(t, app) + Allowed(t, app)
    ensures Compiled(t, app) !! Allowed(t, app)
  {
    PassesIff(t);
    assert RestIsAllowed(t, app) && AllWritten(t, app);
    assert Compiled(t, app) <= Copied(t, app);
    forall p ensures p in Copied(t, app) <==> p in Compiled(t, app) + Allowed(t, app) {
      assert p in Copied(t, app) - Compiled(t, app) <==> p in Allowed(t, app);
    }
  }

  // --------------------------------------------------------------------------------------------
  // Mutants

  /** The tree with one copy redirected to another path. */
  function Redirected(t: Tree, app: App, from: Path, to: Path): (t': Tree) {
    t.(copies := t.copies - {Copy(app, from)} + {Copy(app, to)})
  }

  lemma {:induction false} RedirectedCopies(t: Tree, app: App, from: Path, to: Path)
    requires EndsWith(from.base, ".c") && to.base == from.base
    ensures CCopies(Redirected(t, app, from, to)) == CCopies(t) - {Copy(app, from)} + {Copy(app, to)}
  {
  }

  /** For every passing tree and every compiled source of every application that is not excused,
      redirecting its copy to an uncompiled path of the same name makes CHECK 1 report exactly the new
      path, CHECK 3 report the old one and no other, and the gate fail. */
  lemma {:induction false} RedirectIsCaught(t: Tree, app: App, from: Path, to: Path)
    requires Failures(t) == 0
    requires from in t.compiled(app) && Copy(app, from) !in t.reverse && EndsWith(from.base, ".c")
    requires to.base == from.base && to !in t.compiled(app)
    ensures var t' := Redirected(t, app, from, to);
            && Floors(t') == 0
            && Divergences(t') == {Copy(app, to)}
            && (forall a: App, p: Path :: p in t'.compiled(a) && Unwritten(t', a, p) <==> a == app && p == from)
            && Check3(t') > 0
            && Failures(t') > 0
  {
    var t' := Redirected(t, app, from, to);
    FailuresAreZeroIff(t);
    FailuresAreZeroIff(t');
    CompiledIsCopied(t, app, from);
    NewCopyWasAbsent(t, app, from, to);
    RedirectKeepsFloors(t, app, from, to);
    RedirectDiverges(t, app, from, to);
    RedirectLeavesUnwritten(t, app, from, to);
    UnwrittenIff(t', app, t'.compiled(app));
    assert Copy(app, to) in Divergences(t');
  }

  lemma {:induction false} CompiledIsCopied(t: Tree, app: App, src: Path)
    requires Failures(t) == 0 && src in t.compiled(app) && Copy(app, src) !in t.reverse
    ensures Copy(app, src) in CCopies(t)
  {
    NothingUnwritten(t, app, src);
  }

  lemma {:induction false} NothingUnwritten(t: Tree, app: App, src: Path)
    requires Failures(t) == 0 && src in t.compiled(app)
    ensures !Unwritten(t, app, src)
  {
    FailuresAreZeroIff(t);
    assert UnwrittenIn(t, app, t.compiled(app)) == 0 by {
      match app
      case Driver =>
      case Inference =>
      case Input =>
    }
    UnwrittenIff(t, app, t.compiled(app));
  }

  lemma {:induction false} NewCopyWasAbsent(t: Tree, app: App, from: Path, to: Path)
    requires Failures(t) == 0 && from in t.compiled(app) && EndsWith(from.base, ".c")
    requires to.base == from.base && to !in t.compiled(app)
    ensures Copy(app, to) !in CCopies(t)
  {
    FailuresAreZeroIff(t);
    var i :| 0 <= i < |t.compiled(app)| && t.compiled(app)[i] == from;
    assert BaseIn(t.compiled(app), to.base);
    assert Copy(app, to) !in Divergences(t);
  }

  lemma {:induction false} RedirectKeepsFloors(t: Tree, app: App, from: Path, to: Path)
    requires Floors(t) == 0 && Copy(app, from) in CCopies(t) && Copy(app, to) !in CCopies(t)
    requires EndsWith(from.base, ".c") && to.base == from.base
    ensures Floors(Redirected(t, app, from, to)) == 0
  {
    var t' := Redirected(t, app, from, to);
    FloorsIff(t);
    FloorsIff(t');
    RedirectedCopies(t, app, from, to);
    forall a: App ensures CopiesFor(t', a) {
      if a == app {
        assert Copy(app, to) in CCopies(t');
      } else {
        var c :| c in CCopies(t) && c.app == a;
        assert c in CCopies(t');
      }
    }
  }

  lemma {:induction false} RedirectDiverges(t: Tree, app: App, from: Path, to: Path)
    requires Failures(t) == 0 && from in t.compiled(app) && EndsWith(from.base, ".c")
    requires to.base == from.base && to !in t.compiled(app)
    ensures Divergences(Redirected(t, app, from, to)) == {Copy(app, to)}
  {
    var t' := Redirected(t, app, from, to);
    RedirectedCopies(t, app, from, to);
    var i :| 0 <= i < |t.compiled(app)| && t.compiled(app)[i] == from;
    assert BaseIn(t'.compiled(app), to.base);
    assert Divergences(t) == {} by {
      assert Floors(t) == 0;
    }
    forall c ensures c in Divergences(t') <==> c == Copy(app, to) {
      assert Diverges(t', c) <==> Diverges(t, c);
      assert c !in Divergences(t);
    }
  }

  lemma {:induction false} RedirectLeavesUnwritten(t: Tree, app: App, from: Path, to: Path)
    requires Failures(t) == 0
    requires from in t.compiled(app) && Copy(app, from) !in t.reverse && EndsWith(from.base, ".c")
    requires to.base == from.base && to !in t.compiled(app)
    ensures var t' := Redirected(t, app, from, to);
            forall a: App, p: Path :: p in t'.compiled(a) && Unwritten(t', a, p) <==> a == app && p == from
  {
    var t' := Redirected(t, app, from, to);
    FailuresAreZeroIff(t);
    RedirectedCopies(t, app, from, to);
    forall a: App, p: Path ensures p in t'.compiled(a) && Unwritten(t', a, p) <==> a == app && p == from {
      if p in t.compiled(a) {
        NothingUnwritten(t, a, p);
      }
    }
  }

  /** For every passing tree, copying a header that is on an include path to a second place on that
      path makes CHECK 4 report its name. */
  lemma {:induction false} DoubledHeaderIsCaught(t: Tree, app: App, h: Path, second: Path)
    requires Failures(t) == 0
    requires Copy(app, h) in OnPath(t, app)
    requires second.Dir() in t.includes(app) && second.base == h.base && second != h
    ensures var t' := t.(copies := t.copies + {Copy(app, second)});
            h.base in Shadowed(t', app) && Check4(t') > 0
  {
    var t' := t.(copies := t.copies + {Copy(app, second)});
    assert Copy(app, second) in OnPath(t', app) && Copy(app, h) in OnPath(t', app);
    assert SharesBase(OnPath(t', app), Copy(app, h));
    assert h.base in Shadowed(t', app);
    ShadowedIff(t', app);
    assert |Shadowed(t', app)| > 0;
  }
}
