/** What the router does with every query. */
module RouterProofs {
  import opened Options
  import opened Router
  import opened Strings

  // --------------------------------------------------------------------------------------------
  // Selection

  /** A strict weak order: what is not beaten by one does not beat it, transitively. */
  ghost predicate Ranks(beats: (Response, Response) -> bool) {
    && (forall a, b :: beats(a, b) ==> !beats(b, a))
    && (forall a, b, c :: !beats(a, b) && !beats(b, c) ==> !beats(a, c))
  }

  lemma {:induction false} OrdersRank()
    ensures Ranks(MoreConfident) && Ranks(Outranks)
  {
  }

  lemma {:induction false} FirstBestIsBest(rs: seq<Response>, beats: (Response, Response) -> bool)
    requires rs != [] && Ranks(beats)
    ensures forall r :: r in rs ==> !beats(r, FirstBest(rs, beats))
  {
    if |rs| > 1 {
      FirstBestIsBest(rs[1..], beats);
      var best, rest := FirstBest(rs, beats), FirstBest(rs[1..], beats);
      forall r | r in rs ensures !beats(r, best) {
        if r in rs[1..] {
          assert !beats(r, rest);
        }
        assert r == rs[0] || r in rs[1..];
      }
    }
  }

  lemma {:induction false} CollectedFromAre(text: Text, s: SystemState, query: string, agents: seq<Agent>, r: Response)
    ensures r in CollectedFrom(text, s, query, agents)
            <==> r.agent in agents && r.confidence > 0 && r == Ask(text, s, r.agent, query)
  {
    if agents != [] {
      var front, last := agents[..|agents| - 1], agents[|agents| - 1];
      CollectedFromAre(text, s, query, front, r);
      assert agents == front + [last];
    }
  }

  lemma {:induction false} CollectedAre(text: Text, s: SystemState, query: string, r: Response)
    ensures r in Collected(text, s, query) <==> r.confidence > 0 && r == Ask(text, s, r.agent, query)
  {
    CollectedFromAre(text, s, query, AGENTS, r);
    assert AGENTS[0] == DeviceManager && AGENTS[1] == NetworkAgent && AGENTS[2] == FileSystem
           && AGENTS[3] == UserInteraction;
  }

  // --------------------------------------------------------------------------------------------
  // Deferrals

  /** Every word on which the user agent defers is claimed by a specialist. */
  lemma {:induction false} KeywordIsClaimed(text: Text, s: SystemState, query: string)
    requires HasSpecialistKeyword(text.lower(query))
    ensures || (DeviceQuery(text, s, query).confidence >= 85 && DeviceQuery(text, s, query).answer.Some?)
            || (NetworkQuery(text, s, query).confidence >= 85 && NetworkQuery(text, s, query).answer.Some?)
            || (FileSystemQuery(text, s, query).confidence >= 85 && FileSystemQuery(text, s, query).answer.Some?)
  {
  }

  lemma {:induction false} KeywordSurvivesStrip(q: string, isSpace: char -> bool)
    requires HasSpecialistKeyword(Strip(q, isSpace))
    ensures HasSpecialistKeyword(q)
  {
    forall part: string ensures Contains(Strip(q, isSpace), part) ==> Contains(q, part) {
      StripKeepsParts(q, isSpace, part);
    }
  }

  /** Whenever the user agent defers, some specialist answers with confidence at least 0.85. */
  lemma {:induction false} DeferralIsAnswered(text: Text, s: SystemState, query: string)
    requires UserQuery(text, query).confidence == 10
    ensures exists r :: r in Collected(text, s, query) && r.confidence >= 85 && r.answer.Some?
  {
    KeywordSurvivesStrip(text.lower(query), text.isSpace);
    KeywordIsClaimed(text, s, query);
    var r := if DeviceQuery(text, s, query).confidence >= 85 then DeviceQuery(text, s, query)
             else if NetworkQuery(text, s, query).confidence >= 85 then NetworkQuery(text, s, query)
             else FileSystemQuery(text, s, query);
    CollectedAre(text, s, query, r);
  }

  /** A response without an answer is the deferral or is not collected. */
  lemma {:induction false} OnlyDeferralIsEmpty(text: Text, s: SystemState, query: string, r: Response)
    requires r in Collected(text, s, query)
    ensures r.answer.None? <==> r.agent == UserInteraction && r.confidence == 10
    ensures r.answer.None? ==> UserQuery(text, query).confidence == 10
    ensures r.confidence <= 100 && (r.confidence == 100 ==> r.agent == UserInteraction)
  {
    CollectedAre(text, s, query, r);
  }

  /** For every query and every state, a handled query has an answer: the deferral is never selected,
      because whenever it is made some specialist is more confident. */
  lemma {:induction false} HandledIsAnswered(text: Text, s: SystemState, query: string)
    ensures var r := Route(Collected(text, s, query));
            r.Handled? ==> r.selected in Collected(text, s, query) && r.selected.answer.Some? && r.selected.confidence > 10
  {
    var rs := Collected(text, s, query);
    var high := Those(rs, 70);
    OrdersRank();
    if rs != [] {
      var selected := Route(rs).selected;
      OnlyDeferralIsEmpty(text, s, query, selected);
      if |high| <= 1 {
        FirstBestIsBest(rs, MoreConfident);
        if selected.answer.None? {
          DeferralIsAnswered(text, s, query);
        }
      }
      ConfidenceLevels(text, s, query, selected);
    }
  }

  lemma {:induction false} ConfidenceLevels(text: Text, s: SystemState, query: string, r: Response)
    requires r in Collected(text, s, query)
    ensures r.answer.Some? ==> r.confidence >= 50
  {
    CollectedAre(text, s, query, r);
  }

  lemma {:induction false} SpecialistClaimsIff(text: Text, s: SystemState, query: string)
    ensures DeviceQuery(text, s, query).confidence > 0 <==> DeviceQuery(text, s, query).answer.Some?
    ensures NetworkQuery(text, s, query).confidence > 0 <==> NetworkQuery(text, s, query).answer.Some?
    ensures FileSystemQuery(text, s, query).confidence > 0 <==> FileSystemQuery(text, s, query).answer.Some?
  {
  }

  /** The user agent rejects what is too short or all digits. */
  predicate Rejected(text: Text, query: string) {
    var q := Strip(text.lower(query), text.isSpace);
    |q| < 2 || forall i :: 0 <= i < |q| ==> text.isDigit(q[i])
  }

  lemma {:induction false} UserRejectsIff(text: Text, query: string)
    ensures UserQuery(text, query).confidence == 0 <==> Rejected(text, query)
  {
  }

  lemma {:induction false} NothingCollectedIff(text: Text, s: SystemState, query: string)
    ensures Collected(text, s, query) == [] <==> forall agent: Agent :: Ask(text, s, agent, query).confidence == 0
  {
    var rs := Collected(text, s, query);
    if rs == [] {
      forall agent: Agent ensures Ask(text, s, agent, query).confidence == 0 {
        CollectedAre(text, s, query, Ask(text, s, agent, query));
      }
    } else {
      CollectedAre(text, s, query, rs[0]);
    }
  }

  /** A query goes unhandled exactly if no specialist claims it and the user agent rejects it. */
  lemma {:induction false} UnhandledIff(text: Text, s: SystemState, query: string)
    ensures Route(Collected(text, s, query)).Unhandled? <==>
            && DeviceQuery(text, s, query).answer.None? && NetworkQuery(text, s, query).answer.None?
            && FileSystemQuery(text, s, query).answer.None? && Rejected(text, query)
  {
    NothingCollectedIff(text, s, query);
    SpecialistClaimsIff(text, s, query);
    UserRejectsIff(text, query);
    assert Ask(text, s, DeviceManager, query) == DeviceQuery(text, s, query);
    assert Ask(text, s, NetworkAgent, query) == NetworkQuery(text, s, query);
    assert Ask(text, s, FileSystem, query) == FileSystemQuery(text, s, query);
    assert Ask(text, s, UserInteraction, query) == UserQuery(text, query);
  }

  // --------------------------------------------------------------------------------------------
  // Help

  lemma {:induction false} HelpIsOffered(text: Text, s: SystemState, query: string)
    requires text.Sane() && Contains(text.lower(query), "help")
    ensures UserQuery(text, query) == Response(UserInteraction, Some(AvailableCommands), 0, 100)
    ensures UserQuery(text, query) in Collected(text, s, query)
  {
    var q := Strip(text.lower(query), text.isSpace);
    StripKeepsParts(text.lower(query), text.isSpace, "help");
    var i :| 0 <= i <= |q| && PartAt(q, i, "help");
    assert q[i] == q[i..i + 4][0] == 'h' && 'h' in "help";
    CollectedAre(text, s, query, UserQuery(text, query));
  }

  /** Any query containing "help" goes to the user agent, whatever else it contains and whichever
      specialists claim it. */
  lemma {:induction false} HelpGoesToTheUser(text: Text, s: SystemState, query: string)
    requires text.Sane() && Contains(text.lower(query), "help")
    ensures var r := Route(Collected(text, s, query));
            r.Handled? && r.selected == Response(UserInteraction, Some(AvailableCommands), 0, 100)
  {
    HelpIsOffered(text, s, query);
    OrdersRank();
    var rs, user := Collected(text, s, query), UserQuery(text, query);
    var high := Those(rs, 70);
    var selected := Route(rs).selected;
    if |high| > 1 {
      FirstBestIsBest(high, Outranks);
      assert user in high && !Outranks(user, selected);
    } else {
      FirstBestIsBest(rs, MoreConfident);
      assert !MoreConfident(user, selected);
    }
    OnlyDeferralIsEmpty(text, s, query, selected);
    CollectedAre(text, s, query, selected);
  }
}
