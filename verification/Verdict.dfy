/** The pre-registered decision rules over a field of runs, in ten-thousandths. */
module Verdict {
  import opened Options

  const VALIDITY_BAND: int := 9900
  const F1_FLOOR: int := 6000

  datatype Row = Row(name: string, validity: int, f1: int)

  predicate Qualifies(r: Row) {
    r.validity >= VALIDITY_BAND && r.f1 >= F1_FLOOR
  }

  function Qualified(rows: seq<Row>): (q: seq<Row>) {
    if rows == [] then []
    else (if Qualifies(rows[0]) then [rows[0]] else []) + Qualified(rows[1..])
  }

  /** Python's `max(rows, key=f1)`: the first of the greatest. */
  function FirstGreatest(rows: seq<Row>): (r: Row)
    requires rows != []
  {
    if |rows| == 1 then rows[0]
    else
      var rest := FirstGreatest(rows[1..]);
      if rows[0].f1 >= rest.f1 then rows[0] else rest
  }

  /** `verdict`: the run chosen, if any. */
  function Chosen(rows: seq<Row>): (r: Option<Row>) {
    var q := Qualified(rows);
    if q == [] then None else Some(FirstGreatest(q))
  }

  /** The run at `i` is the one the rule means: it qualifies, no qualifying run beats it, and every
      earlier qualifying one is worse. */
  predicate IsBest(rows: seq<Row>, i: nat) {
    && i < |rows| && Qualifies(rows[i])
    && (forall k :: 0 <= k < |rows| && Qualifies(rows[k]) ==> rows[k].f1 <= rows[i].f1)
    && (forall k :: 0 <= k < i && Qualifies(rows[k]) ==> rows[k].f1 < rows[i].f1)
  }

  lemma {:induction false} IsBestOfTail(rows: seq<Row>, i: nat)
    requires rows != [] && IsBest(rows[1..], i)
    ensures IsBest(rows, if Qualifies(rows[0]) && rows[0].f1 >= rows[1..][i].f1 then 0 else i + 1)
  {
    assert forall k :: 0 < k < |rows| ==> rows[k] == rows[1..][k - 1];
  }

  /** The rule chooses exactly the first of the best qualifying runs, and nothing exactly if none
      qualifies. */
  lemma {:induction false} ChosenIsBest(rows: seq<Row>) returns (i: nat)
    ensures Chosen(rows).None? <==> forall k :: 0 <= k < |rows| ==> !Qualifies(rows[k])
    ensures Chosen(rows).Some? ==> IsBest(rows, i) && Chosen(rows) == Some(rows[i])
  {
    i := 0;
    if rows != [] {
      var rest := rows[1..];
      var j := ChosenIsBest(rest);
      assert forall k :: 0 < k < |rows| ==> rows[k] == rest[k - 1];
      if Qualifies(rows[0]) {
        assert Qualified(rows)[1..] == Qualified(rest);
      } else {
        assert Qualified(rows) == Qualified(rest);
      }
      if Qualified(rest) != [] {
        IsBestOfTail(rows, j);
        i := if Qualifies(rows[0]) && rows[0].f1 >= rest[j].f1 then 0 else j + 1;
      }
    }
  }

  // --------------------------------------------------------------------------------------------
  // The operating key

  datatype State = On | Off

  /** A key's entry in the table: absent entries declare neither. */
  datatype Entry = Entry(modelId: Option<string>, expectThink: Option<State>)

  datatype Measured = Measured(key: string, f1: int)

  function EntryOf(table: map<string, Entry>, key: string): (e: Entry) {
    if key in table then table[key] else Entry(None, None)
  }

  /** The run measures the chosen model in this state. */
  predicate Measures(table: map<string, Entry>, id: string, m: Measured, state: State) {
    EntryOf(table, m.key).modelId == Some(id) && EntryOf(table, m.key).expectThink == Some(state)
  }

  /** The runs, in order, that measure the chosen model in a state. */
  function InState(table: map<string, Entry>, id: string, runs: seq<Measured>, state: State): (ms: seq<Measured>)
    ensures forall m :: m in ms ==> m in runs && Measures(table, id, m, state)
  {
    if runs == [] then []
    else
      InState(table, id, runs[..|runs| - 1], state)
      + if Measures(table, id, runs[|runs| - 1], state) then [runs[|runs| - 1]] else []
  }

  /** The chosen key's model, if it declares one. */
  function ModelOf(table: map<string, Entry>, key: string): (id: Option<string>) {
    var id := EntryOf(table, key).modelId;
    if id == Some("") then None else id
  }

  /** The rule: `None` stands for the error on two runs of one model in one state; with both states
      measured, ON needs to beat OFF by more than the band; else the chosen key operates. */
  function Operating(chosenKey: string, runs: seq<Measured>, table: map<string, Entry>, band: int)
    : (r: Option<string>)
  {
    var id := ModelOf(table, chosenKey);
    if id.None? then Some(chosenKey)
    else
      var on, off := InState(table, id.value, runs, On), InState(table, id.value, runs, Off);
      if |on| > 1 || |off| > 1 then None
      else if |on| == 1 && |off| == 1 then Some(if on[0].f1 - off[0].f1 > band then on[0].key else off[0].key)
      else Some(chosenKey)
  }

  /** The runs of the chosen model by state, as the loop collects them. */
  ghost predicate Collects(seen: map<State, Measured>, table: map<string, Entry>, id: string, runs: seq<Measured>) {
    forall s: State :: InState(table, id, runs, s) == if s in seen then [seen[s]] else []
  }

  lemma {:induction false} InStateStep(table: map<string, Entry>, id: string, runs: seq<Measured>, i: nat, state: State)
    requires i < |runs|
    ensures InState(table, id, runs[..i + 1], state) ==
            if Measures(table, id, runs[i], state) then InState(table, id, runs[..i], state) + [runs[i]]
            else InState(table, id, runs[..i], state)
  {
    assert runs[..i + 1][..i] == runs[..i];
  }

  lemma {:induction false} InStateGrows(table: map<string, Entry>, id: string, runs: seq<Measured>, i: nat, state: State)
    requires i <= |runs|
    ensures |InState(table, id, runs[..i], state)| <= |InState(table, id, runs, state)|
  {
    if i == |runs| {
      assert runs[..i] == runs;
    } else {
      var front := runs[..|runs| - 1];
      assert front[..i] == runs[..i];
      InStateGrows(table, id, front, i, state);
    }
  }

  lemma {:induction false} TwiceInOneState(table: map<string, Entry>, id: string, runs: seq<Measured>, i: nat, state: State)
    requires i < |runs| && Measures(table, id, runs[i], state) && InState(table, id, runs[..i], state) != []
    ensures |InState(table, id, runs, state)| > 1
    ensures |InState(table, id, runs, On)| > 1 || |InState(table, id, runs, Off)| > 1
  {
    InStateStep(table, id, runs, i, state);
    InStateGrows(table, id, runs, i + 1, state);
    assert state == On || state == Off;
  }

  lemma {:induction false} CollectsNothing(table: map<string, Entry>, id: string)
    ensures Collects(map[], table, id, [])
  {
  }

  lemma {:induction false} CollectsOneMore(seen: map<State, Measured>, table: map<string, Entry>, id: string, runs: seq<Measured>,
                        i: nat, state: Option<State>)
    requires i < |runs| && Collects(seen, table, id, runs[..i])
    requires forall s: State :: Measures(table, id, runs[i], s) <==> state == Some(s)
    requires state.Some? ==> state.value !in seen
    ensures Collects(if state.Some? then seen[state.value := runs[i]] else seen, table, id, runs[..i + 1])
  {
    forall s: State ensures InState(table, id, runs[..i + 1], s) ==
                            InState(table, id, runs[..i], s) + if state == Some(s) then [runs[i]] else []
    {
      InStateStep(table, id, runs, i, s);
    }
  }

  /** The loop that collects the runs; `None` on the second of one state. */
  method Collect(table: map<string, Entry>, id: string, runs: seq<Measured>)
    returns (r: Option<map<State, Measured>>)
    ensures r.Some? ==> Collects(r.value, table, id, runs)
    ensures r.None? ==> |InState(table, id, runs, On)| > 1 || |InState(table, id, runs, Off)| > 1
  {
    var seen: map<State, Measured> := map[];
    CollectsNothing(table, id);
    for i := 0 to |runs|
      invariant Collects(seen, table, id, runs[..i])
    {
      var entry := EntryOf(table, runs[i].key);
      if entry.modelId != Some(id) {
        CollectsOneMore(seen, table, id, runs, i, None);
        continue;
      }
      if entry.expectThink.None? {
        CollectsOneMore(seen, table, id, runs, i, None);
        continue;
      }
      var state := entry.expectThink.value;
      if state in seen {
        TwiceInOneState(table, id, runs, i, state);
        return None;
      }
      CollectsOneMore(seen, table, id, runs, i, Some(state));
      seen := seen[state := runs[i]];
    }
    assert runs[..|runs|] == runs;
    r := Some(seen);
  }

  /** `operating_key`. */
  method OperatingKey(chosenKey: string, runs: seq<Measured>, table: map<string, Entry>, band: int)
    returns (r: Option<string>)
    ensures r == Operating(chosenKey, runs, table, band)
  {
    var chosenId := ModelOf(table, chosenKey);
    if chosenId.None? {
      return Some(chosenKey);
    }
    var collected := Collect(table, chosenId.value, runs);
    if collected.None? {
      return None;
    }
    var seen := collected.value;
    if On in seen && Off in seen {
      var gap := seen[On].f1 - seen[Off].f1;
      return Some(if gap > band then seen[On].key else seen[Off].key);
    }
    r := Some(chosenKey);
  }

  predicate Passed(runs: seq<Measured>, key: string) {
    exists i :: 0 <= i < |runs| && runs[i].key == key
  }

  /** The answer is one of the keys passed exactly if both states of the chosen model were measured or
      the chosen key was itself passed. It is not always, as its documentation says: with one state
      measured under another key, the answer is a key nobody ran. */
  lemma {:induction false} AnswerWasPassedIff(chosenKey: string, runs: seq<Measured>, table: map<string, Entry>, band: int)
    requires Operating(chosenKey, runs, table, band).Some?
    ensures Passed(runs, Operating(chosenKey, runs, table, band).value)
            <==> || Passed(runs, chosenKey)
                 || (ModelOf(table, chosenKey).Some?
                     && InState(table, ModelOf(table, chosenKey).value, runs, On) != []
                     && InState(table, ModelOf(table, chosenKey).value, runs, Off) != [])
  {
    var id := ModelOf(table, chosenKey);
    if id.Some? {
      var on, off := InState(table, id.value, runs, On), InState(table, id.value, runs, Off);
      if on != [] && off != [] {
        assert on[0] in on && off[0] in off;
      }
    }
  }

  lemma {:induction false} AnswerNobodyRan(table: map<string, Entry>)
    requires EntryOf(table, "a") == Entry(Some("m"), Some(On)) && EntryOf(table, "b") == Entry(Some("m"), Some(Off))
    ensures Operating("a", [Measured("b", 0)], table, 100) == Some("a") && !Passed([Measured("b", 0)], "a")
  {
    var runs := [Measured("b", 0)];
    assert runs[..0] == [];
    assert InState(table, "m", runs, On) == [] && InState(table, "m", runs, Off) == [runs[0]];
  }
}
