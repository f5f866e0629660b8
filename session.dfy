/** One interactive session of the entry form: the two session-state entries
    (`sequences_fixed`, `session_id`), the log of remote calls issued so far, and
    the steps of a render pass that read or change them. */
module EntrySession {
  import opened Values
  import opened Remote
  import opened Text
  import opened Lookup
  import opened SequenceRepair
  import opened Submission

  /** A press of Save Event: the form, the replies the service gives to the upsert and
      to the insert, and the id that `uuid4()[:8]` yields if the save succeeds. */
  datatype Press = Press(form: Form, upsert: Reply, insert: Reply, freshId: string)

  /** How a render pass ends. */
  datatype Pass =
    | NoAreas                       // "Nema dostupnih područja u bazi.", halted
    | NoCategories(area: string)    // no categories for the chosen area, halted
    | FormShown                     // the form is shown and Save Event was not pressed
    | Submitted(outcome: SubmitOutcome)

  /** The remote calls once the categories of the chosen area are known: none when
      there are no categories or Save Event was not pressed, otherwise the handler's. */
  function PressCalls(categories: seq<Named>, categoryName: string, press: Option<Press>): (r: seq<Call>)
    requires categories != [] ==> categoryName in NameToId(categories)
    ensures categories == [] || press.None? ==> r == []
    ensures r != [] ==> r[0].UpsertEvent? && |r| <= 2
  {
    if categories == [] || press.None? then []
    else SubmitCalls(NameToId(categories)[categoryName], press.value.form, press.value.upsert)
  }

  /** The remote calls of one run after the two guards: the area select, then (with
      some areas) the category select for the chosen area and the calls that follow. */
  function FormCalls(areas: seq<Named>, areaName: string, categories: seq<Named>, categoryName: string,
                     press: Option<Press>): (r: seq<Call>)
    requires areas != [] ==> areaName in NameToId(areas)
    requires categories != [] ==> categoryName in NameToId(categories)
    ensures r != [] && r[0] == SelectAreas
    ensures |r| == 1 <==> areas == []
    ensures |r| > 1 ==> r[1] == SelectCategories(NameToId(areas)[areaName])
  {
    if areas == [] then [SelectAreas]
    else [SelectAreas, SelectCategories(NameToId(areas)[areaName])] + PressCalls(categories, categoryName, press)
  }

  /** Regrouping three stretches of calls; called where the solver would otherwise
      search for the regrouping itself. */
  lemma AppendAssoc(a: seq<Call>, b: seq<Call>, c: seq<Call>)
    ensures (a + b) + c == a + (b + c)
  {}

  class Session {
    /** `'sequences_fixed' in st.session_state` */
    var sequencesFixed: bool
    /** `st.session_state.session_id`, `None` while the key is absent */
    var sessionId: Option<string>
    /** every remote call issued in this session, oldest first */
    var calls: seq<Call>

    /** A new session: empty session state, no call issued yet. */
    constructor ()
      ensures !sequencesFixed && sessionId == None && calls == []
    {
      sequencesFixed := false;
      sessionId := None;
      calls := [];
    }

    /** `fix_sequences`: probe each table in turn and reset its sequence above a truthy
        maximum; an exception for one table skips to the next. */
    method FixSequences(maxIdOf: string -> MaxIdReply)
      modifies this`calls
      ensures calls == old(calls) + RepairCalls(Tables, maxIdOf)
    {
      var tables := Tables;
      var i := 0;
      while i < |tables|
        invariant 0 <= i <= |tables|
        invariant calls == old(calls) + RepairCalls(tables[..i], maxIdOf)
      {
        var table := tables[i];
        ghost var done := RepairCalls(tables[..i], maxIdOf);
        calls := calls + [GetMaxId(table)];
        var reply := maxIdOf(table);
        if HasMaxId(reply) {
          calls := calls + [FixSequence(table, reply.data.value + 1)];
        }
        // a raised probe, or a raised fix_sequence, is swallowed
        ghost var step := TableCalls(table, reply);
        assert calls == old(calls) + (done + step);
        assert tables[..i + 1] == tables[..i] + [table];
        RepairCallsSnoc(tables[..i], table, maxIdOf);
        assert RepairCalls(tables[..i + 1], maxIdOf) == done + step;
        i := i + 1;
      }
      assert tables[..i] == tables;
    }

    /** The once-per-session guard around `fix_sequences`. */
    method EnsureSequencesFixed(maxIdOf: string -> MaxIdReply)
      modifies this`calls, this`sequencesFixed
      ensures sequencesFixed
      ensures calls == if old(sequencesFixed) then old(calls) else old(calls) + RepairCalls(Tables, maxIdOf)
    {
      if !sequencesFixed {
        FixSequences(maxIdOf);
        sequencesFixed := true;
      }
    }

    /** The guard that creates a session id only when there is none. */
    method EnsureSessionId(freshId: string)
      modifies this`sessionId
      ensures sessionId == if old(sessionId).None? then Some(freshId) else old(sessionId)
    {
      if sessionId.None? {
        sessionId := Some(freshId);
      }
    }

    /** The Save Event handler. It builds the record key by key, issues the upsert and,
        after an empty upsert, the insert, and replaces the session id only after a
        successful save. */
    method Submit(areaName: string, categoryName: string, categories: map<string, int>, press: Press)
      returns (outcome: SubmitOutcome)
      requires categoryName in categories && sessionId.Some?
      modifies this`calls, this`sessionId
      ensures outcome == Outcome(areaName, categoryName, categories[categoryName], press.form,
                                 press.upsert, press.insert, old(sessionId).value)
      ensures calls == old(calls) + SubmitCalls(categories[categoryName], press.form, press.upsert)
      ensures sessionId == if outcome.Saved? then Some(press.freshId) else old(sessionId)
    {
      var form := press.form;
      var currentId := sessionId.value;
      var halt, jsonData := ReadJson(form.jsonText, form.parsed);
      if halt {
        return InvalidJsonFormat;
      }
      var catId := categories[categoryName];
      var eventData := BuildEventRecord(catId, form.occurredAt, form.comment, jsonData);

      ghost var persisted := Persist(eventData, press.upsert, press.insert);
      assert SubmitCalls(catId, form, press.upsert) == persisted.calls;
      calls := calls + [UpsertEvent(eventData)];
      var result := press.upsert;
      if result == Rows([]) {
        calls := calls + [InsertEvent(eventData)];
        result := press.insert;
      }
      assert calls == old(calls) + persisted.calls;
      assert result == persisted.final;
      if result.Raises? {
        return SaveFailed(Classify(result.message), eventData, currentId);
      }
      if result.rows != [] {
        if Id !in result.rows[0] {
          return SaveFailed(Classify(MissingIdMessage), eventData, currentId);
        }
        var eventId := result.rows[0][Id];
        outcome := Saved(eventId, Echo(eventId, areaName, categoryName,
                                       if form.comment == "" then NotAvailable else form.comment,
                                       form.occurredAt,
                                       if Truthy(jsonData) then VJson(jsonData) else VStr(NotAvailable)));
        sessionId := Some(press.freshId);
      } else {
        outcome := NoReturnData;
      }
    }

    /** The lookups and the form of one run (after the two guards): the area rows,
        then the category rows for the chosen area and what follows them. `areas` is
        what the area select returns and `areaName` the dropdown's choice. An empty
        list of areas ends the run before anything later is shown. */
    method ShowForm(areas: seq<Named>, areaName: string,
                    categories: seq<Named>, categoryName: string,
                    press: Option<Press>)
      returns (pass: Pass)
      requires areas != [] ==> areaName in NameToId(areas)
      requires categories != [] ==> categoryName in NameToId(categories)
      requires sessionId.Some?
      modifies this`calls, this`sessionId
      ensures pass == NoAreas <==> areas == []
      ensures pass.NoCategories? <==> areas != [] && categories == []
      ensures pass.NoCategories? ==> pass.area == areaName
      ensures pass == FormShown <==> areas != [] && categories != [] && press.None?
      ensures pass.Submitted? <==> areas != [] && categories != [] && press.Some?
      ensures calls == old(calls) + FormCalls(areas, areaName, categories, categoryName, press)
      ensures !pass.Submitted? ==> sessionId == old(sessionId)
      ensures pass.Submitted? ==>
        && areas != [] && categories != [] && press.Some?
        && var p := press.value;
        var categoryId := NameToId(categories)[categoryName];
        && pass.outcome == Outcome(areaName, categoryName, categoryId, p.form, p.upsert, p.insert, old(sessionId).value)
        && sessionId == if pass.outcome.Saved? then Some(p.freshId) else old(sessionId)
    {
      ghost var currentId := sessionId;
      calls := calls + [SelectAreas];
      var areaIds := NameToId(areas);
      if areas == [] {
        return NoAreas;
      }
      calls := calls + [SelectCategories(areaIds[areaName])];
      ghost var selects := [SelectAreas, SelectCategories(areaIds[areaName])];
      assert calls == old(calls) + selects;
      ghost var rest := PressCalls(categories, categoryName, press);
      assert FormCalls(areas, areaName, categories, categoryName, press) == selects + rest;
      assert sessionId == currentId;
      pass := ShowCategories(areaName, categories, categoryName, press);
      AppendAssoc(old(calls), selects, rest);
    }

    /** The rest of a run once an area is chosen: `categories` is what the category
        select returns and `categoryName` the dropdown's choice. An empty list ends the
        run; otherwise the form is shown and, when Save Event was pressed, handled. */
    method ShowCategories(areaName: string, categories: seq<Named>, categoryName: string,
                          press: Option<Press>)
      returns (pass: Pass)
      requires categories != [] ==> categoryName in NameToId(categories)
      requires sessionId.Some?
      modifies this`calls, this`sessionId
      ensures pass != NoAreas
      ensures pass.NoCategories? <==> categories == []
      ensures pass.NoCategories? ==> pass.area == areaName
      ensures pass == FormShown <==> categories != [] && press.None?
      ensures pass.Submitted? <==> categories != [] && press.Some?
      ensures calls == old(calls) + PressCalls(categories, categoryName, press)
      ensures !pass.Submitted? ==> sessionId == old(sessionId)
      ensures pass.Submitted? ==>
        && categories != [] && press.Some?
        && var p := press.value;
        var categoryId := NameToId(categories)[categoryName];
        && pass.outcome == Outcome(areaName, categoryName, categoryId, p.form, p.upsert, p.insert, old(sessionId).value)
        && sessionId == if pass.outcome.Saved? then Some(p.freshId) else old(sessionId)
    {
      var categoryIds := NameToId(categories);
      if categories == [] {
        return NoCategories(areaName);
      }
      if press.None? {
        return FormShown;
      }
      var outcome := Submit(areaName, categoryName, categoryIds, press.value);
      return Submitted(outcome);
    }

    /** One run of the script from the top: the sequence guard, the session-id guard,
        then the lookups and the form. */
    method RenderPass(maxIdOf: string -> MaxIdReply, firstId: string,
                      areas: seq<Named>, areaName: string,
                      categories: seq<Named>, categoryName: string,
                      press: Option<Press>)
      returns (pass: Pass)
      requires areas != [] ==> areaName in NameToId(areas)
      requires categories != [] ==> categoryName in NameToId(categories)
      modifies this
      ensures sequencesFixed && sessionId.Some?
      ensures calls == (if old(sequencesFixed) then old(calls) else old(calls) + RepairCalls(Tables, maxIdOf))
                       + FormCalls(areas, areaName, categories, categoryName, press)
      ensures !pass.Submitted? || !pass.outcome.Saved? ==>
        sessionId == Some(if old(sessionId).None? then firstId else old(sessionId).value)
      ensures pass.Submitted? && pass.outcome.Saved? ==> press.Some? && sessionId == Some(press.value.freshId)
      ensures pass == NoAreas <==> areas == []
      ensures pass.NoCategories? <==> areas != [] && categories == []
      ensures pass == FormShown <==> areas != [] && categories != [] && press.None?
      ensures pass.Submitted? <==> areas != [] && categories != [] && press.Some?
      ensures pass.Submitted? ==>
        && areas != [] && categories != [] && press.Some?
        && pass.outcome == Outcome(areaName, categoryName, NameToId(categories)[categoryName],
                                   press.value.form, press.value.upsert, press.value.insert,
                                   if old(sessionId).None? then firstId else old(sessionId).value)
    {
      EnsureSequencesFixed(maxIdOf);
      EnsureSessionId(firstId);
      pass := ShowForm(areas, areaName, categories, categoryName, press);
    }

    /** A later run of the script in a session whose sequences were already repaired:
        it issues no repair call, only the lookups and the form's calls, and it keeps
        the session id unless a save succeeds. */
    method RenderAgain(maxIdOf: string -> MaxIdReply, freshId: string,
                       areas: seq<Named>, areaName: string,
                       categories: seq<Named>, categoryName: string,
                       press: Option<Press>)
      returns (pass: Pass)
      requires sequencesFixed && sessionId.Some?
      requires areas != [] ==> areaName in NameToId(areas)
      requires categories != [] ==> categoryName in NameToId(categories)
      modifies this
      ensures sequencesFixed && sessionId.Some?
      ensures calls == old(calls) + FormCalls(areas, areaName, categories, categoryName, press)
      ensures !(pass.Submitted? && pass.outcome.Saved?) ==> sessionId == old(sessionId)
      ensures pass.Submitted? && pass.outcome.Saved? ==> press.Some? && sessionId == Some(press.value.freshId)
      ensures pass.Submitted? <==> areas != [] && categories != [] && press.Some?
      ensures pass.Submitted? ==>
        && areas != [] && categories != [] && press.Some?
        && pass.outcome == Outcome(areaName, categoryName, NameToId(categories)[categoryName],
                                   press.value.form, press.value.upsert, press.value.insert, old(sessionId).value)
    {
      pass := RenderPass(maxIdOf, freshId, areas, areaName, categories, categoryName, press);
    }
  }

  /** The first run of the script in a new session: the repair probes every table,
      then come the lookups and the form's calls; the session gets `firstId` unless a
      save succeeds in this very run. */
  method FirstRun(maxIdOf: string -> MaxIdReply, firstId: string,
                  areas: seq<Named>, areaName: string, categories: seq<Named>, categoryName: string,
                  press: Option<Press>)
    returns (s: Session, pass: Pass)
    requires areas != [] ==> areaName in NameToId(areas)
    requires categories != [] ==> categoryName in NameToId(categories)
    ensures fresh(s) && s.sequencesFixed && s.sessionId.Some?
    ensures s.calls == RepairCalls(Tables, maxIdOf) + FormCalls(areas, areaName, categories, categoryName, press)
    ensures !(pass.Submitted? && pass.outcome.Saved?) ==> s.sessionId == Some(firstId)
    ensures pass.Submitted? && pass.outcome.Saved? ==> press.Some? && s.sessionId == Some(press.value.freshId)
    ensures pass.Submitted? <==> areas != [] && categories != [] && press.Some?
    ensures pass.Submitted? ==>
      && areas != [] && categories != [] && press.Some?
      && pass.outcome == Outcome(areaName, categoryName, NameToId(categories)[categoryName],
                                 press.value.form, press.value.upsert, press.value.insert, firstId)
  {
    ghost var repair := RepairCalls(Tables, maxIdOf);
    assert [] + repair == repair;
    s := new Session();
    pass := s.RenderPass(maxIdOf, firstId, areas, areaName, categories, categoryName, press);
  }

  /** What one run of the script sees: the area rows and the area chosen, the category
      rows of that area and the category chosen, and the Save Event press, if any. */
  datatype Run = Run(areas: seq<Named>, areaName: string, categories: seq<Named>, categoryName: string,
                     press: Option<Press>)

  /** The dropdowns offer only the keys of their dictionaries. */
  predicate Chosen(r: Run)
  {
    && (r.areas != [] ==> r.areaName in NameToId(r.areas))
    && (r.categories != [] ==> r.categoryName in NameToId(r.categories))
  }

  /** The calls one run issues after the two guards. */
  function RunCalls(r: Run): seq<Call>
    requires Chosen(r)
  {
    FormCalls(r.areas, r.areaName, r.categories, r.categoryName, r.press)
  }

  /** Whether a run's press saved an event. */
  predicate SavedPass(p: Pass)
  {
    p.Submitted? && p.outcome.Saved?
  }

  /** Two runs of the script in one new session, each on its own lookups and choices
      (after a save the widget keys change, so the second run's choices are free): the
      repair runs on the first only, so the three tables are probed once and in order;
      each run submits exactly when it has areas, categories and a press, with the
      handler's outcome under the session id current at that run; the first session
      id is kept unless a save succeeds. */
  method TwoPasses(maxIdOf: string -> MaxIdReply, firstId: string, secondId: string, one: Run, two: Run)
    returns (s: Session, p1: Pass, p2: Pass)
    requires Chosen(one) && Chosen(two)
    ensures s.sequencesFixed && s.sessionId.Some?
    ensures s.calls == RepairCalls(Tables, maxIdOf) + RunCalls(one) + RunCalls(two)
    ensures Probed(s.calls) == ["event", "category", "area"]
    ensures p1.Submitted? <==> one.areas != [] && one.categories != [] && one.press.Some?
    ensures p1.Submitted? ==>
      && one.areas != [] && one.categories != [] && one.press.Some?
      && p1.outcome == Outcome(one.areaName, one.categoryName, NameToId(one.categories)[one.categoryName],
                               one.press.value.form, one.press.value.upsert, one.press.value.insert, firstId)
    ensures p2.Submitted? <==> two.areas != [] && two.categories != [] && two.press.Some?
    ensures p2.Submitted? ==>
      && two.areas != [] && two.categories != [] && two.press.Some?
      && p2.outcome == Outcome(two.areaName, two.categoryName, NameToId(two.categories)[two.categoryName],
                               two.press.value.form, two.press.value.upsert, two.press.value.insert,
                               if SavedPass(p1) && one.press.Some? then one.press.value.freshId else firstId)
    ensures !SavedPass(p1) && !SavedPass(p2) ==> s.sessionId == Some(firstId)
    ensures SavedPass(p2) ==> two.press.Some? && s.sessionId == Some(two.press.value.freshId)
    ensures SavedPass(p1) && !SavedPass(p2) ==> one.press.Some? && s.sessionId == Some(one.press.value.freshId)
  {
    s, p1 := FirstRun(maxIdOf, firstId, one.areas, one.areaName, one.categories, one.categoryName, one.press);
    ghost var id1 := s.sessionId.value;
    assert id1 == if SavedPass(p1) && one.press.Some? then one.press.value.freshId else firstId;
    p2 := s.RenderAgain(maxIdOf, secondId, two.areas, two.areaName, two.categories, two.categoryName, two.press);
    FormCallsProbeNothing(one.areas, one.areaName, one.categories, one.categoryName, one.press);
    FormCallsProbeNothing(two.areas, two.areaName, two.categories, two.categoryName, two.press);
    RepairOnlyFirst(maxIdOf, RunCalls(one), RunCalls(two));
  }

  /** The lookups and the form issue no `get_max_id` probe. */
  lemma FormCallsProbeNothing(areas: seq<Named>, areaName: string, categories: seq<Named>, categoryName: string,
                              press: Option<Press>)
    requires areas != [] ==> areaName in NameToId(areas)
    requires categories != [] ==> categoryName in NameToId(categories)
    ensures Probed(FormCalls(areas, areaName, categories, categoryName, press)) == []
  {
    if areas != [] {
      var selects := [SelectAreas, SelectCategories(NameToId(areas)[areaName])];
      var rest := PressCalls(categories, categoryName, press);
      assert FormCalls(areas, areaName, categories, categoryName, press) == selects + rest;
      NoProbes(selects);
      PressCallsProbeNothing(categories, categoryName, press);
      ProbedAppend(selects, rest);
    } else {
      NoProbes([SelectAreas]);
    }
  }

  /** The handler issues no `get_max_id` probe. */
  lemma PressCallsProbeNothing(categories: seq<Named>, categoryName: string, press: Option<Press>)
    requires categories != [] ==> categoryName in NameToId(categories)
    ensures Probed(PressCalls(categories, categoryName, press)) == []
  {
    var r := PressCalls(categories, categoryName, press);
    if r != [] {
      assert forall c :: c in r ==> c.UpsertEvent? || c.InsertEvent?;
    }
    NoProbes(r);
  }

  /** The repair calls followed by two runs' lookup and form calls probe the script's
      three tables once, in order. */
  lemma RepairOnlyFirst(maxIdOf: string -> MaxIdReply, form1: seq<Call>, form2: seq<Call>)
    requires Probed(form1) == [] && Probed(form2) == []
    ensures Probed(RepairCalls(Tables, maxIdOf) + form1 + form2) == ["event", "category", "area"]
  {
    ProbedAppend(RepairCalls(Tables, maxIdOf) + form1, form2);
    ProbedAppend(RepairCalls(Tables, maxIdOf), form1);
    ScriptOrder(maxIdOf);
  }
}
