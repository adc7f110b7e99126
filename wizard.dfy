/** The stage state machine of DynamicQuoteForm.tsx: the current stage index, the
    value tree, the current stage's error map and one status per stage name, with
    the handlers `handleChange`, `handleNextOrSubmit`/`handleSubmit`, `handlePrev` and
    the progress bar's guarded `handleStageClick`. */
module Wizard {
  import opened Common
  import opened Schema
  import opened Flatten
  import opened ValueTree
  import opened Evaluator
  import opened Computed
  import opened Validator
  import DependentOptions

  datatype Status = Untouched | Incomplete | Complete

  /** The component's state. */
  datatype Snapshot = Snapshot(
    stage: nat,
    values: Tree,
    stageErrors: map<string, string>,
    stageStatus: map<string, Status>)

  function StageNames(stages: seq<Stage>): set<string> {
    set i | 0 <= i < |stages| :: stages[i].name
  }

  /** Every stage starts `untouched`. */
  function InitialStatus(stages: seq<Stage>): map<string, Status> {
    map n | n in StageNames(stages) :: Untouched
  }

  function Initial(stages: seq<Stage>): Snapshot {
    Snapshot(0, InitialValues(stages), map[], InitialStatus(stages))
  }

  /** `stageStatus[name]`, `None` where the map has no entry. */
  function StatusOf(s: Snapshot, name: string): Option<Status> {
    if name in s.stageStatus then Some(s.stageStatus[name]) else None
  }

  /** The index is a stage, and every stage has a status. */
  predicate Valid(stages: seq<Stage>, s: Snapshot) {
    && |stages| > 0
    && s.stage < |stages|
    && StageNames(stages) <= s.stageStatus.Keys
  }

  /** The current stage's fields, sections flattened. */
  function CurrentFields(stages: seq<Stage>, s: Snapshot): seq<Node>
    requires s.stage < |stages|
  {
    Flat(stages[s.stage].fields)
  }

  /** `handleNextOrSubmit`: validate the current stage; with errors, show them and
      mark the stage `incomplete`; without, clear them, mark it `complete`, and move
      to the next stage unless this is the last one (`handleSubmit`, which then only
      reports the values). A validation that throws changes nothing. */
  function NextOrSubmit(env: Env, stages: seq<Stage>, s: Snapshot): Snapshot
    requires s.stage < |stages|
  {
    var name := stages[s.stage].name;
    match StageErrors(env, CurrentFields(stages, s), s.values)
    case Crashed => s
    case Errors(e) =>
      if |e| > 0 then s.(stageErrors := e, stageStatus := s.stageStatus[name := Incomplete])
      else if s.stage == |stages| - 1 then s.(stageErrors := map[], stageStatus := s.stageStatus[name := Complete])
      else s.(stage := s.stage + 1, stageErrors := map[], stageStatus := s.stageStatus[name := Complete])
  }

  /** `handlePrev`, offered only past the first stage. */
  function Prev(s: Snapshot): Snapshot
    requires s.stage > 0
  {
    s.(stage := s.stage - 1)
  }

  /** A progress-bar click on stage `idx`: it reaches `handleStageClick` only for a
      stage that is not the current one and not `untouched`. */
  function StageClick(stages: seq<Stage>, s: Snapshot, idx: nat): Snapshot
    requires idx < |stages|
  {
    if idx != s.stage && StatusOf(s, stages[idx].name) != Some(Untouched) then s.(stage := idx) else s
  }

  /** `handleChange(name, v)`: the one-slot update, the computed-field pass over every
      stage, then the current stage's validation. If the pass throws, nothing is
      stored; if the validation throws, the new values are stored but the errors are
      not. */
  function Change(env: Env, stages: seq<Stage>, s: Snapshot, name: string, v: Value): Snapshot
    requires s.stage < |stages|
  {
    match Recompute(env, stages, ApplyChange(s.values, name, v))
    case Crash => s
    case Done(t) =>
      match StageErrors(env, CurrentFields(stages, s), t)
      case Crashed => s.(values := t)
      case Errors(e) => s.(values := t, stageErrors := e)
  }

  /** What the renderer is given: the error map, or nothing while the current stage
      is `untouched`. */
  function ShownErrors(stages: seq<Stage>, s: Snapshot): (shown: map<string, string>)
    requires s.stage < |stages|
    ensures StatusOf(s, stages[s.stage].name) == Some(Untouched) ==> shown == map[]
    ensures StatusOf(s, stages[s.stage].name) != Some(Untouched) ==> shown == s.stageErrors
  {
    if StatusOf(s, stages[s.stage].name) != Some(Untouched) then s.stageErrors else map[]
  }

  // ----- properties of the transitions -----

  /** The initial state: index 0, no errors, every stage `untouched`, and the initial
      value tree. */
  lemma InitialState(stages: seq<Stage>)
    requires |stages| > 0
    ensures Valid(stages, Initial(stages))
    ensures forall i :: 0 <= i < |stages| ==> StatusOf(Initial(stages), stages[i].name) == Some(Untouched)
    ensures ShownErrors(stages, Initial(stages)) == map[]
  {
    forall i | 0 <= i < |stages| ensures stages[i].name in StageNames(stages) { }
    assert stages[0].name in StageNames(stages);
  }

  /** Every transition keeps the index on a stage and a status for every stage. */
  lemma TransitionsKeepValid(env: Env, stages: seq<Stage>, s: Snapshot, idx: nat, name: string, v: Value)
    requires Valid(stages, s)
    ensures Valid(stages, NextOrSubmit(env, stages, s))
    ensures s.stage > 0 ==> Valid(stages, Prev(s))
    ensures idx < |stages| ==> Valid(stages, StageClick(stages, s, idx))
    ensures Valid(stages, Change(env, stages, s, name, v))
  {
  }

  /** Stage gating: while a required field of the current stage is blank, the
      forward transition keeps the index, marks the stage `incomplete` and exposes
      a non-empty error map, on the last stage as on any other. */
  lemma RequiredFieldBlocksNext(env: Env, stages: seq<Stage>, s: Snapshot, i: int)
    requires s.stage < |stages|
    requires 0 <= i < |CurrentFields(stages, s)|
    requires CurrentFields(stages, s)[i].FieldN?
    requires CurrentFields(stages, s)[i].field.required
    requires Blank(Get(s.values, CurrentFields(stages, s)[i].field.name))
    requires StageErrors(env, CurrentFields(stages, s), s.values).Errors?
    ensures var s2 := NextOrSubmit(env, stages, s);
      && s2.stage == s.stage
      && StatusOf(s2, stages[s.stage].name) == Some(Incomplete)
      && CurrentFields(stages, s)[i].field.name in s2.stageErrors
  {
    RequiredBlankReported(env, CurrentFields(stages, s), s.values, i);
  }

  /** The forward step, case by case. With errors, the index stays, the stage is
      `incomplete` and the whole error map is exposed. Without errors, the map is
      cleared and the stage is `complete`; the index moves one stage on, except on
      the last stage (the submit), where it stays. A validation that throws changes
      nothing. Hence the index moves only when the stage is clean, and never by more
      than one. */
  lemma NextAdvancesOnlyWhenClean(env: Env, stages: seq<Stage>, s: Snapshot)
    requires s.stage < |stages|
    ensures var s2, r, name := NextOrSubmit(env, stages, s), StageErrors(env, CurrentFields(stages, s), s.values), stages[s.stage].name;
      && s2.values == s.values
      && (r.Crashed? ==> s2 == s)
      && (r.Errors? && |r.errs| > 0 ==>
            && s2.stage == s.stage
            && StatusOf(s2, name) == Some(Incomplete)
            && s2.stageErrors == r.errs)
      && (r == Errors(map[]) && s.stage < |stages| - 1 ==>
            && s2.stage == s.stage + 1
            && StatusOf(s2, name) == Some(Complete)
            && s2.stageErrors == map[])
      && (r == Errors(map[]) && s.stage == |stages| - 1 ==>
            && s2.stage == s.stage
            && StatusOf(s2, name) == Some(Complete)
            && s2.stageErrors == map[])
      && (s2.stage == s.stage || s2.stage == s.stage + 1)
      && (s2.stage == s.stage + 1 ==> r == Errors(map[]))
      && (forall n :: n != name ==> StatusOf(s2, n) == StatusOf(s, n))
  {
  }

  /** The forward handler writes only `incomplete` or `complete`. */
  lemma NextNeverUntouches(env: Env, stages: seq<Stage>, s: Snapshot, n: string)
    requires s.stage < |stages|
    requires StatusOf(s, n).Some? && StatusOf(s, n) != Some(Untouched)
    ensures StatusOf(NextOrSubmit(env, stages, s), n).Some? && StatusOf(NextOrSubmit(env, stages, s), n) != Some(Untouched)
  {
    var s2 := NextOrSubmit(env, stages, s);
    var name := stages[s.stage].name;
    assert s2.stageStatus == s.stageStatus
      || s2.stageStatus == s.stageStatus[name := Incomplete]
      || s2.stageStatus == s.stageStatus[name := Complete];
  }

  /** No transition ever puts a stage back to `untouched`. */
  lemma StatusNeverReverts(env: Env, stages: seq<Stage>, s: Snapshot, idx: nat, name: string, v: Value, n: string)
    requires s.stage < |stages|
    requires StatusOf(s, n).Some? && StatusOf(s, n) != Some(Untouched)
    ensures StatusOf(NextOrSubmit(env, stages, s), n).Some? && StatusOf(NextOrSubmit(env, stages, s), n) != Some(Untouched)
    ensures s.stage > 0 ==> StatusOf(Prev(s), n) == StatusOf(s, n)
    ensures idx < |stages| ==> StatusOf(StageClick(stages, s, idx), n) == StatusOf(s, n)
    ensures StatusOf(Change(env, stages, s, name, v), n) == StatusOf(s, n)
  {
    NextNeverUntouches(env, stages, s, n);
    EditKeepsStatus(env, stages, s, name, v);
  }

  /** A jump to an `untouched` stage, or to the current one, is a no-op; any other
      jump only sets the index. */
  lemma JumpRestriction(stages: seq<Stage>, s: Snapshot, idx: nat)
    requires idx < |stages|
    ensures StatusOf(s, stages[idx].name) == Some(Untouched) ==> StageClick(stages, s, idx) == s
    ensures idx == s.stage ==> StageClick(stages, s, idx) == s
    ensures idx != s.stage && StatusOf(s, stages[idx].name) != Some(Untouched) ==>
      StageClick(stages, s, idx) == s.(stage := idx)
  {
  }

  /** Editing re-validates the current stage but changes neither the index nor any
      status; an untouched stage therefore keeps hiding its errors after an edit. */
  lemma EditKeepsStatus(env: Env, stages: seq<Stage>, s: Snapshot, name: string, v: Value)
    requires s.stage < |stages|
    ensures var s2 := Change(env, stages, s, name, v);
      && s2.stage == s.stage
      && s2.stageStatus == s.stageStatus
      && (StatusOf(s, stages[s.stage].name) == Some(Untouched) ==> ShownErrors(stages, s2) == map[])
      && (Recompute(env, stages, ApplyChange(s.values, name, v)).Done? ==>
            s2.values == Recompute(env, stages, ApplyChange(s.values, name, v)).t)
  {
  }

  /** The dependent select end to end: after the user sets a top-level controlling
      field that no computed field or group shares a name with, and the computed-field
      pass completes, a top-level dependent select offers exactly the chosen string's
      entry, and nothing for the empty string or a string with no entry. */
  lemma EditDrivesDependentSelect(env: Env, stages: seq<Stage>, s: Snapshot, country: string, state: Field, choice: string)
    requires s.stage < |stages|
    requires '.' !in country && country != "" && country !in Touched(RootNodes(stages))
    requires state.options.DependentOptions? && state.optionsDependentOn == Some(country)
    requires Recompute(env, stages, ApplyChange(s.values, country, Str(choice))).Done?
    ensures var after := Change(env, stages, s, country, Str(choice)).values;
      && (choice != "" && choice in state.options.table ==>
            DependentOptions.ResolveOptions(state, None, after) == state.options.table[choice])
      && (choice == "" || choice !in state.options.table ==> DependentOptions.ResolveOptions(state, None, after) == [])
  {
    var t0 := ApplyChange(s.values, country, Str(choice));
    var t := Recompute(env, stages, t0).t;
    RecomputeIsDocumentOrder(env, stages, t0);
    PassFrame(env, RootNodes(stages), t0, t);
    assert Get(t, country) == Str(choice);
    assert Change(env, stages, s, country, Str(choice)).values == t;
  }

  // ----- no stage is skipped -----

  /** Stage `j` has been submitted at least once. */
  predicate Attempted(stages: seq<Stage>, status: map<string, Status>, j: int)
    requires 0 <= j < |stages|
  {
    !(stages[j].name in status && status[stages[j].name] == Untouched)
  }

  /** The attempted stages form a prefix of the form. */
  predicate PrefixClosed(stages: seq<Stage>, status: map<string, Status>) {
    forall i, j :: 0 <= i < j < |stages| && Attempted(stages, status, j) ==> Attempted(stages, status, i)
  }

  /** The attempted stages form a prefix, and the current stage is at most one past
      it. */
  predicate NoSkips(stages: seq<Stage>, s: Snapshot)
    requires s.stage < |stages|
  {
    && PrefixClosed(stages, s.stageStatus)
    && (s.stage == 0 || Attempted(stages, s.stageStatus, s.stage - 1))
  }

  predicate DistinctStageNames(stages: seq<Stage>) {
    forall i, j :: 0 <= i < j < |stages| ==> stages[i].name != stages[j].name
  }

  lemma NoSkipsInitially(stages: seq<Stage>)
    requires |stages| > 0
    ensures NoSkips(stages, Initial(stages))
  {
    InitialState(stages);
  }

  /** Marking the stage just after an attempted prefix keeps the prefix closed. */
  lemma {:induction false} MarkKeepsPrefix(stages: seq<Stage>, status: map<string, Status>, c: nat, x: Status)
    requires c < |stages| && DistinctStageNames(stages) && x != Untouched
    requires PrefixClosed(stages, status) && (c == 0 || Attempted(stages, status, c - 1))
    ensures PrefixClosed(stages, status[stages[c].name := x])
    ensures Attempted(stages, status[stages[c].name := x], c)
  {
    var status2 := status[stages[c].name := x];
    forall j | 0 <= j < |stages| && j != c
      ensures Attempted(stages, status2, j) == Attempted(stages, status, j)
    {
      assert stages[j].name != stages[c].name by {
        if j < c { assert stages[j].name != stages[c].name; } else { assert stages[c].name != stages[j].name; }
      }
    }
    forall i, j | 0 <= i < j < |stages| && Attempted(stages, status2, j)
      ensures Attempted(stages, status2, i)
    {
      if j == c {
        assert Attempted(stages, status, c - 1);
        assert i == c - 1 || Attempted(stages, status, i);
      }
    }
  }

  lemma NoSkipsAfterNext(env: Env, stages: seq<Stage>, s: Snapshot)
    requires Valid(stages, s) && DistinctStageNames(stages) && NoSkips(stages, s)
    ensures NoSkips(stages, NextOrSubmit(env, stages, s))
  {
    var name := stages[s.stage].name;
    MarkKeepsPrefix(stages, s.stageStatus, s.stage, Incomplete);
    MarkKeepsPrefix(stages, s.stageStatus, s.stage, Complete);
  }

  lemma {:induction false} NoSkipsAfterPrev(stages: seq<Stage>, s: Snapshot)
    requires Valid(stages, s) && s.stage > 0 && NoSkips(stages, s)
    ensures NoSkips(stages, Prev(s))
  {
    if s.stage > 1 {
      assert Attempted(stages, s.stageStatus, s.stage - 1);
    }
  }

  lemma {:induction false} NoSkipsAfterClick(stages: seq<Stage>, s: Snapshot, idx: nat)
    requires Valid(stages, s) && idx < |stages| && NoSkips(stages, s)
    ensures NoSkips(stages, StageClick(stages, s, idx))
  {
    if idx != s.stage && StatusOf(s, stages[idx].name) != Some(Untouched) && idx > 0 {
      assert Attempted(stages, s.stageStatus, idx);
    }
  }

  lemma NoSkipsAfterChange(env: Env, stages: seq<Stage>, s: Snapshot, name: string, v: Value)
    requires Valid(stages, s) && NoSkips(stages, s)
    ensures NoSkips(stages, Change(env, stages, s, name, v))
  {
    EditKeepsStatus(env, stages, s, name, v);
    var s2 := Change(env, stages, s, name, v);
    assert s2.stageStatus == s.stageStatus && s2.stage == s.stage;
  }

  /** With distinct stage names and from the initial state, the current stage is
      never past a stage that was never attempted: every stage before the current
      one has been submitted at least once. */
  lemma {:induction false} EarlierStagesAttempted(stages: seq<Stage>, s: Snapshot)
    requires Valid(stages, s) && NoSkips(stages, s)
    ensures forall j :: 0 <= j < s.stage ==> Attempted(stages, s.stageStatus, j)
  {
    forall j | 0 <= j < s.stage ensures Attempted(stages, s.stageStatus, j) {
      assert Attempted(stages, s.stageStatus, s.stage - 1);
    }
  }

  // ----- the component -----

  class DynamicQuoteForm {
    const env: Env
    const stages: seq<Stage>
    var stage: nat
    var values: Tree
    var stageErrors: map<string, string>
    var stageStatus: map<string, Status>

    function State(): Snapshot
      reads this
    {
      Snapshot(stage, values, stageErrors, stageStatus)
    }

    ghost predicate Ready()
      reads this
    {
      Valid(stages, State())
    }

    /** The component mounted on `formConfig.formGroup`. */
    constructor(env: Env, form: Form)
      requires |form.formGroup| > 0
      ensures this.env == env && stages == form.formGroup
      ensures State() == Initial(form.formGroup)
      ensures Ready()
    {
      this.env := env;
      stages := form.formGroup;
      stage := 0;
      var v := GetInitialValues(form.formGroup);
      values := v;
      stageErrors := map[];
      var status: map<string, Status> := map[];
      var i := 0;
      while i < |form.formGroup|
        invariant 0 <= i <= |form.formGroup|
        invariant status == map n | n in StageNames(form.formGroup[..i]) :: Untouched
      {
        assert StageNames(form.formGroup[..i + 1]) == StageNames(form.formGroup[..i]) + {form.formGroup[i].name} by {
          assert form.formGroup[..i + 1][i] == form.formGroup[i];
          forall k | 0 <= k < i ensures form.formGroup[..i + 1][k] == form.formGroup[..i][k] { }
        }
        status := status[form.formGroup[i].name := Untouched];
        i := i + 1;
      }
      assert form.formGroup[..i] == form.formGroup;
      stageStatus := status;
      new;
      InitialState(form.formGroup);
    }

    /** `handleSubmit`, on the last stage. */
    method HandleSubmit()
      requires Ready() && stage == |stages| - 1
      modifies this`stageErrors, this`stageStatus
      ensures State() == NextOrSubmit(env, stages, old(State()))
      ensures Ready()
    {
      var fields := FlattenFields(stages[stage].fields);
      var r := ValidateStage(env, fields, values);
      if r.Crashed? { return; }
      if |r.errs| > 0 {
        stageErrors := r.errs;
        stageStatus := stageStatus[stages[stage].name := Incomplete];
        return;
      }
      stageErrors := map[];
      stageStatus := stageStatus[stages[stage].name := Complete];
    }

    method HandleNextOrSubmit()
      requires Ready()
      modifies this`stage, this`stageErrors, this`stageStatus
      ensures State() == NextOrSubmit(env, stages, old(State()))
      ensures Ready()
    {
      if stage == |stages| - 1 {
        HandleSubmit();
        return;
      }
      var fields := FlattenFields(stages[stage].fields);
      var r := ValidateStage(env, fields, values);
      if r.Crashed? { return; }
      if |r.errs| > 0 {
        stageErrors := r.errs;
        stageStatus := stageStatus[stages[stage].name := Incomplete];
        return;
      }
      stageErrors := map[];
      stageStatus := stageStatus[stages[stage].name := Complete];
      stage := stage + 1;
    }

    method HandlePrev()
      requires Ready() && stage > 0
      modifies this`stage
      ensures State() == Prev(old(State()))
      ensures Ready()
    {
      stage := stage - 1;
    }

    /** The progress bar's button for stage `idx`, with its click guard. */
    method ClickStage(idx: nat)
      requires Ready() && idx < |stages|
      modifies this`stage
      ensures State() == StageClick(stages, old(State()), idx)
      ensures Ready()
    {
      var isCurrent := idx == stage;
      var name := stages[idx].name;
      if !isCurrent && !(name in stageStatus && stageStatus[name] == Untouched) {
        stage := idx;
      }
    }

    method HandleChange(name: string, v: Value)
      requires Ready()
      modifies this`values, this`stageErrors
      ensures State() == Change(env, stages, old(State()), name, v)
      ensures Ready()
    {
      var newValues := ApplyChange(values, name, v);
      var pass := RecomputeAll(env, stages, newValues);
      if pass.Crash? { return; }
      values := pass.t;
      var fields := FlattenFields(stages[stage].fields);
      var r := ValidateStage(env, fields, values);
      if r.Crashed? { return; }
      stageErrors := r.errs;
    }

    /** The error map passed to the renderer. */
    function RenderedErrors(): (shown: map<string, string>)
      reads this
      requires Ready()
      ensures StatusOf(State(), stages[stage].name) == Some(Untouched) ==> shown == map[]
    {
      ShownErrors(stages, State())
    }
  }
}
