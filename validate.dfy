/** `validateStage` (DynamicQuoteForm.tsx): the error map of one stage's flattened
    fields. A field first gets the required message when it is required and blank;
    then its rules run in order, each failing rule overwriting the field's message.
    A group's children are checked against the group's own value and their keys are
    prefixed with `"<group>."`. An invalid Regex pattern, or a custom predicate that
    throws, is not caught: the whole check ends in `Crashed`. */
module Validator {
  import opened Common
  import opened Schema
  import opened ValueTree
  import opened TitleCase
  import opened Evaluator

  datatype Checked = Errors(errs: map<string, string>) | Crashed

  datatype Verdict = Pass | Fail | Throws

  /** `field.label || toPerfectTitleCase(field.name)` */
  function LabelOf(f: Field): string {
    if f.labelText.Some? && f.labelText.value != "" then f.labelText.value else ToPerfectTitleCase(f.name)
  }

  function RequiredMessage(f: Field): string {
    LabelOf(f) + " is required."
  }

  /** `bound || 0`: a missing or zero lower bound is 0. */
  function LowerBound(b: Option<int>): int {
    if b.Some? then b.value else 0
  }

  /** `bound || Infinity`: a missing or zero upper bound is no bound. */
  function UpperBound(b: Option<int>): Option<int> {
    if b.Some? && b.value != 0 then b else None
  }

  /** One rule against the field's value; `scope` is the object the value was read from. */
  function RuleVerdict(env: Env, f: Field, rule: FieldValidation, v: Value, scope: Value): Verdict
  {
    if rule.ruleType == "Regex" then
      if rule.regex.Some? && rule.regex.value != "" && Truthy(v) then
        match env.regex(rule.regex.value, v)
        case None => Throws
        case Some(matched) => if matched then Pass else Fail
      else Pass
    else if rule.ruleType == "Required" then
      if v.Str? && |v.s| == 0 then Fail else Pass
    else if rule.ruleType == "MinLength" then
      if v.Str? && |v.s| < LowerBound(f.minLength) then Fail else Pass
    else if rule.ruleType == "MaxLength" then
      var hi := UpperBound(f.maxLength);
      if v.Str? && hi.Some? && |v.s| > hi.value then Fail else Pass
    else if rule.ruleType == "MinValue" then
      if v.Num? && v.n < LowerBound(f.min) then Fail else Pass
    else if rule.ruleType == "MaxValue" then
      var hi := UpperBound(f.max);
      if v.Num? && hi.Some? && v.n > hi.value then Fail else Pass
    else if rule.ruleType == "Function" then
      if rule.functionBody.Some? && rule.functionBody.value != "" then
        match env.pred(rule.functionBody.value, f, v, scope)
        case CompileError => Pass
        case Threw => Throws
        case Returned(res) => if Truthy(res) then Pass else Fail
      else Pass
    else Pass
  }

  /** What each rule type decides: a Regex rule throws on a bad pattern and passes a
      falsy value; Required fails exactly on `''`; the length and value bounds use
      `|| 0` and `|| Infinity` and pass values of the other kind; a predicate that
      throws is not caught, one that fails to compile passes; an unknown type passes. */
  lemma RuleVerdictSpec(env: Env, f: Field, rule: FieldValidation, v: Value, scope: Value)
    ensures RuleVerdict(env, f, rule, v, scope) == Throws <==>
      || (rule.ruleType == "Regex" && rule.regex.Some? && rule.regex.value != "" && Truthy(v)
          && env.regex(rule.regex.value, v).None?)
      || (rule.ruleType == "Function" && rule.functionBody.Some? && rule.functionBody.value != ""
          && env.pred(rule.functionBody.value, f, v, scope) == Threw)
    ensures rule.ruleType == "Regex" && !Truthy(v) ==> RuleVerdict(env, f, rule, v, scope) == Pass
    ensures rule.ruleType == "Required" ==> (RuleVerdict(env, f, rule, v, scope) == Fail <==> v == Str(""))
    ensures rule.ruleType in {"MinLength", "MaxLength"} && !v.Str? ==> RuleVerdict(env, f, rule, v, scope) == Pass
    ensures rule.ruleType in {"MinValue", "MaxValue"} && !v.Num? ==> RuleVerdict(env, f, rule, v, scope) == Pass
    ensures rule.ruleType == "MinLength" && v.Str? ==> (RuleVerdict(env, f, rule, v, scope) == Fail <==> |v.s| < LowerBound(f.minLength))
    ensures rule.ruleType == "MaxLength" && v.Str? ==>
      (RuleVerdict(env, f, rule, v, scope) == Fail <==> UpperBound(f.maxLength).Some? && |v.s| > UpperBound(f.maxLength).value)
    ensures rule.ruleType == "MinValue" && v.Num? ==> (RuleVerdict(env, f, rule, v, scope) == Fail <==> v.n < LowerBound(f.min))
    ensures rule.ruleType == "MaxValue" && v.Num? ==>
      (RuleVerdict(env, f, rule, v, scope) == Fail <==> UpperBound(f.max).Some? && v.n > UpperBound(f.max).value)
    ensures (rule.ruleType == "Function" && rule.functionBody.Some? &&
             env.pred(rule.functionBody.value, f, v, scope) == CompileError) ==> RuleVerdict(env, f, rule, v, scope) == Pass
    ensures rule.ruleType !in RuleTypes ==> RuleVerdict(env, f, rule, v, scope) == Pass
  {
  }

  /** The rules in order, each failing one writing its message under `key`. */
  function ApplyRules(env: Env, f: Field, rules: seq<FieldValidation>, v: Value, scope: Value,
                      key: string, errs: map<string, string>): Checked
  {
    if rules == [] then Errors(errs)
    else match RuleVerdict(env, f, rules[0], v, scope)
      case Throws => Crashed
      case Fail => ApplyRules(env, f, rules[1..], v, scope, key, errs[key := rules[0].message])
      case Pass => ApplyRules(env, f, rules[1..], v, scope, key, errs)
  }

  /** One field: the required check, then its rules. */
  function CheckField(env: Env, f: Field, v: Value, scope: Value, key: string, errs: map<string, string>): Checked {
    var e0 := if f.required && Blank(v) then errs[key := RequiredMessage(f)] else errs;
    ApplyRules(env, f, f.validation, v, scope, key, e0)
  }

  /** A group's children, read from the group's value and keyed by their own names. */
  function CheckFields(env: Env, fs: seq<Field>, scope: Value, errs: map<string, string>): Checked {
    if fs == [] then Errors(errs)
    else match CheckField(env, fs[0], Get(Props(scope), fs[0].name), scope, fs[0].name, errs)
      case Crashed => Crashed
      case Errors(e) => CheckFields(env, fs[1..], scope, e)
  }

  /** `values[g] || {}` */
  function GroupScope(scope: Value, g: string): Value {
    var sv := Get(Props(scope), g);
    if Truthy(sv) then sv else Obj(map[])
  }

  /** A group's error map copied under `"<group>.<key>"`. */
  function Prefixed(g: string, sub: map<string, string>): map<string, string> {
    map p | p in (set k | k in sub.Keys :: g + "." + k) && |g| + 1 <= |p| && p[|g| + 1..] in sub :: sub[p[|g| + 1..]]
  }

  /** A flattened stage's nodes. A section, which flattening never leaves, has no
      `type` and no rules, and so adds nothing. */
  function CheckNodes(env: Env, ns: seq<Node>, scope: Value, errs: map<string, string>): Checked {
    if ns == [] then Errors(errs)
    else match ns[0]
      case FieldN(f) =>
        (match CheckField(env, f, Get(Props(scope), f.name), scope, f.name, errs)
         case Crashed => Crashed
         case Errors(e) => CheckNodes(env, ns[1..], scope, e))
      case GroupN(g) =>
        (match CheckFields(env, g.fields, GroupScope(scope, g.name), map[])
         case Crashed => Crashed
         case Errors(sub) => CheckNodes(env, ns[1..], scope, errs + Prefixed(g.name, sub)))
      case SectionN(_, _, _) => CheckNodes(env, ns[1..], scope, errs)
  }

  /** The error map of a stage's flattened fields against the whole value tree. */
  function StageErrors(env: Env, ns: seq<Node>, values: Tree): Checked {
    CheckNodes(env, ns, Obj(values), map[])
  }

  // ----- the rule list: last failing rule wins -----

  /** The message of the last failing rule, found by scanning from the end. */
  function LastFailing(env: Env, f: Field, rules: seq<FieldValidation>, v: Value, scope: Value): Option<string> {
    if rules == [] then None
    else if RuleVerdict(env, f, rules[|rules| - 1], v, scope) == Fail then Some(rules[|rules| - 1].message)
    else LastFailing(env, f, rules[..|rules| - 1], v, scope)
  }

  predicate SomeRuleThrows(env: Env, f: Field, rules: seq<FieldValidation>, v: Value, scope: Value) {
    exists i :: 0 <= i < |rules| && RuleVerdict(env, f, rules[i], v, scope) == Throws
  }

  function Write(errs: map<string, string>, key: string, m: Option<string>): map<string, string> {
    if m.Some? then errs[key := m.value] else errs
  }

  lemma {:induction false} ApplyRulesSnoc(env: Env, f: Field, rules: seq<FieldValidation>, r: FieldValidation,
                                          v: Value, scope: Value, key: string, errs: map<string, string>)
    ensures ApplyRules(env, f, rules + [r], v, scope, key, errs) ==
      match ApplyRules(env, f, rules, v, scope, key, errs)
      case Crashed => Crashed
      case Errors(e) => ApplyRules(env, f, [r], v, scope, key, e)
  {
    if rules != [] {
      assert (rules + [r])[0] == rules[0] && (rules + [r])[1..] == rules[1..] + [r];
      var e1 := if RuleVerdict(env, f, rules[0], v, scope) == Fail then errs[key := rules[0].message] else errs;
      ApplyRulesSnoc(env, f, rules[1..], r, v, scope, key, e1);
    } else {
      assert rules + [r] == [r];
    }
  }

  lemma SomeRuleThrowsSnoc(env: Env, f: Field, init: seq<FieldValidation>, r: FieldValidation, v: Value, scope: Value)
    ensures SomeRuleThrows(env, f, init + [r], v, scope) <==>
      SomeRuleThrows(env, f, init, v, scope) || RuleVerdict(env, f, r, v, scope) == Throws
  {
    var rules := init + [r];
    if SomeRuleThrows(env, f, rules, v, scope) {
      var i :| 0 <= i < |rules| && RuleVerdict(env, f, rules[i], v, scope) == Throws;
      if i < |init| { assert init[i] == rules[i]; }
    }
    if SomeRuleThrows(env, f, init, v, scope) {
      var i :| 0 <= i < |init| && RuleVerdict(env, f, init[i], v, scope) == Throws;
      assert rules[i] == init[i];
    }
    assert rules[|init|] == r;
  }

  /** The rules end in `Crashed` exactly when one of them throws ... */
  lemma {:induction false} RulesCrashIffThrow(env: Env, f: Field, rules: seq<FieldValidation>, v: Value, scope: Value,
                                              key: string, errs: map<string, string>)
    ensures ApplyRules(env, f, rules, v, scope, key, errs) == Crashed <==> SomeRuleThrows(env, f, rules, v, scope)
    decreases |rules|
  {
    if rules != [] {
      var init, r := rules[..|rules| - 1], rules[|rules| - 1];
      assert rules == init + [r];
      ApplyRulesSnoc(env, f, init, r, v, scope, key, errs);
      RulesCrashIffThrow(env, f, init, v, scope, key, errs);
      SomeRuleThrowsSnoc(env, f, init, r, v, scope);
      assert [r][1..] == [];
    }
  }

  /** A later write to a key replaces whatever an earlier one put there. */
  lemma WriteOver(errs: map<string, string>, key: string, first: Option<string>, m: string)
    ensures Write(errs, key, first)[key := m] == errs[key := m]
  {
    if first.Some? {
      var a, b := errs[key := first.value][key := m], errs[key := m];
      assert a.Keys == b.Keys;
      forall k | k in a ensures a[k] == b[k] { }
    }
  }

  /** ... and otherwise the field's entry is the last failing rule's message, or is
      left as it was when none fails. */
  lemma {:induction false} LastRuleWins(env: Env, f: Field, rules: seq<FieldValidation>, v: Value, scope: Value,
                                        key: string, errs: map<string, string>)
    requires !SomeRuleThrows(env, f, rules, v, scope)
    ensures ApplyRules(env, f, rules, v, scope, key, errs) == Errors(Write(errs, key, LastFailing(env, f, rules, v, scope)))
    decreases |rules|
  {
    if rules != [] {
      var init, r := rules[..|rules| - 1], rules[|rules| - 1];
      assert rules == init + [r];
      ApplyRulesSnoc(env, f, init, r, v, scope, key, errs);
      SomeRuleThrowsSnoc(env, f, init, r, v, scope);
      LastRuleWins(env, f, init, v, scope, key, errs);
      var w := Write(errs, key, LastFailing(env, f, init, v, scope));
      assert [r][1..] == [];
      assert ApplyRules(env, f, rules, v, scope, key, errs) == ApplyRules(env, f, [r], v, scope, key, w);
      if RuleVerdict(env, f, r, v, scope) == Fail {
        WriteOver(errs, key, LastFailing(env, f, init, v, scope), r.message);
      }
    }
  }

  /** The message a field ends up with: the last failing rule's, else the required
      message when it is required and blank, else none. */
  function FieldMessage(env: Env, f: Field, v: Value, scope: Value): Option<string> {
    var last := LastFailing(env, f, f.validation, v, scope);
    if last.Some? then last
    else if f.required && Blank(v) then Some(RequiredMessage(f))
    else None
  }

  /** One field's effect on the error map: only its own key changes, and it ends up
      with `FieldMessage`; a failing rule overrides the required message. */
  lemma CheckFieldSpec(env: Env, f: Field, v: Value, scope: Value, key: string, errs: map<string, string>)
    ensures CheckField(env, f, v, scope, key, errs) == Crashed <==> SomeRuleThrows(env, f, f.validation, v, scope)
    ensures !SomeRuleThrows(env, f, f.validation, v, scope) ==>
      CheckField(env, f, v, scope, key, errs) == Errors(Write(errs, key, FieldMessage(env, f, v, scope)))
  {
    var req := if f.required && Blank(v) then Some(RequiredMessage(f)) else None;
    var e0 := Write(errs, key, req);
    assert CheckField(env, f, v, scope, key, errs) == ApplyRules(env, f, f.validation, v, scope, key, e0);
    RulesCrashIffThrow(env, f, f.validation, v, scope, key, e0);
    if !SomeRuleThrows(env, f, f.validation, v, scope) {
      LastRuleWins(env, f, f.validation, v, scope, key, e0);
      var last := LastFailing(env, f, f.validation, v, scope);
      if last.Some? {
        WriteOver(errs, key, req, last.value);
      }
    }
  }

  // ----- the keys of the error map -----

  /** The error keys a flattened stage can produce: a field's name, and
      `"<group>.<child>"` for a group's children. */
  function ChildPaths(g: string, fs: seq<Field>): set<string> {
    if fs == [] then {} else {g + "." + fs[0].name} + ChildPaths(g, fs[1..])
  }

  function Paths(ns: seq<Node>): set<string> {
    if ns == [] then {}
    else
      (match ns[0]
       case FieldN(f) => {f.name}
       case GroupN(g) => ChildPaths(g.name, g.fields)
       case SectionN(_, _, _) => {})
      + Paths(ns[1..])
  }

  lemma {:induction false} CheckFieldKeys(env: Env, f: Field, v: Value, scope: Value, key: string, errs: map<string, string>)
    requires CheckField(env, f, v, scope, key, errs).Errors?
    ensures CheckField(env, f, v, scope, key, errs).errs.Keys <= errs.Keys + {key}
    ensures errs.Keys <= CheckField(env, f, v, scope, key, errs).errs.Keys
  {
    CheckFieldSpec(env, f, v, scope, key, errs);
  }

  lemma {:induction false} CheckFieldsKeys(env: Env, fs: seq<Field>, scope: Value, errs: map<string, string>)
    requires CheckFields(env, fs, scope, errs).Errors?
    ensures CheckFields(env, fs, scope, errs).errs.Keys <= errs.Keys + FieldNames(fs)
  {
    if fs != [] {
      var e := CheckField(env, fs[0], Get(Props(scope), fs[0].name), scope, fs[0].name, errs);
      CheckFieldKeys(env, fs[0], Get(Props(scope), fs[0].name), scope, fs[0].name, errs);
      CheckFieldsKeys(env, fs[1..], scope, e.errs);
    }
  }

  lemma {:induction false} PrefixedKeys(g: string, fs: seq<Field>, sub: map<string, string>)
    requires sub.Keys <= FieldNames(fs)
    ensures Prefixed(g, sub).Keys <= ChildPaths(g, fs)
  {
    forall p | p in Prefixed(g, sub) ensures p in ChildPaths(g, fs) {
      var k :| k in sub && p == g + "." + k;
      ChildPathsMember(g, fs, k);
    }
  }

  lemma {:induction false} ChildPathsMember(g: string, fs: seq<Field>, k: string)
    requires k in FieldNames(fs)
    ensures g + "." + k in ChildPaths(g, fs)
  {
    if fs[0].name != k {
      ChildPathsMember(g, fs[1..], k);
    }
  }

  /** Every key of a stage's error map is a field's path in that stage. */
  lemma {:induction false} ErrorKeysArePaths(env: Env, ns: seq<Node>, scope: Value, errs: map<string, string>)
    requires CheckNodes(env, ns, scope, errs).Errors?
    ensures CheckNodes(env, ns, scope, errs).errs.Keys <= errs.Keys + Paths(ns)
  {
    if ns != [] {
      match ns[0] {
        case FieldN(f) =>
          var e := CheckField(env, f, Get(Props(scope), f.name), scope, f.name, errs);
          CheckFieldKeys(env, f, Get(Props(scope), f.name), scope, f.name, errs);
          ErrorKeysArePaths(env, ns[1..], scope, e.errs);
        case GroupN(g) =>
          var sub := CheckFields(env, g.fields, GroupScope(scope, g.name), map[]);
          CheckFieldsKeys(env, g.fields, GroupScope(scope, g.name), map[]);
          PrefixedKeys(g.name, g.fields, sub.errs);
          ErrorKeysArePaths(env, ns[1..], scope, errs + Prefixed(g.name, sub.errs));
        case SectionN(_, _, _) =>
          ErrorKeysArePaths(env, ns[1..], scope, errs);
      }
    }
  }

  /** Entries already in the map are never removed by later fields. */
  lemma {:induction false} CheckNodesGrows(env: Env, ns: seq<Node>, scope: Value, errs: map<string, string>)
    requires CheckNodes(env, ns, scope, errs).Errors?
    ensures errs.Keys <= CheckNodes(env, ns, scope, errs).errs.Keys
  {
    if ns != [] {
      match ns[0] {
        case FieldN(f) =>
          var e := CheckField(env, f, Get(Props(scope), f.name), scope, f.name, errs);
          CheckFieldKeys(env, f, Get(Props(scope), f.name), scope, f.name, errs);
          CheckNodesGrows(env, ns[1..], scope, e.errs);
        case GroupN(g) =>
          var sub := CheckFields(env, g.fields, GroupScope(scope, g.name), map[]);
          CheckNodesGrows(env, ns[1..], scope, errs + Prefixed(g.name, sub.errs));
        case SectionN(_, _, _) =>
          CheckNodesGrows(env, ns[1..], scope, errs);
      }
    }
  }

  /** A required top-level field with a blank value is always reported when the
      check completes. */
  lemma {:induction false} RequiredBlankReported(env: Env, ns: seq<Node>, values: Tree, i: int)
    requires 0 <= i < |ns| && ns[i].FieldN? && ns[i].field.required && Blank(Get(values, ns[i].field.name))
    requires StageErrors(env, ns, values).Errors?
    ensures ns[i].field.name in StageErrors(env, ns, values).errs
  {
    RequiredBlankFrom(env, ns, Obj(values), map[], i);
  }

  lemma {:induction false} RequiredBlankFrom(env: Env, ns: seq<Node>, scope: Value, errs: map<string, string>, i: int)
    requires 0 <= i < |ns| && ns[i].FieldN? && ns[i].field.required && Blank(Get(Props(scope), ns[i].field.name))
    requires CheckNodes(env, ns, scope, errs).Errors?
    ensures ns[i].field.name in CheckNodes(env, ns, scope, errs).errs
  {
    match ns[0] {
      case FieldN(f) =>
        var e := CheckField(env, f, Get(Props(scope), f.name), scope, f.name, errs);
        if i == 0 {
          CheckFieldSpec(env, f, Get(Props(scope), f.name), scope, f.name, errs);
          CheckNodesGrows(env, ns[1..], scope, e.errs);
        } else {
          RequiredBlankFrom(env, ns[1..], scope, e.errs, i - 1);
        }
      case GroupN(g) =>
        var sub := CheckFields(env, g.fields, GroupScope(scope, g.name), map[]);
        RequiredBlankFrom(env, ns[1..], scope, errs + Prefixed(g.name, sub.errs), i - 1);
      case SectionN(_, _, _) =>
        RequiredBlankFrom(env, ns[1..], scope, errs, i - 1);
    }
  }

  /** The required-field gate: a stage whose only field is required and carries no
      rules reports exactly that field, with its required message, while the value
      is blank, and nothing once it holds anything else. */
  lemma RequiredGate(env: Env, f: Field, values: Tree)
    requires f.required && f.validation == []
    ensures Blank(Get(values, f.name)) ==> StageErrors(env, [FieldN(f)], values) == Errors(map[f.name := RequiredMessage(f)])
    ensures !Blank(Get(values, f.name)) ==> StageErrors(env, [FieldN(f)], values) == Errors(map[])
  {
    var ns := [FieldN(f)];
    var v := Get(values, f.name);
    assert Get(Props(Obj(values)), f.name) == v;
    var e0 := if Blank(v) then map[f.name := RequiredMessage(f)] else map[];
    assert CheckField(env, f, v, Obj(values), f.name, map[]) == Errors(e0);
    assert ns[1..] == [];
    assert CheckNodes(env, ns, Obj(values), map[]) == CheckNodes(env, [], Obj(values), e0);
  }

  /** A blank required child of any group of a stage is reported under
      `"<group>.<child>"` whenever the check completes, whatever the other fields and
      rules of the stage. */
  lemma GroupChildKey(env: Env, ns: seq<Node>, values: Tree, i: int, j: int)
    requires 0 <= i < |ns| && ns[i].GroupN?
    requires 0 <= j < |ns[i].group.fields| && ns[i].group.fields[j].required
    requires Blank(Child(values, ns[i].group.name, ns[i].group.fields[j].name))
    requires StageErrors(env, ns, values).Errors?
    ensures ns[i].group.name + "." + ns[i].group.fields[j].name in StageErrors(env, ns, values).errs
  {
    var g := ns[i].group;
    var c := g.fields[j].name;
    assert Get(Props(Obj(values)), g.name) == Get(values, g.name);
    assert Blank(Get(Props(GroupScope(Obj(values), g.name)), c));
    GroupChildFrom(env, ns, Obj(values), map[], i, j);
  }

  /** The same from any scope and starting map. */
  lemma {:induction false} GroupChildFrom(env: Env, ns: seq<Node>, scope: Value, errs: map<string, string>, i: int, j: int)
    requires 0 <= i < |ns| && ns[i].GroupN?
    requires 0 <= j < |ns[i].group.fields| && ns[i].group.fields[j].required
    requires Blank(Get(Props(GroupScope(scope, ns[i].group.name)), ns[i].group.fields[j].name))
    requires CheckNodes(env, ns, scope, errs).Errors?
    ensures ns[i].group.name + "." + ns[i].group.fields[j].name in CheckNodes(env, ns, scope, errs).errs
  {
    assert i > 0 ==> ns[1..][i - 1] == ns[i];
    match ns[0] {
      case FieldN(f) =>
        var e := CheckField(env, f, Get(Props(scope), f.name), scope, f.name, errs);
        GroupChildFrom(env, ns[1..], scope, e.errs, i - 1, j);
      case GroupN(g) =>
        var sub := CheckFields(env, g.fields, GroupScope(scope, g.name), map[]);
        var next := errs + Prefixed(g.name, sub.errs);
        if i == 0 {
          CheckFieldsReportsBlank(env, g.fields, GroupScope(scope, g.name), map[], j);
          var p := g.name + "." + g.fields[j].name;
          assert p[|g.name| + 1..] == g.fields[j].name;
          assert p in Prefixed(g.name, sub.errs);
          CheckNodesGrows(env, ns[1..], scope, next);
        } else {
          GroupChildFrom(env, ns[1..], scope, next, i - 1, j);
        }
      case SectionN(_, _, _) =>
        GroupChildFrom(env, ns[1..], scope, errs, i - 1, j);
    }
  }

  lemma {:induction false} CheckFieldsNoRules(env: Env, fs: seq<Field>, scope: Value, errs: map<string, string>)
    requires forall j :: 0 <= j < |fs| ==> fs[j].validation == []
    ensures CheckFields(env, fs, scope, errs).Errors?
  {
    if fs != [] {
      var e := CheckField(env, fs[0], Get(Props(scope), fs[0].name), scope, fs[0].name, errs);
      CheckFieldsNoRules(env, fs[1..], scope, e.errs);
    }
  }

  /** A blank required child is reported under its own name whenever the group's
      check completes, whatever the rules of the other children. */
  lemma {:induction false} CheckFieldsReportsBlank(env: Env, fs: seq<Field>, scope: Value, errs: map<string, string>, i: int)
    requires 0 <= i < |fs| && fs[i].required && Blank(Get(Props(scope), fs[i].name))
    requires CheckFields(env, fs, scope, errs).Errors?
    ensures fs[i].name in CheckFields(env, fs, scope, errs).errs
  {
    var v := Get(Props(scope), fs[0].name);
    var e := CheckField(env, fs[0], v, scope, fs[0].name, errs);
    if i == 0 {
      CheckFieldSpec(env, fs[0], v, scope, fs[0].name, errs);
      CheckFieldsGrows(env, fs[1..], scope, e.errs);
    } else {
      assert fs[1..][i - 1] == fs[i];
      CheckFieldsReportsBlank(env, fs[1..], scope, e.errs, i - 1);
    }
  }

  lemma {:induction false} CheckFieldsGrows(env: Env, fs: seq<Field>, scope: Value, errs: map<string, string>)
    requires CheckFields(env, fs, scope, errs).Errors?
    ensures errs.Keys <= CheckFields(env, fs, scope, errs).errs.Keys
  {
    if fs != [] {
      var e := CheckField(env, fs[0], Get(Props(scope), fs[0].name), scope, fs[0].name, errs);
      CheckFieldKeys(env, fs[0], Get(Props(scope), fs[0].name), scope, fs[0].name, errs);
      CheckFieldsGrows(env, fs[1..], scope, e.errs);
    }
  }

  // ----- the imperative check -----

  /** One field's required check and rule loop, writing into `errs`. */
  method ValidateField(env: Env, f: Field, v: Value, scope: Value, key: string, errs: map<string, string>)
    returns (r: Checked)
    ensures r == CheckField(env, f, v, scope, key, errs)
  {
    var errors := errs;
    if f.required && Blank(v) {
      errors := errors[key := RequiredMessage(f)];
    }
    var j := 0;
    while j < |f.validation|
      invariant 0 <= j <= |f.validation|
      invariant CheckField(env, f, v, scope, key, errs) == ApplyRules(env, f, f.validation[j..], v, scope, key, errors)
    {
      var rule := f.validation[j];
      assert f.validation[j..][0] == rule && f.validation[j..][1..] == f.validation[j + 1..];
      var verdict := RuleVerdict(env, f, rule, v, scope);
      if verdict == Throws {
        return Crashed;
      } else if verdict == Fail {
        errors := errors[key := rule.message];
      }
      j := j + 1;
    }
    return Errors(errors);
  }

  /** The recursive call on a group's children. */
  method ValidateGroup(env: Env, fs: seq<Field>, scope: Value) returns (r: Checked)
    ensures r == CheckFields(env, fs, scope, map[])
  {
    var errors: map<string, string> := map[];
    var i := 0;
    while i < |fs|
      invariant 0 <= i <= |fs|
      invariant CheckFields(env, fs, scope, map[]) == CheckFields(env, fs[i..], scope, errors)
    {
      assert fs[i..][0] == fs[i] && fs[i..][1..] == fs[i + 1..];
      var c := ValidateField(env, fs[i], Get(Props(scope), fs[i].name), scope, fs[i].name, errors);
      if c.Crashed? { return Crashed; }
      errors := c.errs;
      i := i + 1;
    }
    return Errors(errors);
  }

  /** `validateStage(flattenFields(stage.fields), values)` */
  method ValidateStage(env: Env, fields: seq<Node>, values: Tree) returns (r: Checked)
    ensures r == StageErrors(env, fields, values)
    ensures r.Errors? ==> r.errs.Keys <= Paths(fields)
  {
    var scope := Obj(values);
    var errors: map<string, string> := map[];
    var i := 0;
    while i < |fields|
      invariant 0 <= i <= |fields|
      invariant StageErrors(env, fields, values) == CheckNodes(env, fields[i..], scope, errors)
    {
      assert fields[i..][0] == fields[i] && fields[i..][1..] == fields[i + 1..];
      match fields[i] {
        case FieldN(f) =>
          var c := ValidateField(env, f, Get(values, f.name), scope, f.name, errors);
          if c.Crashed? { return Crashed; }
          errors := c.errs;
        case GroupN(g) =>
          var sub := ValidateGroup(env, g.fields, GroupScope(scope, g.name));
          if sub.Crashed? { return Crashed; }
          errors := errors + Prefixed(g.name, sub.errs);
        case SectionN(_, _, _) =>
      }
      i := i + 1;
    }
    r := Errors(errors);
    ErrorKeysArePaths(env, fields, scope, map[]);
  }
}
