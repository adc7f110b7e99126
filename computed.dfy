/** `updateCalculatedFields` in `handleChange` (DynamicQuoteForm.tsx): one pass over
    every stage, in document order, that overwrites each computed field with its
    expression's result on the tree as updated so far. A group whose slot is falsy
    is given a fresh empty object first. Writing a computed child into a group slot
    that holds a truthy non-object throws (module code is strict), and nothing
    catches it: that is the `Crash` outcome. */
module Computed {
  import opened Common
  import opened Schema
  import opened Flatten
  import opened ValueTree
  import opened Evaluator

  datatype Outcome = Done(t: Tree) | Crash

  /** `field.valueCalculation` is truthy: only then does the pass touch the field. */
  predicate Computes(f: Field) {
    f.valueCalculation.Some? && f.valueCalculation.value != ""
  }

  function PassNodes(env: Env, ns: seq<Node>, t: Tree): Outcome
    decreases ns
  {
    if ns == [] then Done(t)
    else match PassNode(env, ns[0], t)
      case Crash => Crash
      case Done(t1) => PassNodes(env, ns[1..], t1)
  }

  function PassNode(env: Env, n: Node, t: Tree): Outcome
    decreases n
  {
    match n
    case SectionN(_, _, ch) => PassNodes(env, ch, t)
    case GroupN(g) => PassGroup(env, g, t)
    case FieldN(f) =>
      if Computes(f) then Done(t[f.name := EvaluateValueCalculation(env, f.valueCalculation.value, t)])
      else Done(t)
  }

  /** `if (!parentObj[g]) parentObj[g] = {}`, then the children. */
  function PassGroup(env: Env, g: Group, t: Tree): Outcome {
    var t1 := if Truthy(Get(t, g.name)) then t else t[g.name := Obj(map[])];
    PassChildren(env, g.name, g.fields, t1)
  }

  /** The children of group `gn`, each computed one written into `t[gn]` and
      evaluated against the whole root tree. */
  function PassChildren(env: Env, gn: string, fs: seq<Field>, t: Tree): Outcome {
    if fs == [] then Done(t)
    else if !Computes(fs[0]) then PassChildren(env, gn, fs[1..], t)
    else if !Get(t, gn).Obj? then Crash
    else
      var v := EvaluateValueCalculation(env, fs[0].valueCalculation.value, t);
      PassChildren(env, gn, fs[1..], t[gn := Obj(t[gn].props[fs[0].name := v])])
  }

  /** `form.forEach(group => updateCalculatedFields(group.fields, newValues, newValues))` */
  function Recompute(env: Env, stages: seq<Stage>, t: Tree): Outcome {
    if stages == [] then Done(t)
    else match PassNodes(env, stages[0].fields, t)
      case Crash => Crash
      case Done(t1) => Recompute(env, stages[1..], t1)
  }

  // ----- document order -----

  /** Running the pass over `a + b` is running it over `a`, then over `b`. */
  lemma {:induction false} PassAppend(env: Env, a: seq<Node>, b: seq<Node>, t: Tree)
    ensures PassNodes(env, a + b, t) ==
      match PassNodes(env, a, t)
      case Crash => Crash
      case Done(t1) => PassNodes(env, b, t1)
  {
    if a == [] {
      assert a + b == b;
    } else {
      assert (a + b)[0] == a[0] && (a + b)[1..] == a[1..] + b;
      match PassNode(env, a[0], t) {
        case Crash =>
        case Done(t1) => PassAppend(env, a[1..], b, t1);
      }
    }
  }

  /** Sections are transparent: the pass over a node list is the pass over its flattening. */
  lemma {:induction false} PassFlat(env: Env, ns: seq<Node>, t: Tree)
    ensures PassNodes(env, ns, t) == PassNodes(env, Flat(ns), t)
    decreases ns
  {
    if ns != [] {
      PassOneFlat(env, ns[0], t);
      PassAppend(env, FlatOne(ns[0]), Flat(ns[1..]), t);
      match PassNode(env, ns[0], t) {
        case Crash =>
        case Done(t1) => PassFlat(env, ns[1..], t1);
      }
    }
  }

  lemma {:induction false} PassOneFlat(env: Env, n: Node, t: Tree)
    ensures PassNode(env, n, t) == PassNodes(env, FlatOne(n), t)
    decreases n
  {
    match n {
      case SectionN(_, _, ch) => PassFlat(env, ch, t);
      case FieldN(_) =>
        assert [n][1..] == [];
      case GroupN(_) =>
        assert [n][1..] == [];
    }
  }

  /** The pass over the whole form is one walk over the fields and groups of every
      stage, in document order, sections flattened away. */
  lemma {:induction false} RecomputeIsDocumentOrder(env: Env, stages: seq<Stage>, t: Tree)
    ensures Recompute(env, stages, t) == PassNodes(env, RootNodes(stages), t)
  {
    if stages != [] {
      PassFlat(env, stages[0].fields, t);
      PassAppend(env, Flat(stages[0].fields), RootNodes(stages[1..]), t);
      match PassNodes(env, stages[0].fields, t) {
        case Crash =>
        case Done(t1) => RecomputeIsDocumentOrder(env, stages[1..], t1);
      }
    }
  }

  // ----- what the pass may change -----

  /** The root keys the pass may write: computed fields and groups (sections
      contribute their children). */
  function Touched(ns: seq<Node>): set<string>
    decreases ns
  {
    if ns == [] then {} else TouchedOne(ns[0]) + Touched(ns[1..])
  }

  function TouchedOne(n: Node): set<string>
    decreases n
  {
    match n
    case FieldN(f) => if Computes(f) then {f.name} else {}
    case GroupN(g) => {g.name}
    case SectionN(_, _, ch) => Touched(ch)
  }

  /** The names of a group's computed children: the only properties it writes. */
  function ComputedNames(fs: seq<Field>): set<string> {
    if fs == [] then {} else (if Computes(fs[0]) then {fs[0].name} else {}) + ComputedNames(fs[1..])
  }

  lemma {:induction false} ChildrenFrame(env: Env, gn: string, fs: seq<Field>, t: Tree, t2: Tree)
    requires PassChildren(env, gn, fs, t) == Done(t2)
    ensures forall k :: k != gn ==> Get(t2, k) == Get(t, k)
    ensures forall c :: c !in ComputedNames(fs) ==> Child(t2, gn, c) == Child(t, gn, c)
    ensures ComputedNames(fs) != {} ==> Get(t2, gn).Obj?
    ensures ComputedNames(fs) == {} ==> t2 == t
  {
    if fs != [] {
      if !Computes(fs[0]) {
        ChildrenFrame(env, gn, fs[1..], t, t2);
      } else {
        var v := EvaluateValueCalculation(env, fs[0].valueCalculation.value, t);
        var t1 := t[gn := Obj(t[gn].props[fs[0].name := v])];
        ChildrenFrame(env, gn, fs[1..], t1, t2);
      }
    }
  }

  /** Only computed fields and group slots change; every other root key reads as before. */
  lemma {:induction false} PassFrame(env: Env, ns: seq<Node>, t: Tree, t2: Tree)
    requires PassNodes(env, ns, t) == Done(t2)
    ensures forall k :: k !in Touched(ns) ==> Get(t2, k) == Get(t, k)
    decreases ns
  {
    if ns != [] {
      var t1 := PassNode(env, ns[0], t).t;
      PassOneFrame(env, ns[0], t, t1);
      PassFrame(env, ns[1..], t1, t2);
    }
  }

  lemma {:induction false} PassOneFrame(env: Env, n: Node, t: Tree, t2: Tree)
    requires PassNode(env, n, t) == Done(t2)
    ensures forall k :: k !in TouchedOne(n) ==> Get(t2, k) == Get(t, k)
    decreases n
  {
    match n {
      case SectionN(_, _, ch) => PassFrame(env, ch, t, t2);
      case FieldN(_) =>
      case GroupN(g) =>
        var t1 := if Truthy(Get(t, g.name)) then t else t[g.name := Obj(map[])];
        ChildrenFrame(env, g.name, g.fields, t1, t2);
    }
  }

  /** Inside a group, only the computed children change: every other child of the
      group reads as before, whatever the slot held (a falsy slot becomes `{}`, which
      has no children either). */
  lemma GroupFrame(env: Env, g: Group, t: Tree, t2: Tree)
    requires PassGroup(env, g, t) == Done(t2)
    ensures forall k :: k != g.name ==> Get(t2, k) == Get(t, k)
    ensures forall c :: c !in ComputedNames(g.fields) ==> Child(t2, g.name, c) == Child(t, g.name, c)
    ensures !Truthy(Get(t, g.name)) ==> Get(t2, g.name).Obj?
  {
    var t1 := if Truthy(Get(t, g.name)) then t else t[g.name := Obj(map[])];
    ChildrenFrame(env, g.name, g.fields, t1, t2);
  }

  /** A computed field is overwritten with its expression's result; a failing
      expression stores `''`; a field with no (or an empty) expression is left alone. */
  lemma FieldStep(env: Env, f: Field, t: Tree)
    ensures Computes(f) ==>
      PassNode(env, FieldN(f), t) == Done(t[f.name := EvaluateValueCalculation(env, f.valueCalculation.value, t)])
    ensures Computes(f) && env.run(f.valueCalculation.value, t).None? ==>
      PassNode(env, FieldN(f), t) == Done(t[f.name := Str("")])
    ensures !Computes(f) ==> PassNode(env, FieldN(f), t) == Done(t)
  {
  }

  // ----- when the pass throws -----

  /** Some group (sections flattened) has a computed child. */
  function HasComputedChild(ns: seq<Node>): bool
    decreases ns
  {
    if ns == [] then false
    else
      (match ns[0]
       case FieldN(_) => false
       case GroupN(g) => ComputedNames(g.fields) != {}
       case SectionN(_, _, ch) => HasComputedChild(ch))
      || HasComputedChild(ns[1..])
  }

  lemma {:induction false} ChildrenNoComputed(env: Env, gn: string, fs: seq<Field>, t: Tree)
    requires ComputedNames(fs) == {}
    ensures PassChildren(env, gn, fs, t) == Done(t)
  {
    if fs != [] {
      assert ComputedNames(fs[1..]) == {};
      ChildrenNoComputed(env, gn, fs[1..], t);
    }
  }

  lemma {:induction false} ChildrenOnObject(env: Env, gn: string, fs: seq<Field>, t: Tree)
    requires Get(t, gn).Obj?
    ensures PassChildren(env, gn, fs, t).Done?
  {
    if fs != [] {
      if Computes(fs[0]) {
        var v := EvaluateValueCalculation(env, fs[0].valueCalculation.value, t);
        ChildrenOnObject(env, gn, fs[1..], t[gn := Obj(t[gn].props[fs[0].name := v])]);
      } else {
        ChildrenOnObject(env, gn, fs[1..], t);
      }
    }
  }

  /** A pass can only throw at a group with a computed child. */
  lemma {:induction false} CrashNeedsComputedChild(env: Env, ns: seq<Node>, t: Tree)
    requires !HasComputedChild(ns)
    ensures PassNodes(env, ns, t).Done?
    decreases ns
  {
    if ns != [] {
      match ns[0] {
        case FieldN(_) =>
        case GroupN(g) =>
          var t1 := if Truthy(Get(t, g.name)) then t else t[g.name := Obj(map[])];
          ChildrenNoComputed(env, g.name, g.fields, t1);
        case SectionN(_, _, ch) => CrashNeedsComputedChild(env, ch, t);
      }
      CrashNeedsComputedChild(env, ns[1..], PassNode(env, ns[0], t).t);
    }
  }

  /** A group whose slot is an object, or falsy, never throws; one whose slot is a
      truthy primitive throws as soon as it has a computed child. */
  lemma GroupCrash(env: Env, g: Group, t: Tree)
    ensures Get(t, g.name).Obj? || !Truthy(Get(t, g.name)) ==> PassGroup(env, g, t).Done?
    ensures Truthy(Get(t, g.name)) && !Get(t, g.name).Obj? ==>
      (PassGroup(env, g, t) == Crash <==> ComputedNames(g.fields) != {})
  {
    var t1 := if Truthy(Get(t, g.name)) then t else t[g.name := Obj(map[])];
    if Get(t1, g.name).Obj? {
      ChildrenOnObject(env, g.name, g.fields, t1);
    } else if ComputedNames(g.fields) == {} {
      ChildrenNoComputed(env, g.name, g.fields, t1);
    } else {
      ChildrenPrimitiveCrash(env, g.name, g.fields, t1);
    }
  }

  lemma {:induction false} ChildrenPrimitiveCrash(env: Env, gn: string, fs: seq<Field>, t: Tree)
    requires !Get(t, gn).Obj? && ComputedNames(fs) != {}
    ensures PassChildren(env, gn, fs, t) == Crash
  {
    if !Computes(fs[0]) {
      ChildrenPrimitiveCrash(env, gn, fs[1..], t);
    }
  }

  // ----- the pass is not idempotent -----

  /** A computed field `a` that copies the later computed field `b`, which is the
      constant 1. */
  function CopyLaterEnv(): Env {
    Env((expr: string, t: Tree) => if expr == "copyB" then Some(Get(t, "b")) else Some(Num(1)),
        (body: string, f: Field, v: Value, s: Value) => Returned(Bool(true)),
        (p: string, v: Value) => Some(true))
  }

  function ComputedField(name: string, expr: string): Field {
    Field(name, "number", None, None, None, None, None, None, Some(expr), NoOptions, None, false, [])
  }

  /** Running the pass twice is not running it once: `a` reads `b` before `b` is
      computed in the same pass, so the second pass sees a different `b`. */
  lemma RecomputeNotIdempotent()
    ensures var env := CopyLaterEnv();
      var stages := [Stage("s", [FieldN(ComputedField("a", "copyB")), FieldN(ComputedField("b", "one"))])];
      var t := map["a" := Str(""), "b" := Str("")];
      && Recompute(env, stages, t) == Done(map["a" := Str(""), "b" := Num(1)])
      && Recompute(env, stages, Recompute(env, stages, t).t) == Done(map["a" := Num(1), "b" := Num(1)])
  {
    var env := CopyLaterEnv();
    var fa, fb := ComputedField("a", "copyB"), ComputedField("b", "one");
    var ns := [FieldN(fa), FieldN(fb)];
    var t := map["a" := Str(""), "b" := Str("")];
    var t1 := t["a" := Str("")];
    var t2 := t1["b" := Num(1)];
    assert Get(t, "b") == Str("");
    assert env.run("copyB", t) == Some(Get(t, "b"));
    assert env.run("one", t1) == Some(Num(1));
    assert PassNode(env, FieldN(fa), t) == Done(t1);
    assert PassNode(env, FieldN(fb), t1) == Done(t2);
    assert ns[1..] == [FieldN(fb)] && [FieldN(fb)][1..] == [];
    assert PassNodes(env, [FieldN(fb)], t1) == Done(t2);
    assert PassNodes(env, ns, t) == Done(t2);
    assert t2 == map["a" := Str(""), "b" := Num(1)];
    var u1 := t2["a" := Num(1)];
    var u2 := u1["b" := Num(1)];
    assert env.run("copyB", t2) == Some(Num(1));
    assert env.run("one", u1) == Some(Num(1));
    assert PassNode(env, FieldN(fa), t2) == Done(u1);
    assert PassNode(env, FieldN(fb), u1) == Done(u2);
    assert PassNodes(env, [FieldN(fb)], u1) == Done(u2);
    assert PassNodes(env, ns, t2) == Done(u2);
    assert u2 == map["a" := Num(1), "b" := Num(1)];
  }

  // ----- the imperative pass -----

  /** The source's recursive `updateCalculatedFields`, writing into one tree. */
  method UpdateCalculatedFields(env: Env, fields: seq<Node>, t: Tree) returns (out: Outcome)
    ensures out == PassNodes(env, fields, t)
    decreases fields
  {
    var cur := t;
    var i := 0;
    while i < |fields|
      invariant 0 <= i <= |fields|
      invariant PassNodes(env, fields, t) == PassNodes(env, fields[i..], cur)
    {
      var field := fields[i];
      assert fields[i..][0] == field && fields[i..][1..] == fields[i + 1..];
      match field {
        case SectionN(_, _, ch) =>
          var r := UpdateCalculatedFields(env, ch, cur);
          if r.Crash? { return Crash; }
          cur := r.t;
        case GroupN(g) =>
          var r := UpdateGroup(env, g, cur);
          if r.Crash? { return Crash; }
          cur := r.t;
        case FieldN(f) =>
          if Computes(f) {
            cur := cur[f.name := EvaluateValueCalculation(env, f.valueCalculation.value, cur)];
          }
      }
      i := i + 1;
    }
    return Done(cur);
  }

  method UpdateGroup(env: Env, g: Group, t: Tree) returns (out: Outcome)
    ensures out == PassGroup(env, g, t)
  {
    var cur := t;
    if !Truthy(Get(cur, g.name)) {
      cur := cur[g.name := Obj(map[])];
    }
    var j := 0;
    while j < |g.fields|
      invariant 0 <= j <= |g.fields|
      invariant PassGroup(env, g, t) == PassChildren(env, g.name, g.fields[j..], cur)
    {
      var f := g.fields[j];
      assert g.fields[j..][0] == f && g.fields[j..][1..] == g.fields[j + 1..];
      if Computes(f) {
        if !Get(cur, g.name).Obj? { return Crash; }
        var v := EvaluateValueCalculation(env, f.valueCalculation.value, cur);
        cur := cur[g.name := Obj(cur[g.name].props[f.name := v])];
      }
      j := j + 1;
    }
    return Done(cur);
  }

  /** Every stage in turn, all on the same tree. */
  method RecomputeAll(env: Env, stages: seq<Stage>, t: Tree) returns (out: Outcome)
    ensures out == Recompute(env, stages, t)
    ensures out == PassNodes(env, RootNodes(stages), t)
  {
    var cur := t;
    var i := 0;
    while i < |stages|
      invariant 0 <= i <= |stages|
      invariant Recompute(env, stages, t) == Recompute(env, stages[i..], cur)
    {
      assert stages[i..][0] == stages[i] && stages[i..][1..] == stages[i + 1..];
      var r := UpdateCalculatedFields(env, stages[i].fields, cur);
      if r.Crash? {
        RecomputeIsDocumentOrder(env, stages, t);
        return Crash;
      }
      cur := r.t;
      i := i + 1;
    }
    RecomputeIsDocumentOrder(env, stages, t);
    return Done(cur);
  }
}
