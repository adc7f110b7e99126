/** The value tree of DynamicQuoteForm.tsx: one entry per top-level field, a nested
    object per group (keyed by its children's names), and no level for sections.
    Covers `getInitialValues` and the path update at the head of `handleChange`. */
module ValueTree {
  import opened Common
  import opened Text
  import opened Schema
  import opened Flatten

  /** The JavaScript values a slot can hold: numbers are integers here, and objects
      are finite maps from property names to values. */
  datatype Value = Undefined | Null | Str(s: string) | Num(n: int) | Bool(b: bool) | Obj(props: map<string, Value>)

  type Tree = map<string, Value>

  /** JavaScript truthiness. */
  predicate Truthy(v: Value) {
    match v
    case Undefined => false
    case Null => false
    case Str(s) => s != ""
    case Num(n) => n != 0
    case Bool(b) => b
    case Obj(_) => true
  }

  /** `val === '' || val === undefined || val === null`: what the required check treats as missing. */
  predicate Blank(v: Value) {
    v == Str("") || v == Undefined || v == Null
  }

  /** `t[k]`: a missing property reads as `undefined`. */
  function Get(t: Tree, k: string): Value {
    if k in t then t[k] else Undefined
  }

  /** The decimal digits of a natural number. */
  function NatToDecimal(n: nat): (s: string)
    ensures |s| >= 1
    ensures forall i :: 0 <= i < |s| ==> '0' <= s[i] <= '9'
  {
    if n < 10 then [('0' as int + n) as char]
    else NatToDecimal(n / 10) + [('0' as int + n % 10) as char]
  }

  /** Distinct natural numbers have distinct decimal forms, so number keys do not collide. */
  lemma {:induction false} NatToDecimalInjective(a: nat, b: nat)
    requires NatToDecimal(a) == NatToDecimal(b)
    ensures a == b
    decreases a
  {
    var sa, sb := NatToDecimal(a), NatToDecimal(b);
    if a >= 10 && b >= 10 {
      var ha, hb := NatToDecimal(a / 10), NatToDecimal(b / 10);
      assert sa[..|sa| - 1] == ha && sb[..|sb| - 1] == hb;
      assert sa[|sa| - 1] == sb[|sb| - 1];
      NatToDecimalInjective(a / 10, b / 10);
    }
  }

  /** Distinct indices have distinct property names. */
  lemma NatToDecimalOneToOne()
    ensures forall a: nat, b: nat :: NatToDecimal(a) == NatToDecimal(b) ==> a == b
  {
    forall a: nat, b: nat | NatToDecimal(a) == NatToDecimal(b) ensures a == b {
      NatToDecimalInjective(a, b);
    }
  }

  /** The index properties of a string: `"0"`, `"1"`, ... each holding one character. */
  function StringProps(s: string): Tree {
    NatToDecimalOneToOne();
    map i | 0 <= i < |s| :: NatToDecimal(i) := Str([s[i]])
  }

  /** The own enumerable properties of a value, as `{...v}` copies them and as
      `v[k]` reads them: an object's properties, a string's index properties, and
      none for any other value. */
  function Props(v: Value): Tree {
    match v
    case Obj(p) => p
    case Str(s) => StringProps(s)
    case _ => map[]
  }

  /** A string slot reads, under the decimal form of each index, the character there,
      and has no other own enumerable property. */
  lemma StringSlotProps(s: string)
    ensures forall i :: 0 <= i < |s| ==> Get(Props(Str(s)), NatToDecimal(i)) == Str([s[i]])
    ensures forall k :: k in Props(Str(s)) ==> exists i :: 0 <= i < |s| && k == NatToDecimal(i)
  {
    NatToDecimalOneToOne();
    var m := Props(Str(s));
    forall i | 0 <= i < |s| ensures NatToDecimal(i) in m && m[NatToDecimal(i)] == Str([s[i]]) {
    }
  }

  /** `t[g][c]`, reading `undefined` where there is nothing. */
  function Child(t: Tree, g: string, c: string): Value {
    Get(Props(Get(t, g)), c)
  }

  // ----- getInitialValues -----

  /** `field.defaultValue || ''` */
  function DefaultOf(f: Field): Value {
    Str(if f.defaultValue.Some? then f.defaultValue.value else "")
  }

  /** The value a field or group node is initialised to. */
  function NodeDefault(n: Node): Value
    requires !n.SectionN?
  {
    match n
    case FieldN(f) => DefaultOf(f)
    case GroupN(g) => Obj(GroupDefaults(g.fields, map[]))
  }

  /** A group's object: each child's default under its name, in order. */
  function GroupDefaults(fs: seq<Field>, m: Tree): Tree {
    if fs == [] then m else GroupDefaults(fs[1..], m[fs[0].name := DefaultOf(fs[0])])
  }

  function InitNodes(ns: seq<Node>, t: Tree): Tree
    decreases ns
  {
    if ns == [] then t else InitNodes(ns[1..], InitNode(ns[0], t))
  }

  function InitNode(n: Node, t: Tree): Tree
    decreases n
  {
    match n
    case FieldN(f) => t[f.name := DefaultOf(f)]
    case GroupN(g) => t[g.name := Obj(GroupDefaults(g.fields, map[]))]
    case SectionN(_, _, ch) => InitNodes(ch, t)
  }

  function InitStages(stages: seq<Stage>, t: Tree): Tree {
    if stages == [] then t else InitStages(stages[1..], InitNodes(stages[0].fields, t))
  }

  /** The initial value tree of a form's stages. */
  function InitialValues(stages: seq<Stage>): Tree {
    InitStages(stages, map[])
  }

  /** The fields and groups of every stage, sections flattened, in document order. */
  function RootNodes(stages: seq<Stage>): (r: seq<Node>)
    ensures forall n :: n in r ==> !n.SectionN?
  {
    if stages == [] then [] else Flat(stages[0].fields) + RootNodes(stages[1..])
  }

  /** The names of a node list. */
  function Names(ns: seq<Node>): set<string> {
    if ns == [] then {} else {Name(ns[0])} + Names(ns[1..])
  }

  lemma {:induction false} NamesMember(ns: seq<Node>, k: string)
    ensures k in Names(ns) <==> exists j :: 0 <= j < |ns| && Name(ns[j]) == k
  {
    if ns != [] {
      NamesMember(ns[1..], k);
      if k in Names(ns[1..]) {
        var j :| 0 <= j < |ns[1..]| && Name(ns[1..][j]) == k;
        assert Name(ns[j + 1]) == k;
      }
      if exists j :: 0 <= j < |ns| && Name(ns[j]) == k {
        var j :| 0 <= j < |ns| && Name(ns[j]) == k;
        if j > 0 { assert Name(ns[1..][j - 1]) == k; }
      }
    }
  }

  /** With distinct names, no node's name reappears later in the list. */
  lemma DistinctNamesLast(ns: seq<Node>, i: int)
    requires DistinctNames(ns) && 0 <= i < |ns|
    ensures Name(ns[i]) !in Names(ns[i + 1..])
  {
    var tail := ns[i + 1..];
    forall j | 0 <= j < |tail| ensures Name(tail[j]) != Name(ns[i]) {
      assert tail[j] == ns[i + 1 + j];
    }
    NamesMember(tail, Name(ns[i]));
  }

  lemma {:induction false} InitNodesAppend(a: seq<Node>, b: seq<Node>, t: Tree)
    ensures InitNodes(a + b, t) == InitNodes(b, InitNodes(a, t))
  {
    if a == [] {
      assert a + b == b;
    } else {
      assert (a + b)[0] == a[0];
      assert (a + b)[1..] == a[1..] + b;
      InitNodesAppend(a[1..], b, InitNode(a[0], t));
    }
  }

  /** Sections add no level: initialising a node list is initialising its flattening. */
  lemma {:induction false} InitNodesFlat(ns: seq<Node>, t: Tree)
    ensures InitNodes(ns, t) == InitNodes(Flat(ns), t)
    decreases ns
  {
    if ns != [] {
      InitNodeFlat(ns[0], t);
      InitNodesFlat(ns[1..], InitNode(ns[0], t));
      InitNodesAppend(FlatOne(ns[0]), Flat(ns[1..]), t);
    }
  }

  lemma {:induction false} InitNodeFlat(n: Node, t: Tree)
    ensures InitNode(n, t) == InitNodes(FlatOne(n), t)
    decreases n
  {
    match n
    case SectionN(_, _, ch) => InitNodesFlat(ch, t);
    case FieldN(_) =>
    case GroupN(_) =>
  }

  lemma {:induction false} InitStagesRoot(stages: seq<Stage>, t: Tree)
    ensures InitStages(stages, t) == InitNodes(RootNodes(stages), t)
  {
    if stages != [] {
      InitNodesFlat(stages[0].fields, t);
      InitStagesRoot(stages[1..], InitNodes(stages[0].fields, t));
      InitNodesAppend(Flat(stages[0].fields), RootNodes(stages[1..]), t);
    }
  }

  /** On a section-free list, initialisation adds exactly the nodes' names ... */
  lemma {:induction false} InitFlatKeys(ns: seq<Node>, t: Tree)
    requires forall n :: n in ns ==> !n.SectionN?
    ensures InitNodes(ns, t).Keys == t.Keys + Names(ns)
  {
    if ns != [] {
      assert ns[0] in ns;
      assert forall n :: n in ns[1..] ==> n in ns;
      InitFlatKeys(ns[1..], InitNode(ns[0], t));
    }
  }

  /** ... keeps every other key ... */
  lemma {:induction false} InitFlatKeeps(ns: seq<Node>, t: Tree, k: string)
    requires forall n :: n in ns ==> !n.SectionN?
    requires k in t && k !in Names(ns)
    ensures k in InitNodes(ns, t) && InitNodes(ns, t)[k] == t[k]
  {
    if ns != [] {
      assert ns[0] in ns;
      assert forall n :: n in ns[1..] ==> n in ns;
      InitFlatKeeps(ns[1..], InitNode(ns[0], t), k);
    }
  }

  /** ... and holds, under each name, the default of the last node carrying it. */
  lemma {:induction false} InitFlatLast(ns: seq<Node>, t: Tree, i: int)
    requires forall n :: n in ns ==> !n.SectionN?
    requires 0 <= i < |ns| && Name(ns[i]) !in Names(ns[i + 1..])
    ensures Name(ns[i]) in InitNodes(ns, t) && InitNodes(ns, t)[Name(ns[i])] == NodeDefault(ns[i])
  {
    assert ns[0] in ns;
    assert forall n :: n in ns[1..] ==> n in ns;
    var t1 := InitNode(ns[0], t);
    if i == 0 {
      InitFlatKeeps(ns[1..], t1, Name(ns[0]));
    } else {
      assert ns[1..][i - 1] == ns[i] && ns[1..][i..] == ns[i + 1..];
      InitFlatLast(ns[1..], t1, i - 1);
    }
  }

  /** The names of a group's children. */
  function FieldNames(fs: seq<Field>): set<string> {
    if fs == [] then {} else {fs[0].name} + FieldNames(fs[1..])
  }

  /** A group's object holds exactly its children's names ... */
  lemma {:induction false} GroupDefaultsKeys(fs: seq<Field>, m: Tree)
    ensures GroupDefaults(fs, m).Keys == m.Keys + FieldNames(fs)
  {
    if fs != [] {
      GroupDefaultsKeys(fs[1..], m[fs[0].name := DefaultOf(fs[0])]);
    }
  }

  lemma {:induction false} GroupDefaultsKeeps(fs: seq<Field>, m: Tree, k: string)
    requires k in m && k !in FieldNames(fs)
    ensures k in GroupDefaults(fs, m) && GroupDefaults(fs, m)[k] == m[k]
  {
    if fs != [] {
      GroupDefaultsKeeps(fs[1..], m[fs[0].name := DefaultOf(fs[0])], k);
    }
  }

  /** ... and, with distinct names, each child holds `defaultValue || ''`. */
  lemma {:induction false} GroupDefaultsAt(fs: seq<Field>, m: Tree, i: int)
    requires DistinctFieldNames(fs) && 0 <= i < |fs|
    ensures fs[i].name in GroupDefaults(fs, m) && GroupDefaults(fs, m)[fs[i].name] == DefaultOf(fs[i])
  {
    var m1 := m[fs[0].name := DefaultOf(fs[0])];
    assert DistinctFieldNames(fs[1..]) by {
      forall a, b | 0 <= a < b < |fs[1..]| ensures fs[1..][a].name != fs[1..][b].name {
        assert fs[1..][a] == fs[a + 1] && fs[1..][b] == fs[b + 1];
      }
    }
    if i == 0 {
      FieldNamesDistinct(fs);
      GroupDefaultsKeeps(fs[1..], m1, fs[0].name);
    } else {
      assert fs[1..][i - 1] == fs[i];
      GroupDefaultsAt(fs[1..], m1, i - 1);
    }
  }

  lemma {:induction false} FieldNamesMember(fs: seq<Field>, k: string)
    ensures k in FieldNames(fs) ==> exists j :: 0 <= j < |fs| && fs[j].name == k
  {
    if fs != [] && k in FieldNames(fs[1..]) {
      FieldNamesMember(fs[1..], k);
      var j :| 0 <= j < |fs[1..]| && fs[1..][j].name == k;
      assert fs[j + 1].name == k;
    }
  }

  lemma FieldNamesDistinct(fs: seq<Field>)
    requires DistinctFieldNames(fs) && fs != []
    ensures fs[0].name !in FieldNames(fs[1..])
  {
    forall j | 0 <= j < |fs[1..]| ensures fs[1..][j].name != fs[0].name {
      assert fs[j + 1] == fs[1..][j];
    }
    FieldNamesMember(fs[1..], fs[0].name);
  }

  /** What `getInitialValues` promises: the tree has exactly one key per field or
      group of every stage (sections contribute their children, not themselves); when
      those names are distinct, a field holds `defaultValue || ''` and a group holds
      the object of its children's defaults. */
  lemma InitialValuesSpec(stages: seq<Stage>)
    ensures InitialValues(stages).Keys == Names(RootNodes(stages))
    ensures DistinctNames(RootNodes(stages)) ==>
      forall n :: n in RootNodes(stages) ==>
        Name(n) in InitialValues(stages) && InitialValues(stages)[Name(n)] == NodeDefault(n)
  {
    var rs := RootNodes(stages);
    InitStagesRoot(stages, map[]);
    InitFlatKeys(rs, map[]);
    if DistinctNames(rs) {
      forall n | n in rs ensures Name(n) in InitialValues(stages) && InitialValues(stages)[Name(n)] == NodeDefault(n) {
        var i :| 0 <= i < |rs| && rs[i] == n;
        DistinctNamesLast(rs, i);
        InitFlatLast(rs, map[], i);
      }
    }
  }

  /** A group's initial object: exactly its children's names, each holding
      `defaultValue || ''` when the names are distinct. */
  lemma GroupInitialObject(g: Group)
    ensures GroupDefaults(g.fields, map[]).Keys == FieldNames(g.fields)
    ensures DistinctFieldNames(g.fields) ==>
      forall i :: 0 <= i < |g.fields| ==>
        g.fields[i].name in GroupDefaults(g.fields, map[]) && GroupDefaults(g.fields, map[])[g.fields[i].name] == DefaultOf(g.fields[i])
  {
    GroupDefaultsKeys(g.fields, map[]);
    if DistinctFieldNames(g.fields) {
      forall i | 0 <= i < |g.fields|
        ensures g.fields[i].name in GroupDefaults(g.fields, map[]) && GroupDefaults(g.fields, map[])[g.fields[i].name] == DefaultOf(g.fields[i])
      {
        GroupDefaultsAt(g.fields, map[], i);
      }
    }
  }

  /** The source's nested `forEach` over a stage's nodes, writing into `parent`
      (which stays the root object: sections pass it through, groups hold only fields). */
  method ProcessFields(fields: seq<Node>, parent: Tree) returns (out: Tree)
    ensures out == InitNodes(fields, parent)
    decreases fields
  {
    out := parent;
    var i := 0;
    while i < |fields|
      invariant 0 <= i <= |fields|
      invariant InitNodes(fields, parent) == InitNodes(fields[i..], out)
    {
      var field := fields[i];
      assert fields[i..][0] == field && fields[i..][1..] == fields[i + 1..];
      match field {
        case SectionN(_, _, ch) =>
        out := ProcessFields(ch, out);
      case GroupN(g) =>
        var obj: Tree := map[];
        var j := 0;
        while j < |g.fields|
          invariant 0 <= j <= |g.fields|
          invariant GroupDefaults(g.fields, map[]) == GroupDefaults(g.fields[j..], obj)
        {
          assert g.fields[j..][0] == g.fields[j] && g.fields[j..][1..] == g.fields[j + 1..];
          obj := obj[g.fields[j].name := DefaultOf(g.fields[j])];
          j := j + 1;
        }
        out := out[g.name := Obj(obj)];
        case FieldN(f) =>
          out := out[f.name := DefaultOf(f)];
      }
      i := i + 1;
    }
  }

  /** `getInitialValues(form)`: process every stage into one root object. */
  method GetInitialValues(form: seq<Stage>) returns (values: Tree)
    ensures values == InitialValues(form)
    ensures values.Keys == Names(RootNodes(form))
  {
    values := map[];
    var i := 0;
    while i < |form|
      invariant 0 <= i <= |form|
      invariant InitialValues(form) == InitStages(form[i..], values)
    {
      assert form[i..][0] == form[i] && form[i..][1..] == form[i + 1..];
      values := ProcessFields(form[i].fields, values);
      i := i + 1;
    }
    InitialValuesSpec(form);
  }

  // ----- handleChange: the single-slot path update -----

  /** `handleChange(name, value)` before the computed-field pass: a dotted name
      `"g.s"` replaces `values[g]` by a copy of it with `s` set; a bare name sets
      that key. Only the first two dot-separated segments are used. */
  function ApplyChange(values: Tree, name: string, v: Value): Tree {
    if '.' in name then
      var parts := Split(name, '.');
      values[parts[0] := Obj(Props(Get(values, parts[0]))[parts[1] := v])]
    else
      values[name := v]
  }

  /** A dotted edit touches one slot: `values[g][s]` becomes the new value, every
      sibling under `g` reads as before, and every other top-level key is unchanged. */
  lemma DottedChangeTouchesOneSlot(values: Tree, name: string, v: Value)
    requires '.' in name
    ensures var parts := Split(name, '.');
      var g, s, r := parts[0], parts[1], ApplyChange(values, name, v);
      && r.Keys == values.Keys + {g}
      && r[g].Obj?
      && Child(r, g, s) == v
      && (forall c :: c != s ==> Child(r, g, c) == Child(values, g, c))
      && (forall k :: k in values && k != g ==> r[k] == values[k])
  {
  }

  /** A dotted edit of a group slot that holds a string spreads the string's
      characters into the new object under their indices, beside the new value. */
  lemma DottedChangeOnString(values: Tree, name: string, v: Value, s: string, i: int)
    requires '.' in name && Get(values, Split(name, '.')[0]) == Str(s)
    requires 0 <= i < |s| && NatToDecimal(i) != Split(name, '.')[1]
    ensures Child(ApplyChange(values, name, v), Split(name, '.')[0], NatToDecimal(i)) == Str([s[i]])
  {
    DottedChangeTouchesOneSlot(values, name, v);
    StringSlotProps(s);
  }

  /** A bare-name edit sets that key and leaves every other key as it was. */
  lemma BareChangeTouchesOneKey(values: Tree, name: string, v: Value)
    requires '.' !in name
    ensures var r := ApplyChange(values, name, v);
      && r.Keys == values.Keys + {name}
      && r[name] == v
      && (forall k :: k in values && k != name ==> r[k] == values[k])
  {
  }
}
