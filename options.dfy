/** The option list `renderField` (DynamicQuoteForm.tsx) gives a select: a static list
    as it is, or, for a map of lists, the entry keyed by a controlling field's current
    value. The controlling field is `optionsDependentOn`: a dotted `"g.s"` is read from
    the root, a bare name inside the enclosing group when there is one, otherwise
    from the root. */
module DependentOptions {
  import opened Common
  import opened Text
  import opened Schema
  import opened ValueTree

  /** The property name a value stands for when used as `obj[value]`. */
  function PropertyKey(v: Value): string {
    match v
    case Str(s) => s
    case Num(n) => if n < 0 then "-" + NatToDecimal(-n) else NatToDecimal(n)
    case Bool(b) => if b then "true" else "false"
    case Obj(_) => "[object Object]"
    case Undefined => "undefined"
    case Null => "null"
  }

  /** `x ? x : ''` */
  function OrEmpty(v: Value): Value {
    if Truthy(v) then v else Str("")
  }

  /** The controlling value `depValue`; `''` when there is none. */
  function ControllingValue(f: Field, parentName: Option<string>, all: Tree): (d: Value)
    ensures f.optionsDependentOn.None? ==> d == Str("")
    ensures d == Str("") || Truthy(d)
  {
    if f.optionsDependentOn.None? || f.optionsDependentOn.value == "" then Str("")
    else
      var dep := f.optionsDependentOn.value;
      if '.' in dep then
        var parts := Split(dep, '.');
        OrEmpty(Child(all, parts[0], parts[1]))
      else if parentName.Some? && parentName.value != "" then
        OrEmpty(Child(all, parentName.value, dep))
      else
        OrEmpty(Get(all, dep))
  }

  /** The options the select offers. */
  function ResolveOptions(f: Field, parentName: Option<string>, all: Tree): (opts: seq<string>)
    ensures f.options.StaticOptions? ==> opts == f.options.list
    ensures f.options.NoOptions? ==> opts == []
    ensures f.options.DependentOptions? ==>
      var d := ControllingValue(f, parentName, all);
      && (!Truthy(d) ==> opts == [])
      && (Truthy(d) && PropertyKey(d) !in f.options.table ==> opts == [])
      && (Truthy(d) && PropertyKey(d) in f.options.table ==> opts == f.options.table[PropertyKey(d)])
  {
    match f.options
    case NoOptions => []
    case StaticOptions(list) => list
    case DependentOptions(table) =>
      var d := ControllingValue(f, parentName, all);
      if Truthy(d) && PropertyKey(d) in table then table[PropertyKey(d)] else []
  }

  /** The end-to-end dependent select: after the controlling top-level field is set
      to a string, a top-level dependent select offers exactly that string's entry;
      the empty string, or a string with no entry, offers nothing. */
  lemma CountryDrivesState(values: Tree, country: string, state: Field, choice: string)
    requires '.' !in country && country != ""
    requires state.options.DependentOptions? && state.optionsDependentOn == Some(country)
    ensures var after := ApplyChange(values, country, Str(choice));
      && (choice != "" && choice in state.options.table ==>
            ResolveOptions(state, None, after) == state.options.table[choice])
      && (choice == "" || choice !in state.options.table ==> ResolveOptions(state, None, after) == [])
  {
    var after := ApplyChange(values, country, Str(choice));
    assert Get(after, country) == Str(choice);
  }

  /** Inside a group, a bare controlling name is read from the same group's value,
      while a dotted one is read from the root whatever the enclosing group. */
  lemma GroupScopedDependency(f: Field, g: string, all: Tree)
    requires f.optionsDependentOn.Some? && f.optionsDependentOn.value != "" && g != ""
    ensures '.' !in f.optionsDependentOn.value ==>
      ControllingValue(f, Some(g), all) == OrEmpty(Child(all, g, f.optionsDependentOn.value))
    ensures '.' in f.optionsDependentOn.value ==>
      ControllingValue(f, Some(g), all) == ControllingValue(f, None, all)
  {
  }

  /** A dotted controlling path reads the slot a dotted edit of the same path writes. */
  lemma DottedDependencyFollowsEdit(values: Tree, path: string, f: Field, choice: string)
    requires '.' in path && choice != ""
    requires f.options.DependentOptions? && f.optionsDependentOn == Some(path)
    ensures forall parent :: (ResolveOptions(f, parent, ApplyChange(values, path, Str(choice))) ==
      (if choice in f.options.table then f.options.table[choice] else []))
  {
    var after := ApplyChange(values, path, Str(choice));
    var parts := Split(path, '.');
    DottedChangeTouchesOneSlot(values, path, Str(choice));
    assert Child(after, parts[0], parts[1]) == Str(choice);
  }
}
