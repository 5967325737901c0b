/**
 * The schema the faker page keeps for each faker function
 * (`src/lib/faker-factory.js`), and the overrides that adjust a schema
 * before it is registered.
 *
 * The schema's `action`, `call`, `description` and `samples` members are
 * closures over the faker library and are not modelled; the schema keeps the
 * function's arity (`size`) and the `<option>` element that offers it.
 */
module FakerSchema {
  import opened Wrappers
  import opened Text

  /** The `type` given to `createArgument`: the `String` or the `Number` constructor. */
  datatype ArgType = StringArg | NumberArg

  /** `createArgument(label, type)`: the text shown beside the input and how the input is converted. */
  datatype Argument = Argument(text: string, argType: ArgType)

  /** An `<option>` element: its text (what the user reads) and its value (the faker key). */
  datatype OptionEl = OptionEl(text: string, value: string)

  /** The menu the options live in: options and labelled option groups. */
  datatype OptionNode = Item(option: OptionEl) | Group(heading: string, children: seq<OptionNode>)

  /** The option elements offered anywhere in a list of menu nodes. */
  function Options(nodes: seq<OptionNode>): set<OptionEl> {
    if nodes == [] then {}
    else
      (match nodes[0]
       case Item(o) => {o}
       case Group(_, children) => Options(children)) + Options(nodes[1..])
  }

  /** The option values offered anywhere in a list of menu nodes. */
  function OptionValues(nodes: seq<OptionNode>): set<string> {
    set o | o in Options(nodes) :: o.value
  }

  lemma {:induction false} OptionsAppend(a: seq<OptionNode>, b: seq<OptionNode>)
    ensures Options(a + b) == Options(a) + Options(b)
    decreases |a|
  {
    if a != [] {
      var ab := a + b;
      assert ab[0] == a[0] && ab[1..] == a[1..] + b;
      OptionsAppend(a[1..], b);
      var head := match a[0] case Item(o) => {o} case Group(_, children) => Options(children);
      assert Options(ab) == head + Options(ab[1..]);
      assert Options(a) == head + Options(a[1..]);
    } else {
      assert a + b == b;
    }
  }

  /** A lone option offers exactly itself. */
  lemma OptionsItem(o: OptionEl)
    ensures Options([Item(o)]) == {o}
  {
    assert [Item(o)][1..] == [];
  }

  /** A group offers exactly what its children offer. */
  lemma OptionsGroup(heading: string, children: seq<OptionNode>)
    ensures Options([Group(heading, children)]) == Options(children)
  {
    assert [Group(heading, children)][1..] == [];
  }

  /** A registered faker function. */
  datatype Schema = Schema(name: string, size: nat, arguments: seq<Argument>, ref: string, option: OptionEl)

  const RefBase := "https://github.com/Marak/faker.js/tree/master/lib/"

  /**
   * `${group.label}` in the schema's `ref`: the label of the enclosing option
   * group; the root fragment has no label and interpolates as `undefined`.
   */
  function GroupText(group: Option<string>): string {
    match group
    case None => "undefined"
    case Some(heading) => heading
  }

  /** The schema built for the function at `key` before any override: named and offered by its last segment. */
  function DefaultSchema(key: string, arity: nat, group: Option<string>): (s: Schema)
    ensures '.' !in s.name
    ensures s.name == key || (|s.name| < |key| && key[|key| - |s.name| - 1] == '.' && key[|key| - |s.name|..] == s.name)
    ensures s.option.text == s.name && s.option.value == key
    ensures s.size == arity && s.arguments == [] && s.ref == RefBase + GroupText(group) + ".js"
  {
    var short := LastSegment(key, '.');
    Schema(short, arity, [], RefBase + GroupText(group) + ".js", OptionEl(short, key))
  }

  /** An object override: the properties `Object.assign` copies onto the schema; `None` is an absent property. */
  datatype Patch = Patch(name: Option<string>, size: Option<nat>, arguments: Option<seq<Argument>>, ref: Option<string>)

  /** The override `{}`. */
  const NoChange := Patch(None, None, None, None)

  /** The function overrides of the table: `excludeFakerFn` and the `mersenne.seed` transform. */
  datatype SchemaTransform = ExcludeFakerFn | SeedArgument

  /** An entry of `argumentMapOverrides`: an object to assign, or a function to call on the schema. */
  datatype Override = Assign(patch: Patch) | Transform(transform: SchemaTransform)

  /**
   * `Object.assign(schema, patch)`, then, when the patch's `name` is truthy
   * (a non-empty string), the `label` setter renames the option.
   */
  function ApplyPatch(s: Schema, p: Patch): (r: Schema)
    ensures p == NoChange ==> r == s
    ensures r.name == (if p.name.Some? then p.name.value else s.name)
    ensures r.size == (if p.size.Some? then p.size.value else s.size)
    ensures r.arguments == (if p.arguments.Some? then p.arguments.value else s.arguments)
    ensures r.ref == (if p.ref.Some? then p.ref.value else s.ref)
    ensures r.option.value == s.option.value
    ensures r.option.text == (if p.name.Some? && p.name.value != "" then p.name.value else s.option.text)
  {
    var copied := Schema(
      if p.name.Some? then p.name.value else s.name,
      if p.size.Some? then p.size.value else s.size,
      if p.arguments.Some? then p.arguments.value else s.arguments,
      if p.ref.Some? then p.ref.value else s.ref,
      s.option);
    match p.name
    case Some(n) => if n != "" then copied.(option := s.option.(text := n)) else copied
    case None => copied
  }

  /**
   * Calling a function override. `excludeFakerFn` returns `null`; the seed
   * transform relabels the option `Seed` and appends a numeric `Seed Value`
   * argument, keeping the schema's `name`.
   */
  function ApplyTransform(t: SchemaTransform, s: Schema): (r: Option<Schema>)
    ensures r.None? <==> t == ExcludeFakerFn
    ensures r.Some? ==> && r.value.name == s.name && r.value.size == s.size && r.value.ref == s.ref
                        && r.value.option == OptionEl("Seed", s.option.value)
                        && r.value.arguments == s.arguments + [Argument("Seed Value", NumberArg)]
  {
    match t
    case ExcludeFakerFn => None
    case SeedArgument =>
      Some(s.(option := s.option.(text := "Seed"), arguments := s.arguments + [Argument("Seed Value", NumberArg)]))
  }

  /** The key's override is `excludeFakerFn`. */
  predicate Excluded(overrides: map<string, Override>, key: string) {
    key in overrides && overrides[key] == Transform(ExcludeFakerFn)
  }

  /**
   * The override step of `parseKey`: a key without an entry keeps its schema;
   * `None` is the falsy result that keeps the key out of the catalog.
   */
  function ApplyOverride(overrides: map<string, Override>, key: string, s: Schema): (r: Option<Schema>)
    ensures r.None? <==> Excluded(overrides, key)
    ensures key !in overrides ==> r == Some(s)
    ensures key in overrides && overrides[key].Assign? ==> r == Some(ApplyPatch(s, overrides[key].patch))
    ensures r.Some? ==> r.value.option.value == s.option.value
  {
    if key !in overrides then Some(s)
    else
      match overrides[key]
      case Assign(p) => Some(ApplyPatch(s, p))
      case Transform(t) => ApplyTransform(t, s)
  }
}
