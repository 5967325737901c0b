/** What the faker catalog promises, stated over every library and override table. */
module FakerProperties {
  import opened Wrappers
  import opened Text
  import opened FakerSchema
  import opened MethodMap
  import opened FakerOverrides
  import opened FakerFactory

  /** `k` is `key` itself or a key below it: `key`, a `.`, then more. */
  predicate Under(k: string, key: string) {
    k == key || (|key| < |k| && k[..|key|] == key && k[|key|] == '.')
  }

  /**
   * A registered key has a `.`, is not excluded, and lies under the key of the
   * node that registers it; its schema is the override table's result for
   * the default schema of some function at that key.
   */
  lemma {:induction false} RegisteredShape(overrides: map<string, Override>, key: string, node: Node,
                                           group: Option<string>, k: string, s: Schema)
    requires Registers(overrides, key, node, group, k, s)
    ensures '.' in k && !Excluded(overrides, k) && StartsWith(k, key) && Under(k, key)
    ensures SchemaOrigin(overrides, k, s)
    decreases node
  {
    match node
    case Fn(arity) =>
      assert ApplyOverride(overrides, k, DefaultSchema(k, arity, group)) == Some(s);
    case Obj(es) =>
      var i :| 0 <= i < |es| && Registers(overrides, key + "." + es[i].0, es[i].1, Some(Capitalize(key)), k, s);
      var child := key + "." + es[i].0;
      RegisteredShape(overrides, child, es[i].1, Some(Capitalize(key)), k, s);
      UnderParent(k, key, es[i].0);
  }

  /** A key under `key.name` is under `key` too. */
  lemma UnderParent(k: string, key: string, name: string)
    requires Under(k, key + "." + name)
    ensures StartsWith(k, key) && Under(k, key)
  {
    var child := key + "." + name;
    assert k[..|child|] == child;
    assert k[..|key|] == child[..|key|] == key;
    assert k[|key|] == child[|key|] == '.';
  }

  /**
   * Every key of the catalog has two or more segments, is not excluded, and
   * starts with the name of a kept root property.
   */
  lemma CatalogKeyShape(overrides: map<string, Override>, faker: seq<Entry>, k: string)
    requires k in CatalogKeys(BuildCatalog(overrides, faker))
    ensures |Split(k, '.')| >= 2
    ensures !Excluded(overrides, k)
    ensures exists i :: 0 <= i < |faker| && KeepRoot(faker[i].0) && StartsWith(k, faker[i].0)
  {
    var c := BuildCatalog(overrides, faker);
    var s := Get(c.methods, k).value;
    var i :| 0 <= i < |faker| && KeepRoot(faker[i].0) && Registers(overrides, faker[i].0, faker[i].1, None, k, s);
    RegisteredShape(overrides, faker[i].0, faker[i].1, None, k, s);
  }

  /** Property names hold no `.` and no object repeats a name, so that every dotted key names one path. */
  predicate PlainNames(es: seq<Entry>) {
    && (forall i :: 0 <= i < |es| ==> '.' !in es[i].0)
    && (forall i, j :: 0 <= i < j < |es| ==> es[i].0 != es[j].0)
  }

  /** A node whose objects, at every depth, have plain property names. */
  predicate PlainNode(node: Node)
    decreases node
  {
    match node
    case Obj(es) => PlainNames(es) && forall i :: 0 <= i < |es| ==> PlainNode(es[i].1)
    case _ => true
  }

  /** Two sibling names without a `.` under which the same key lies are the same name. */
  lemma SiblingsDisjoint(p: string, x: string, y: string, k: string)
    requires '.' !in x && '.' !in y
    requires Under(k, p + x) && Under(k, p + y)
    ensures x == y
  {
    if |x| <= |y| {
      ShorterSibling(p, x, y, k);
    } else {
      ShorterSibling(p, y, x, k);
    }
  }

  lemma ShorterSibling(p: string, x: string, y: string, k: string)
    requires '.' !in y && |x| <= |y|
    requires Under(k, p + x) && Under(k, p + y)
    ensures x == y
  {
    var n := |p|;
    assert k[..n + |y|] == p + y;
    assert k[..n + |x|] == p + x;
    forall i | 0 <= i < |x| ensures x[i] == y[i] {
      assert x[i] == (p + x)[n + i] == k[n + i] == (p + y)[n + i];
    }
  }

  /** In a plain node, a key is registered with one schema at most. */
  lemma {:induction false} RegistersUnique(overrides: map<string, Override>, key: string, node: Node,
                                           group: Option<string>, k: string, s1: Schema, s2: Schema)
    requires PlainNode(node)
    requires Registers(overrides, key, node, group, k, s1) && Registers(overrides, key, node, group, k, s2)
    ensures s1 == s2
    decreases node
  {
    match node
    case Fn(_) =>
    case Obj(es) =>
      var g := Some(Capitalize(key));
      var i :| 0 <= i < |es| && Registers(overrides, key + "." + es[i].0, es[i].1, g, k, s1);
      var j :| 0 <= j < |es| && Registers(overrides, key + "." + es[j].0, es[j].1, g, k, s2);
      RegisteredShape(overrides, key + "." + es[i].0, es[i].1, g, k, s1);
      RegisteredShape(overrides, key + "." + es[j].0, es[j].1, g, k, s2);
      SiblingsDisjoint(key + ".", es[i].0, es[j].0, k);
      assert i == j;
      RegistersUnique(overrides, key + "." + es[i].0, es[i].1, g, k, s1, s2);
  }

  /** In a plain library, a key is registered with one schema at most. */
  lemma LibraryRegistersUnique(overrides: map<string, Override>, faker: seq<Entry>, k: string, s1: Schema, s2: Schema)
    requires PlainNode(Obj(faker))
    requires LibraryRegisters(overrides, faker, k, s1) && LibraryRegisters(overrides, faker, k, s2)
    ensures s1 == s2
  {
    var i :| 0 <= i < |faker| && KeepRoot(faker[i].0) && Registers(overrides, faker[i].0, faker[i].1, None, k, s1);
    var j :| 0 <= j < |faker| && KeepRoot(faker[j].0) && Registers(overrides, faker[j].0, faker[j].1, None, k, s2);
    var x, y := faker[i].0, faker[j].0;
    RegisteredShape(overrides, x, faker[i].1, None, k, s1);
    RegisteredShape(overrides, y, faker[j].1, None, k, s2);
    assert "" + x == x && "" + y == y;
    SiblingsDisjoint("", x, y, k);
    SameNameSameEntry(faker, i, j);
    RegistersUnique(overrides, x, faker[i].1, None, k, s1, s2);
  }

  /** In a plain object, two properties with the same name are the same property. */
  lemma SameNameSameEntry(es: seq<Entry>, i: nat, j: nat)
    requires PlainNames(es) && i < |es| && j < |es| && es[i].0 == es[j].0
    ensures i == j
  {
  }

  /** In a plain library, the catalog maps each key to exactly the schema the library registers for it. */
  lemma CatalogSchemas(overrides: map<string, Override>, faker: seq<Entry>, k: string, s: Schema)
    requires PlainNode(Obj(faker))
    ensures Get(BuildCatalog(overrides, faker).methods, k) == Some(s) <==> LibraryRegisters(overrides, faker, k, s)
  {
    var c := BuildCatalog(overrides, faker);
    if LibraryRegisters(overrides, faker, k, s) {
      assert k in Keys(c.methods);
      LibraryRegistersUnique(overrides, faker, k, s, Get(c.methods, k).value);
    }
  }

  /**
   * A function property `name` of a kept root object `root`, in a plain
   * library: the catalog's entry for `root.name` is what the table makes of
   * the default schema sized by the function's arity and referring to the
   * group labelled with the capitalised root name; without an override the
   * entry is that default schema.
   */
  lemma GroupedFunctionSchema(overrides: map<string, Override>, faker: seq<Entry>, i: int, j: int)
    requires PlainNode(Obj(faker))
    requires 0 <= i < |faker| && KeepRoot(faker[i].0) && faker[i].1.Obj?
    requires 0 <= j < |faker[i].1.entries| && faker[i].1.entries[j].1.Fn?
    ensures var key := faker[i].0 + "." + faker[i].1.entries[j].0;
      var d := DefaultSchema(key, faker[i].1.entries[j].1.arity, Some(Capitalize(faker[i].0)));
      && Get(BuildCatalog(overrides, faker).methods, key) == ApplyOverride(overrides, key, d)
      && (key !in overrides ==>
            Get(BuildCatalog(overrides, faker).methods, key) == Some(d)
            && d.size == faker[i].1.entries[j].1.arity
            && d.ref == RefBase + Capitalize(faker[i].0) + ".js")
  {
    var root := faker[i].0;
    var e := faker[i].1.entries[j];
    var key := root + "." + e.0;
    var d := DefaultSchema(key, e.1.arity, Some(Capitalize(root)));
    assert key[|root|] == '.';
    match ApplyOverride(overrides, key, d)
    case None =>
      ExcludedKeyAbsent(overrides, faker, key);
    case Some(s) =>
      assert Registers(overrides, key, e.1, Some(Capitalize(root)), key, s);
      assert Registers(overrides, root, faker[i].1, None, key, s);
      CatalogSchemas(overrides, faker, key, s);
  }

  /** An excluded key is neither in the catalog nor offered in the menu. */
  lemma ExcludedKeyAbsent(overrides: map<string, Override>, faker: seq<Entry>, k: string)
    requires Excluded(overrides, k)
    ensures k !in CatalogKeys(BuildCatalog(overrides, faker))
    ensures k !in OptionValues(BuildCatalog(overrides, faker).options)
  {
    if k in CatalogKeys(BuildCatalog(overrides, faker)) {
      CatalogKeyShape(overrides, faker, k);
    }
  }

  /** A function directly under the root (one key segment) is never registered, and neither is a non-function, non-object value. */
  lemma NothingOutsideFunctionsOfTwoSegments(overrides: map<string, Override>, key: string, arity: nat,
                                             group: Option<string>, methods: Methods)
    requires '.' !in key
    ensures ParseKey(overrides, key, Fn(arity), group, methods) == Built(methods, [])
    ensures ParseKey(overrides, key, Other, group, methods) == Built(methods, [])
  {
    SplitWithoutSeparator(key, '.');
  }

  /** With the page's table, `address.cityPrefix` and `address.citySuffix` never reach the catalog or the menu. */
  lemma CityAffixesExcluded(faker: seq<Entry>)
    ensures var c := BuildCatalog(ArgumentMapOverrides, faker);
      && "address.cityPrefix" !in CatalogKeys(c) && "address.cityPrefix" !in OptionValues(c.options)
      && "address.citySuffix" !in CatalogKeys(c) && "address.citySuffix" !in OptionValues(c.options)
  {
    TableExclusions("address.cityPrefix");
    TableExclusions("address.citySuffix");
    ExcludedKeyAbsent(ArgumentMapOverrides, faker, "address.cityPrefix");
    ExcludedKeyAbsent(ArgumentMapOverrides, faker, "address.citySuffix");
  }

  /**
   * Visiting a function of two or more segments sets its key to the
   * overridden default schema, unless the override excludes it; without an
   * override the schema's size is the function's arity and its `ref` names
   * the enclosing group's file.
   */
  lemma FunctionEntry(overrides: map<string, Override>, key: string, arity: nat, group: Option<string>,
                      methods: Methods)
    requires '.' in key
    ensures var r := ParseKey(overrides, key, Fn(arity), group, methods);
      && (Excluded(overrides, key) ==> r == Built(methods, []))
      && (!Excluded(overrides, key) ==> Get(r.methods, key) == ApplyOverride(overrides, key, DefaultSchema(key, arity, group)))
      && (key !in overrides ==>
            Get(r.methods, key).Some?
            && Get(r.methods, key).value.size == arity
            && Get(r.methods, key).value.ref == RefBase + GroupText(group) + ".js")
  {
  }

  /**
   * A key without an override, or with `{}`, keeps the default schema: named
   * and offered by its last segment, valued by its key, with no arguments.
   */
  lemma PlainKeySchema(overrides: map<string, Override>, k: string, s: Schema)
    requires SchemaOrigin(overrides, k, s)
    requires k !in overrides || overrides[k] == Assign(NoChange)
    ensures s.name == LastSegment(k, '.')
    ensures s.arguments == []
    ensures s.option == OptionEl(LastSegment(k, '.'), k)
    ensures StartsWith(s.ref, RefBase)
  {
    var arity: nat, group: Option<string> :| ApplyOverride(overrides, k, DefaultSchema(k, arity, group)) == Some(s);
    assert s == DefaultSchema(k, arity, group);
    assert s.ref == RefBase + (GroupText(group) + ".js");
  }

  /**
   * A key whose override names it: the schema takes the name, the option shows
   * it, and the arguments are the override's, or none.
   */
  lemma NamedKeySchema(overrides: map<string, Override>, k: string, s: Schema, p: Patch)
    requires SchemaOrigin(overrides, k, s)
    requires k in overrides && overrides[k] == Assign(p)
    requires p.name.Some? && p.name.value != ""
    ensures s.name == p.name.value
    ensures s.option == OptionEl(p.name.value, k)
    ensures s.arguments == (if p.arguments.Some? then p.arguments.value else [])
  {
    var arity: nat, group: Option<string> :| ApplyOverride(overrides, k, DefaultSchema(k, arity, group)) == Some(s);
  }

  /** With the page's table, `address.city` is shown as `City` and takes one string argument, `Format`. */
  lemma CitySchema(s: Schema)
    requires SchemaOrigin(ArgumentMapOverrides, "address.city", s)
    ensures s.name == "City"
    ensures s.option == OptionEl("City", "address.city")
    ensures s.arguments == [Argument("Format", StringArg)]
  {
    var p := Patch(Some("City"), None, Some([Argument("Format", StringArg)]), None);
    CityEntry();
    NamedKeySchema(ArgumentMapOverrides, "address.city", s, p);
  }

  /**
   * With the page's table, `mersenne.seed` keeps the name `seed`, is shown as
   * `Seed`, and takes exactly one argument: a number labelled `Seed Value`.
   */
  lemma SeedSchema(s: Schema)
    requires SchemaOrigin(ArgumentMapOverrides, "mersenne.seed", s)
    ensures s.name == "seed"
    ensures s.option == OptionEl("Seed", "mersenne.seed")
    ensures s.arguments == [Argument("Seed Value", NumberArg)]
  {
    var arity: nat, group: Option<string> :|
      ApplyOverride(ArgumentMapOverrides, "mersenne.seed", DefaultSchema("mersenne.seed", arity, group)) == Some(s);
    SeedEntry();
    SeedLastSegment();
  }

  /** Menu nodes that are all options, in ascending order of their values. */
  predicate OptionsAscending(items: seq<OptionNode>) {
    && (forall a :: 0 <= a < |items| ==> items[a].Item?)
    && (forall a, b :: 0 <= a < b < |items| ==> !CodeUnitLess(items[b].option.value, items[a].option.value))
  }

  /** Every option value is `prefix` followed by the name of one of `kids`. */
  predicate ValuesFrom(items: seq<OptionNode>, prefix: string, kids: seq<Entry>) {
    forall a :: 0 <= a < |items| ==> items[a].Item? && exists i :: 0 <= i < |kids| && items[a].option.value == prefix + kids[i].0
  }

  /** Visiting function properties in ascending name order offers their options in ascending key order. */
  lemma {:induction false} FunctionChildrenAscending(overrides: map<string, Override>, parent: Node, key: string,
                                                     kids: seq<Entry>, heading: string, methods: Methods)
    requires parent.Obj? && forall e :: e in kids ==> e in parent.entries
    requires forall i :: 0 <= i < |kids| ==> kids[i].1.Fn?
    requires NamesAscending(kids)
    ensures var items := ParseChildren(overrides, parent, key, kids, heading, methods).items;
      OptionsAscending(items) && ValuesFrom(items, key + ".", kids)
    decreases |kids|
  {
    if kids != [] {
      assert kids[0] in parent.entries;
      var first := ParseKey(overrides, key + "." + kids[0].0, kids[0].1, Some(heading), methods);
      var rest := ParseChildren(overrides, parent, key, kids[1..], heading, first.methods);
      assert ParseChildren(overrides, parent, key, kids, heading, methods).items == first.items + rest.items;
      FunctionChildrenAscending(overrides, parent, key, kids[1..], heading, first.methods);
      AscendingStep(key + ".", kids, first.items, rest.items);
    }
  }

  /** One more function option, for the smallest name, in front of the options of the rest. */
  lemma AscendingStep(prefix: string, kids: seq<Entry>, first: seq<OptionNode>, rest: seq<OptionNode>)
    requires kids != [] && NamesAscending(kids)
    requires first == [] || (|first| == 1 && first[0].Item? && first[0].option.value == prefix + kids[0].0)
    requires OptionsAscending(rest) && ValuesFrom(rest, prefix, kids[1..])
    ensures OptionsAscending(first + rest) && ValuesFrom(first + rest, prefix, kids)
  {
    ValuesStep(prefix, kids, first, rest);
    OrderStep(prefix, kids, first, rest);
  }

  lemma ValuesStep(prefix: string, kids: seq<Entry>, first: seq<OptionNode>, rest: seq<OptionNode>)
    requires kids != []
    requires first == [] || (|first| == 1 && first[0].Item? && first[0].option.value == prefix + kids[0].0)
    requires ValuesFrom(rest, prefix, kids[1..])
    ensures ValuesFrom(first + rest, prefix, kids)
  {
    var items := first + rest;
    forall a | 0 <= a < |items|
      ensures items[a].Item? && exists i :: 0 <= i < |kids| && items[a].option.value == prefix + kids[i].0
    {
      if a < |first| {
        assert items[a] == first[a];
      } else {
        assert items[a] == rest[a - |first|];
        var i :| 0 <= i < |kids[1..]| && rest[a - |first|].option.value == prefix + kids[1..][i].0;
        assert kids[1..][i] == kids[i + 1];
      }
    }
  }

  lemma OrderStep(prefix: string, kids: seq<Entry>, first: seq<OptionNode>, rest: seq<OptionNode>)
    requires kids != [] && NamesAscending(kids)
    requires first == [] || (|first| == 1 && first[0].Item? && first[0].option.value == prefix + kids[0].0)
    requires OptionsAscending(rest) && ValuesFrom(rest, prefix, kids[1..])
    ensures OptionsAscending(first + rest)
  {
    var items := first + rest;
    forall a | 0 <= a < |items| ensures items[a].Item? {
      if a < |first| {
        assert items[a] == first[a];
      } else {
        assert items[a] == rest[a - |first|];
      }
    }
    forall a, b | 0 <= a < b < |items|
      ensures !CodeUnitLess(items[b].option.value, items[a].option.value)
    {
      if a < |first| {
        assert items[b] == rest[b - |first|];
        LaterNameNotBefore(prefix, kids, rest[b - |first|].option.value);
      } else {
        assert items[a] == rest[a - |first|] && items[b] == rest[b - |first|];
      }
    }
  }

  /** The option of any later name does not come before the option of the first name. */
  lemma LaterNameNotBefore(prefix: string, kids: seq<Entry>, v: string)
    requires kids != [] && NamesAscending(kids)
    requires exists i :: 0 <= i < |kids[1..]| && v == prefix + kids[1..][i].0
    ensures !CodeUnitLess(v, prefix + kids[0].0)
  {
    var i :| 0 <= i < |kids[1..]| && v == prefix + kids[1..][i].0;
    assert kids[1..][i] == kids[i + 1];
    assert !CodeUnitLess(kids[i + 1].0, kids[0].0);
    CodeUnitLessCommonPrefix(prefix, kids[i + 1].0, kids[0].0);
  }

  /**
   * An object whose properties are all functions becomes one option group,
   * labelled with the capitalised key, whose options follow the sorted
   * property names.
   */
  lemma FunctionGroupAscending(overrides: map<string, Override>, key: string, es: seq<Entry>,
                               group: Option<string>, methods: Methods)
    requires forall i :: 0 <= i < |es| ==> es[i].1.Fn?
    ensures var items := ParseKey(overrides, key, Obj(es), group, methods).items;
      && |items| == 1 && items[0].Group? && items[0].heading == Capitalize(key)
      && OptionsAscending(items[0].children)
  {
    var kids := SortEntries(es);
    forall e | e in kids ensures e in es {
      assert e in multiset(kids);
    }
    forall i | 0 <= i < |kids| ensures kids[i].1.Fn? {
      assert kids[i] in es;
    }
    FunctionChildrenAscending(overrides, Obj(es), key, kids, Capitalize(key), methods);
  }

  /** The roots whose values are objects, in visiting order: each becomes one top-level option group. */
  function ObjectRoots(roots: seq<Entry>): (r: seq<Entry>)
    ensures forall e :: e in r <==> e in roots && e.1.Obj?
  {
    if roots == [] then []
    else
      assert roots == [roots[0]] + roots[1..];
      (if roots[0].1.Obj? then [roots[0]] else []) + ObjectRoots(roots[1..])
  }

  /** Keeping the object roots of an ascending list keeps it ascending. */
  lemma {:induction false} ObjectRootsAscending(roots: seq<Entry>)
    requires NamesAscending(roots)
    ensures NamesAscending(ObjectRoots(roots))
    decreases |roots|
  {
    if roots != [] {
      var rest := ObjectRoots(roots[1..]);
      ObjectRootsAscending(roots[1..]);
      forall e | e in rest ensures !CodeUnitLess(e.0, roots[0].0) {
        var c :| 0 <= c < |roots[1..]| && roots[1..][c] == e;
        assert roots[c + 1] == e;
      }
      var r := ObjectRoots(roots);
      assert r == (if roots[0].1.Obj? then [roots[0]] else []) + rest;
      forall a, b | 0 <= a < b < |r| ensures !CodeUnitLess(r[b].0, r[a].0) {
        if roots[0].1.Obj? {
          assert r[b] == rest[b - 1];
          if a > 0 {
            assert r[a] == rest[a - 1];
          }
        }
      }
    }
  }

  /** A root whose name has no `.` offers nothing unless it is an object. */
  lemma UnlabelledRootOffersNothing(overrides: map<string, Override>, name: string, node: Node, methods: Methods)
    requires '.' !in name && !node.Obj?
    ensures ParseKey(overrides, name, node, None, methods).items == []
  {
    SplitWithoutSeparator(name, '.');
  }

  /** `items` are option groups labelled with the capitalised names of `objs`, one for one. */
  predicate Labelled(items: seq<OptionNode>, objs: seq<Entry>) {
    && |items| == |objs|
    && forall a :: 0 <= a < |items| ==> items[a].Group? && items[a].heading == Capitalize(objs[a].0)
  }

  lemma LabelledAppend(items1: seq<OptionNode>, objs1: seq<Entry>, items2: seq<OptionNode>, objs2: seq<Entry>)
    requires Labelled(items1, objs1) && Labelled(items2, objs2)
    ensures Labelled(items1 + items2, objs1 + objs2)
  {
    var items, objs := items1 + items2, objs1 + objs2;
    forall a | 0 <= a < |items| ensures items[a].Group? && items[a].heading == Capitalize(objs[a].0) {
      if a < |items1| {
        assert items[a] == items1[a] && objs[a] == objs1[a];
      } else {
        assert items[a] == items2[a - |items1|] && objs[a] == objs2[a - |items1|];
      }
    }
  }

  /** One root with a dot-free name: a group for an object, nothing otherwise. */
  lemma RootLabelled(overrides: map<string, Override>, root: Entry, methods: Methods)
    requires '.' !in root.0
    ensures Labelled(ParseKey(overrides, root.0, root.1, None, methods).items, if root.1.Obj? then [root] else [])
  {
    if !root.1.Obj? {
      UnlabelledRootOffersNothing(overrides, root.0, root.1, methods);
    }
  }

  /**
   * Visiting roots with dot-free names produces one option group per object
   * root, in visiting order, labelled with the capitalised root name, and
   * nothing else at the top level of the menu.
   */
  lemma {:induction false} RootGroupsInOrder(overrides: map<string, Override>, roots: seq<Entry>, methods: Methods)
    requires forall i :: 0 <= i < |roots| ==> '.' !in roots[i].0
    ensures Labelled(ParseRoots(overrides, roots, methods).items, ObjectRoots(roots))
    decreases |roots|
  {
    if roots != [] {
      var first := ParseKey(overrides, roots[0].0, roots[0].1, None, methods);
      var rest := ParseRoots(overrides, roots[1..], first.methods);
      RootGroupsInOrder(overrides, roots[1..], first.methods);
      RootLabelled(overrides, roots[0], methods);
      LabelledAppend(first.items, if roots[0].1.Obj? then [roots[0]] else [], rest.items, ObjectRoots(roots[1..]));
    }
  }

  /**
   * In a library whose property names hold no `.`, the menu's top level is
   * one option group per kept root object, labelled with its capitalised
   * name, in ascending order of the root names (`rootKeys.sort()`).
   */
  lemma CatalogGroupsInRootOrder(overrides: map<string, Override>, faker: seq<Entry>)
    requires forall e :: e in faker ==> '.' !in e.0
    ensures var items := BuildCatalog(overrides, faker).options;
      var objs := ObjectRoots(RootEntries(faker));
      && (forall e :: e in objs <==> e in faker && KeepRoot(e.0) && e.1.Obj?)
      && NamesAscending(objs)
      && |items| == |objs|
      && (forall a :: 0 <= a < |items| ==> items[a].Group? && items[a].heading == Capitalize(objs[a].0))
  {
    var roots := RootEntries(faker);
    forall i | 0 <= i < |roots| ensures '.' !in roots[i].0 {
      assert roots[i] in faker;
    }
    RootGroupsInOrder(overrides, roots, []);
    ObjectRootsAscending(roots);
  }

  /** `k1` is listed before `k2`. */
  predicate KeyBefore(keys: seq<string>, k1: string, k2: string) {
    exists a, b :: 0 <= a < b < |keys| && keys[a] == k1 && keys[b] == k2
  }

  /**
   * Along the walk over the roots, a key registered by root `i` is put into
   * the map before a key first registered by a later root `j`: `Map` keeps
   * insertion order, so `keys()` lists them in that order.
   */
  lemma WalkKeysInOrder(overrides: map<string, Override>, roots: seq<Entry>, methods: Methods,
                        i: nat, j: nat, x: Entry, y: Entry, k1: string, s1: Schema, k2: string, s2: Schema)
    requires i < j < |roots| && roots[i] == x && roots[j] == y
    requires Registers(overrides, x.0, x.1, None, k1, s1)
    requires Registers(overrides, y.0, y.1, None, k2, s2)
    requires k2 !in Keys(methods)
    requires forall m :: 0 <= m <= i ==> !Under(k2, roots[m].0)
    ensures KeyBefore(Keys(ParseRoots(overrides, roots, methods).methods), k1, k2)
  {
    var a, b := roots[..i + 1], roots[i + 1..];
    assert roots == a + b;
    RootsAppend(overrides, a, b, methods);
    EarlierRootsKeys(overrides, roots, methods, i, k1, s1, k2);
    var pre := ParseRoots(overrides, a, methods).methods;
    LaterRootsKeys(overrides, roots, pre, i, j, k2, s2);
    PrefixOrder(Keys(pre), Keys(ParseRoots(overrides, b, pre).methods), k1, k2);
  }

  /** Walking the roots up to `i`, which registers `k1`, adds `k1`, and adds `k2` when none of them lies over it. */
  lemma EarlierRootsKeys(overrides: map<string, Override>, roots: seq<Entry>, methods: Methods,
                         i: nat, k1: string, s1: Schema, k2: string)
    requires i < |roots| && Registers(overrides, roots[i].0, roots[i].1, None, k1, s1)
    requires k2 !in Keys(methods) && forall m :: 0 <= m <= i ==> !Under(k2, roots[m].0)
    ensures var after := Keys(ParseRoots(overrides, roots[..i + 1], methods).methods);
      k1 in after && k2 !in after
  {
    var a := roots[..i + 1];
    var pre := ParseRoots(overrides, a, methods);
    assert a[i] == roots[i] && "" + a[i].0 == a[i].0;
    assert ChildRegisters(overrides, "", a, None, k1, s1);
    GrowsAdds(methods, pre.methods, pre.items, (k, s) => ChildRegisters(overrides, "", a, None, k, s), k1, s1);
    ChildRegistersUnder(overrides, a, k2);
    assert forall m :: 0 <= m < |a| ==> a[m] == roots[m];
    GrowsLeavesOut(methods, pre.methods, pre.items, (k, s) => ChildRegisters(overrides, "", a, None, k, s), k2);
  }

  /** Walking the roots after `i`, of which `j` registers `k`, keeps the map's keys in front and adds `k`. */
  lemma LaterRootsKeys(overrides: map<string, Override>, roots: seq<Entry>, methods: Methods, i: nat, j: nat,
                       k: string, s: Schema)
    requires i < j < |roots| && Registers(overrides, roots[j].0, roots[j].1, None, k, s)
    ensures var after := Keys(ParseRoots(overrides, roots[i + 1..], methods).methods);
      k in after && Keys(methods) <= after
  {
    var b := roots[i + 1..];
    var post := ParseRoots(overrides, b, methods);
    assert b[j - i - 1] == roots[j] && "" + roots[j].0 == roots[j].0;
    assert ChildRegisters(overrides, "", b, None, k, s);
    GrowsAdds(methods, post.methods, post.items, (k, s) => ChildRegisters(overrides, "", b, None, k, s), k, s);
  }

  /** Walking the roots `a + b` is walking `a`, then `b` from where `a` left the map. */
  lemma {:induction false} RootsAppend(overrides: map<string, Override>, a: seq<Entry>, b: seq<Entry>, methods: Methods)
    ensures ParseRoots(overrides, a + b, methods).methods
         == ParseRoots(overrides, b, ParseRoots(overrides, a, methods).methods).methods
    decreases |a|
  {
    if a == [] {
      assert a + b == b;
    } else {
      assert (a + b)[0] == a[0] && (a + b)[1..] == a[1..] + b;
      var first := ParseKey(overrides, a[0].0, a[0].1, None, methods);
      RootsAppend(overrides, a[1..], b, first.methods);
    }
  }

  /** A key registered by one of the roots lies under that root's name. */
  lemma ChildRegistersUnder(overrides: map<string, Override>, roots: seq<Entry>, k: string)
    ensures forall s :: ChildRegisters(overrides, "", roots, None, k, s) ==> exists m :: 0 <= m < |roots| && Under(k, roots[m].0)
  {
    forall s | ChildRegisters(overrides, "", roots, None, k, s) ensures exists m :: 0 <= m < |roots| && Under(k, roots[m].0) {
      var m :| 0 <= m < |roots| && Registers(overrides, "" + roots[m].0, roots[m].1, None, k, s);
      assert "" + roots[m].0 == roots[m].0;
      RegisteredShape(overrides, roots[m].0, roots[m].1, None, k, s);
    }
  }

  /** A walk that registers nothing under `k` does not add `k`. */
  lemma GrowsLeavesOut(before: Methods, after: Methods, items: seq<OptionNode>, R: (string, Schema) -> bool, k: string)
    requires Grows(before, after, items, R) && k !in Keys(before) && forall s :: !R(k, s)
    ensures k !in Keys(after)
  {
  }

  /** A walk that performs a registration holds its key afterwards, behind the keys it started with. */
  lemma GrowsAdds(before: Methods, after: Methods, items: seq<OptionNode>, R: (string, Schema) -> bool, k: string, s: Schema)
    requires Grows(before, after, items, R) && R(k, s)
    ensures k in Keys(after) && Keys(before) <= Keys(after)
  {
  }

  /** A key already present comes before a key added behind the present ones. */
  lemma PrefixOrder(before: seq<string>, keys: seq<string>, k1: string, k2: string)
    requires before <= keys && k1 in before && k2 !in before && k2 in keys
    ensures KeyBefore(keys, k1, k2)
  {
    var a :| 0 <= a < |before| && before[a] == k1;
    var b :| 0 <= b < |keys| && keys[b] == k2;
    assert before == keys[..|before|];
    assert keys[a] == k1;
    forall c | 0 <= c < |before| ensures keys[c] != k2 {
      assert keys[c] == before[c];
    }
  }

  /** In an ascending list, an entry whose name is smaller than another's comes first. */
  lemma AscendingIndexOrder(roots: seq<Entry>, i: nat, j: nat)
    requires NamesAscending(roots) && i < |roots| && j < |roots|
    requires CodeUnitLess(roots[i].0, roots[j].0)
    ensures i < j
  {
    CodeUnitLessIrreflexive(roots[i].0);
  }

  /** In an ascending list, no entry up to `i` has a name larger than the name of entry `i`. */
  lemma NotBeforeSmaller(roots: seq<Entry>, m: nat, i: nat, z: string)
    requires NamesAscending(roots) && m <= i < |roots|
    requires CodeUnitLess(roots[i].0, z)
    ensures roots[m].0 != z
  {
    CodeUnitLessIrreflexive(z);
  }

  /** Two dot-free root names a key lies under are the same name. */
  lemma RootNamesDisjoint(x: string, y: string, k: string)
    requires '.' !in x && '.' !in y
    ensures Under(k, x) && Under(k, y) ==> x == y
  {
    if Under(k, x) && Under(k, y) {
      assert "" + x == x && "" + y == y;
      SiblingsDisjoint("", x, y, k);
    }
  }

  /** No kept root up to `i` lies over a key under a dot-free name larger than the name of root `i`. */
  lemma EarlierRootsApart(faker: seq<Entry>, roots: seq<Entry>, i: nat, y: string, k: string)
    requires forall e :: e in faker ==> '.' !in e.0
    requires forall e :: e in roots ==> e in faker
    requires NamesAscending(roots) && i < |roots| && CodeUnitLess(roots[i].0, y)
    requires '.' !in y && Under(k, y)
    ensures forall m :: 0 <= m <= i ==> !Under(k, roots[m].0)
  {
    forall m | 0 <= m <= i ensures !Under(k, roots[m].0) {
      assert roots[m] in faker;
      NotBeforeSmaller(roots, m, i, y);
      RootNamesDisjoint(roots[m].0, y, k);
    }
  }

  /**
   * In a library whose property names hold no `.`, `keys()` lists a key a
   * kept root registers before a key a kept root of larger name registers:
   * the roots are visited in `.sort()` order and `Map` keeps insertion order.
   */
  lemma CatalogKeysInRootOrder(overrides: map<string, Override>, faker: seq<Entry>, x: Entry, y: Entry,
                               k1: string, s1: Schema, k2: string, s2: Schema)
    requires forall e :: e in faker ==> '.' !in e.0
    requires x in faker && y in faker && KeepRoot(x.0) && KeepRoot(y.0) && CodeUnitLess(x.0, y.0)
    requires Registers(overrides, x.0, x.1, None, k1, s1) && Registers(overrides, y.0, y.1, None, k2, s2)
    ensures KeyBefore(CatalogKeys(BuildCatalog(overrides, faker)), k1, k2)
  {
    var roots := RootEntries(faker);
    var i :| 0 <= i < |roots| && roots[i] == x;
    var j :| 0 <= j < |roots| && roots[j] == y;
    AscendingIndexOrder(roots, i, j);
    RegisteredShape(overrides, y.0, y.1, None, k2, s2);
    EarlierRootsApart(faker, roots, i, y.0, k2);
    WalkKeysInOrder(overrides, roots, [], i, j, x, y, k1, s1, k2, s2);
  }
}
