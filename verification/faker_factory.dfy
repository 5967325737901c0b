/**
 * `fakerFactory` (`src/lib/faker-factory.js`): the walk over the faker
 * library that registers every faker function of two or more key segments
 * under its dotted key, builds the option menu grouping them by object, and
 * applies the override table on the way.
 *
 * The library is given as a tree of `Node`s; `_.get(faker, key)` becomes
 * passing the child node down with its dotted key, so keys holding `.` or `[`
 * are read as plain property names.
 */
module FakerFactory {
  import opened Wrappers
  import opened Text
  import Sorting
  import opened FakerSchema
  import opened MethodMap

  /**
   * What `_.get(faker, key, null)` finds: a function and its `length`, an
   * object with its own enumerable properties (an array has its indices as
   * keys), or any other value. `null`, and `undefined`, which the default
   * turns into `null`, are `Obj([])`: `typeof` calls them `'object'` and
   * they have no properties, so they become an empty option group.
   */
  datatype Node = Fn(arity: nat) | Obj(entries: seq<(string, Node)>) | Other

  type Entry = (string, Node)

  /** `.sort()` on property names: `a` goes after `b` when `b`'s name is smaller. */
  const EntryAfter: (Entry, Entry) -> bool := (a: Entry, b: Entry) => CodeUnitLess(b.0, a.0)

  /** Property names in ascending code-unit order. */
  predicate NamesAscending(es: seq<Entry>) {
    forall i, j :: 0 <= i < j < |es| ==> !CodeUnitLess(es[j].0, es[i].0)
  }

  /** `_.keys(o).sort()`, kept together with the values the names lead to. */
  function SortEntries(es: seq<Entry>): (r: seq<Entry>)
    ensures multiset(r) == multiset(es)
    ensures NamesAscending(r)
  {
    EntryOrderIsWeak();
    var r := Sorting.InsertionSort(EntryAfter, es);
    assert Sorting.Sorted(EntryAfter, r);
    assert forall i, j :: 0 <= i < j < |r| ==> !EntryAfter(r[i], r[j]);
    r
  }

  lemma EntryOrderIsWeak()
    ensures Sorting.StrictWeakOrder(EntryAfter)
  {
    forall a: Entry ensures !EntryAfter(a, a) {
      CodeUnitLessIrreflexive(a.0);
    }
    forall a: Entry, b: Entry, c: Entry | EntryAfter(a, b) && EntryAfter(b, c) ensures EntryAfter(a, c) {
      CodeUnitLessTransitive(c.0, b.0, a.0);
    }
    forall a: Entry, b: Entry, c: Entry | !EntryAfter(a, b) && !EntryAfter(b, c) ensures !EntryAfter(a, c) {
      if CodeUnitLess(c.0, a.0) {
        if a.0 != b.0 {
          CodeUnitLessTotal(a.0, b.0);
          CodeUnitLessTransitive(c.0, a.0, b.0);
        }
      }
    }
  }

  /**
   * The declarative reading of the walk: the node at `key`, inside the option
   * group labelled `group` (`None` for the root fragment, which has no
   * label), registers key `k` with schema `s` when it is a function whose key
   * has two or more segments and `s` is what the override table makes of its
   * default schema, or when it is an object one of whose properties, inside
   * the object's own group, registers `k` with `s`.
   */
  predicate Registers(overrides: map<string, Override>, key: string, node: Node, group: Option<string>,
                      k: string, s: Schema)
    decreases node
  {
    match node
    case Fn(arity) => k == key && '.' in key && ApplyOverride(overrides, key, DefaultSchema(key, arity, group)) == Some(s)
    case Obj(es) => exists i :: 0 <= i < |es| && Registers(overrides, key + "." + es[i].0, es[i].1, Some(Capitalize(key)), k, s)
    case Other => false
  }

  /**
   * One of `kids`, visited under `prefix` followed by its name inside `group`,
   * registers `k` with `s`; the prefix is `key.` for an object's properties
   * and empty at the root.
   */
  predicate ChildRegisters(overrides: map<string, Override>, prefix: string, kids: seq<Entry>, group: Option<string>,
                           k: string, s: Schema) {
    exists i :: 0 <= i < |kids| && Registers(overrides, prefix + kids[i].0, kids[i].1, group, k, s)
  }

  /** `s` is what the override table makes of the default schema of some function at `k`. */
  ghost predicate SchemaOrigin(overrides: map<string, Override>, k: string, s: Schema) {
    exists arity: nat, group: Option<string> :: ApplyOverride(overrides, k, DefaultSchema(k, arity, group)) == Some(s)
  }

  /**
   * One stretch of the walk took the method map from `before` to `after` and
   * produced the menu nodes `items`, performing exactly the registrations `R`
   * holds for: the keys registered, and only those, were added or re-set,
   * each with a schema registered for it; the menu offers exactly the option
   * elements of the registered schemas; and the keys already present keep
   * their order.
   */
  ghost predicate Grows(before: Methods, after: Methods, items: seq<OptionNode>, R: (string, Schema) -> bool) {
    && (forall k :: k in Keys(after) <==> k in Keys(before) || exists s :: R(k, s))
    && (forall o :: o in Options(items) <==> exists s :: R(o.value, s) && s.option == o)
    && Keys(before) <= Keys(after)
    && (DistinctKeys(before) ==> DistinctKeys(after))
    && (forall k :: Get(after, k) != Get(before, k) ==> Get(after, k).Some? && R(k, Get(after, k).value))
  }

  /** What a stretch of the walk returns: the method map so far and the menu nodes for the enclosing group. */
  datatype Built = Built(methods: Methods, items: seq<OptionNode>)

  /**
   * `parseKey(key, group)`: a function with two or more key segments becomes
   * a default schema, passes through its override and, unless that yields
   * `null`, is set in the map and offered in `group`; an object becomes an
   * option group labelled with its capitalised key, filled by visiting its
   * properties in sorted order; anything else is ignored.
   */
  function ParseKey(overrides: map<string, Override>, key: string, node: Node, group: Option<string>,
                    methods: Methods): (r: Built)
    decreases node, 1
    ensures Grows(methods, r.methods, r.items, (k, s) => Registers(overrides, key, node, group, k, s))
    ensures node.Obj? ==> |r.items| == 1 && r.items[0].Group? && r.items[0].heading == Capitalize(key)
    ensures !node.Obj? ==> |r.items| <= 1
  {
    match node
    case Fn(arity) =>
      ParseFunction(overrides, key, arity, group, methods)
    case Obj(es) =>
      var heading := Capitalize(key);
      var kids := SortEntries(es);
      forall e | e in kids ensures e in es {
        assert e in multiset(kids);
      }
      var inner := ParseChildren(overrides, node, key, kids, heading, methods);
      ObjectStep(overrides, key, es, kids, group, methods, inner);
      Built(inner.methods, [Group(heading, inner.items)])
    case Other =>
      Built(methods, [])
  }

  /** An object's group holds what its sorted properties register, which is what the object registers. */
  lemma ObjectStep(overrides: map<string, Override>, key: string, es: seq<Entry>, kids: seq<Entry>,
                   group: Option<string>, methods: Methods, inner: Built)
    requires multiset(kids) == multiset(es)
    requires Grows(methods, inner.methods, inner.items,
                   (k, s) => ChildRegisters(overrides, key + ".", kids, Some(Capitalize(key)), k, s))
    ensures Grows(methods, inner.methods, [Group(Capitalize(key), inner.items)],
                  (k, s) => Registers(overrides, key, Obj(es), group, k, s))
  {
    ObjectRegisters(overrides, key, es, kids, group);
    OptionsGroup(Capitalize(key), inner.items);
    GrowsSame(methods, inner.methods, [Group(Capitalize(key), inner.items)],
              (k, s) => ChildRegisters(overrides, key + ".", kids, Some(Capitalize(key)), k, s),
              (k, s) => Registers(overrides, key, Obj(es), group, k, s));
  }

  /**
   * The `'function'` case of `parseKey`: a key of one segment is skipped;
   * otherwise the default schema, of size `arity` and with a `ref` naming the
   * group, passes through its override and, unless that yields `null`, is set
   * in the map and its option offered.
   */
  function ParseFunction(overrides: map<string, Override>, key: string, arity: nat, group: Option<string>,
                         methods: Methods): (r: Built)
    ensures Grows(methods, r.methods, r.items, (k, s) => Registers(overrides, key, Fn(arity), group, k, s))
    ensures r.items == [] || (|r.items| == 1 && r.items[0].Item? && r.items[0].option.value == key)
  {
    if |Split(key, '.')| <= 1 then
      GrowsByNothing(methods, (k, s) => Registers(overrides, key, Fn(arity), group, k, s));
      Built(methods, [])
    else
      match ApplyOverride(overrides, key, DefaultSchema(key, arity, group))
      case None =>
        GrowsByNothing(methods, (k, s) => Registers(overrides, key, Fn(arity), group, k, s));
        Built(methods, [])
      case Some(s) =>
        GrowsBySet(methods, key, s);
        GrowsSame(methods, Set(methods, key, s), [Item(s.option)],
                  (k, t) => k == key && t == s, (k, t) => Registers(overrides, key, Fn(arity), group, k, t));
        Built(Set(methods, key, s), [Item(s.option)])
  }

  /** A stretch that changes nothing registers nothing. */
  lemma GrowsByNothing(methods: Methods, R: (string, Schema) -> bool)
    requires forall k, s :: !R(k, s)
    ensures Grows(methods, methods, [], R)
  {
  }

  /** Setting one key registers that key with that schema. */
  lemma GrowsBySet(methods: Methods, key: string, s: Schema)
    requires s.option.value == key
    ensures Grows(methods, Set(methods, key, s), [Item(s.option)], (k, t) => k == key && t == s)
  {
    var R := (k, t) => k == key && t == s;
    SetChangesOnlyKey(methods, key, s);
    SetKeys(methods, key, s);
    SetRegistersKey(methods, key, s, R);
    SetOffersOption(s, R);
  }

  /** The keys after setting `key` are the keys before and the one `R` registers. */
  lemma SetRegistersKey(methods: Methods, key: string, s: Schema, R: (string, Schema) -> bool)
    requires forall k, t :: R(k, t) <==> k == key && t == s
    ensures forall k :: k in Keys(Set(methods, key, s)) <==> k in Keys(methods) || exists t :: R(k, t)
  {
    SetKeys(methods, key, s);
    forall k ensures k in Keys(Set(methods, key, s)) <==> k in Keys(methods) || exists t :: R(k, t) {
      if k == key {
        assert R(k, s);
      }
    }
  }

  /** The menu item of a schema offers exactly the option of the schema `R` registers. */
  lemma SetOffersOption(s: Schema, R: (string, Schema) -> bool)
    requires forall k, t :: R(k, t) <==> k == s.option.value && t == s
    ensures forall o :: o in Options([Item(s.option)]) <==> exists t :: R(o.value, t) && t.option == o
  {
    OptionsItem(s.option);
    forall o ensures o in Options([Item(s.option)]) <==> exists t :: R(o.value, t) && t.option == o {
      if o == s.option {
        assert R(o.value, s);
      }
    }
  }

  /** `Set` adds its key, when new, after the existing keys, and keeps them distinct. */
  lemma SetKeys(methods: Methods, key: string, s: Schema)
    ensures var after := Set(methods, key, s);
      && (forall k :: k in Keys(after) <==> k in Keys(methods) || k == key)
      && Keys(methods) <= Keys(after)
      && (DistinctKeys(methods) ==> DistinctKeys(after))
  {
  }

  /** The only key whose lookup `Set` changes is the key it sets, now holding `s`. */
  lemma SetChangesOnlyKey(methods: Methods, key: string, s: Schema)
    ensures var after := Set(methods, key, s);
      forall k :: Get(after, k) != Get(methods, k) ==> k == key && Get(after, k) == Some(s)
  {
  }

  /** An object registers what its properties register, in whatever order they are visited. */
  lemma ObjectRegisters(overrides: map<string, Override>, key: string, es: seq<Entry>, kids: seq<Entry>,
                        group: Option<string>)
    requires multiset(kids) == multiset(es)
    ensures forall k, s :: Registers(overrides, key, Obj(es), group, k, s) <==>
      ChildRegisters(overrides, key + ".", kids, Some(Capitalize(key)), k, s)
  {
    ChildRegistersPermutation(overrides, key + ".", kids, es, Some(Capitalize(key)));
  }

  /** The `forEach` over an object's sorted properties, each visited under `key.childKey` inside the group `heading`. */
  function ParseChildren(overrides: map<string, Override>, parent: Node, key: string, kids: seq<Entry>,
                         heading: string, methods: Methods): (r: Built)
    requires parent.Obj? && forall e :: e in kids ==> e in parent.entries
    decreases parent, 0, |kids|
    ensures Grows(methods, r.methods, r.items, (k, s) => ChildRegisters(overrides, key + ".", kids, Some(heading), k, s))
  {
    if kids == [] then
      Built(methods, [])
    else
      assert kids[0] in parent.entries;
      var first := ParseKey(overrides, key + "." + kids[0].0, kids[0].1, Some(heading), methods);
      var rest := ParseChildren(overrides, parent, key, kids[1..], heading, first.methods);
      ChildrenStep(overrides, key + ".", kids, Some(heading), methods, first, rest);
      Built(rest.methods, first.items + rest.items)
  }

  /** The first property, then the others: together they register what any of them registers. */
  lemma ChildrenStep(overrides: map<string, Override>, prefix: string, kids: seq<Entry>, group: Option<string>,
                     methods: Methods, first: Built, rest: Built)
    requires kids != []
    requires Grows(methods, first.methods, first.items, (k, s) => Registers(overrides, prefix + kids[0].0, kids[0].1, group, k, s))
    requires Grows(first.methods, rest.methods, rest.items, (k, s) => ChildRegisters(overrides, prefix, kids[1..], group, k, s))
    ensures Grows(methods, rest.methods, first.items + rest.items, (k, s) => ChildRegisters(overrides, prefix, kids, group, k, s))
  {
    ChildRegistersCons(overrides, prefix, kids, group);
    GrowsThen(methods, first.methods, rest.methods, first.items, rest.items,
              (k, s) => Registers(overrides, prefix + kids[0].0, kids[0].1, group, k, s),
              (k, s) => ChildRegisters(overrides, prefix, kids[1..], group, k, s),
              (k, s) => ChildRegisters(overrides, prefix, kids, group, k, s));
  }

  /** Two stretches in a row perform the registrations of either. */
  lemma GrowsThen(m0: Methods, m1: Methods, m2: Methods, items1: seq<OptionNode>, items2: seq<OptionNode>,
                  P: (string, Schema) -> bool, Q: (string, Schema) -> bool, PQ: (string, Schema) -> bool)
    requires Grows(m0, m1, items1, P) && Grows(m1, m2, items2, Q)
    requires forall k, s :: PQ(k, s) <==> P(k, s) || Q(k, s)
    ensures Grows(m0, m2, items1 + items2, PQ)
  {
    OptionsAppend(items1, items2);
    forall k | Get(m2, k) != Get(m0, k)
      ensures Get(m2, k).Some? && PQ(k, Get(m2, k).value)
    {
      if Get(m2, k) == Get(m1, k) {
        assert Get(m1, k) != Get(m0, k);
      }
    }
  }

  /** `Grows` depends only on which registrations the relation holds for. */
  lemma GrowsSame(before: Methods, after: Methods, items: seq<OptionNode>,
                  P: (string, Schema) -> bool, Q: (string, Schema) -> bool)
    requires Grows(before, after, items, P)
    requires forall k, s :: P(k, s) <==> Q(k, s)
    ensures Grows(before, after, items, Q)
  {
  }

  lemma ChildRegistersCons(overrides: map<string, Override>, prefix: string, kids: seq<Entry>, group: Option<string>)
    requires kids != []
    ensures forall k, s :: ChildRegisters(overrides, prefix, kids, group, k, s) <==>
      Registers(overrides, prefix + kids[0].0, kids[0].1, group, k, s) || ChildRegisters(overrides, prefix, kids[1..], group, k, s)
  {
    forall k, s | ChildRegisters(overrides, prefix, kids, group, k, s) && !Registers(overrides, prefix + kids[0].0, kids[0].1, group, k, s)
      ensures ChildRegisters(overrides, prefix, kids[1..], group, k, s)
    {
      var i :| 0 <= i < |kids| && Registers(overrides, prefix + kids[i].0, kids[i].1, group, k, s);
      assert kids[1..][i - 1] == kids[i];
    }
    forall k, s | ChildRegisters(overrides, prefix, kids[1..], group, k, s)
      ensures ChildRegisters(overrides, prefix, kids, group, k, s)
    {
      var i :| 0 <= i < |kids[1..]| && Registers(overrides, prefix + kids[1..][i].0, kids[1..][i].1, group, k, s);
      assert kids[1..][i] == kids[i + 1];
    }
  }

  /** Visiting the properties in another order performs the same registrations. */
  lemma ChildRegistersPermutation(overrides: map<string, Override>, prefix: string, a: seq<Entry>, b: seq<Entry>,
                                  group: Option<string>)
    requires multiset(a) == multiset(b)
    ensures forall k, s :: ChildRegisters(overrides, prefix, a, group, k, s) <==> ChildRegisters(overrides, prefix, b, group, k, s)
  {
    forall k, s | ChildRegisters(overrides, prefix, a, group, k, s) ensures ChildRegisters(overrides, prefix, b, group, k, s) {
      var i :| 0 <= i < |a| && Registers(overrides, prefix + a[i].0, a[i].1, group, k, s);
      assert a[i] in multiset(b);
      var j :| 0 <= j < |b| && b[j] == a[i];
    }
    forall k, s | ChildRegisters(overrides, prefix, b, group, k, s) ensures ChildRegisters(overrides, prefix, a, group, k, s) {
      var j :| 0 <= j < |b| && Registers(overrides, prefix + b[j].0, b[j].1, group, k, s);
      assert b[j] in multiset(a);
      var i :| 0 <= i < |a| && a[i] == b[j];
    }
  }

  /** The root filter: property names starting with `local`, and `definitions`, are skipped. */
  predicate KeepRoot(name: string) {
    !StartsWith(name, "local") && name != "definitions"
  }

  /** `.filter(...)` on the root properties, in their order. */
  function FilterRoots(es: seq<Entry>): (r: seq<Entry>)
    ensures forall e :: multiset(r)[e] == if KeepRoot(e.0) then multiset(es)[e] else 0
  {
    if es == [] then []
    else
      assert es == [es[0]] + es[1..];
      (if KeepRoot(es[0].0) then [es[0]] else []) + FilterRoots(es[1..])
  }

  /** `rootKeys`: the kept root properties, sorted by name. */
  function RootEntries(faker: seq<Entry>): (r: seq<Entry>)
    ensures forall e :: e in r <==> e in faker && KeepRoot(e.0)
    ensures NamesAscending(r)
  {
    var kept := FilterRoots(faker);
    var r := SortEntries(kept);
    assert forall e :: e in r <==> e in kept by {
      forall e ensures e in r <==> e in kept {
        assert e in r <==> e in multiset(r);
        assert e in kept <==> e in multiset(kept);
      }
    }
    forall e ensures e in kept <==> e in faker && KeepRoot(e.0) {
      assert e in kept <==> e in multiset(kept);
      assert e in faker <==> e in multiset(faker);
    }
    r
  }

  /** `rootKeys.forEach(k => parseKey(k, options))`: each root visited under its own name, in the unlabelled fragment. */
  function ParseRoots(overrides: map<string, Override>, roots: seq<Entry>, methods: Methods): (r: Built)
    decreases |roots|
    ensures Grows(methods, r.methods, r.items, (k, s) => ChildRegisters(overrides, "", roots, None, k, s))
  {
    if roots == [] then
      Built(methods, [])
    else
      var first := ParseKey(overrides, roots[0].0, roots[0].1, None, methods);
      var rest := ParseRoots(overrides, roots[1..], first.methods);
      RootsStep(overrides, roots, methods, first, rest);
      Built(rest.methods, first.items + rest.items)
  }

  /** The first root, then the others: together they register what any root registers. */
  lemma RootsStep(overrides: map<string, Override>, roots: seq<Entry>, methods: Methods, first: Built, rest: Built)
    requires roots != []
    requires Grows(methods, first.methods, first.items, (k, s) => Registers(overrides, roots[0].0, roots[0].1, None, k, s))
    requires Grows(first.methods, rest.methods, rest.items, (k, s) => ChildRegisters(overrides, "", roots[1..], None, k, s))
    ensures Grows(methods, rest.methods, first.items + rest.items, (k, s) => ChildRegisters(overrides, "", roots, None, k, s))
  {
    ChildRegistersCons(overrides, "", roots, None);
    assert "" + roots[0].0 == roots[0].0;
    GrowsThen(methods, first.methods, rest.methods, first.items, rest.items,
              (k, s) => Registers(overrides, roots[0].0, roots[0].1, None, k, s),
              (k, s) => ChildRegisters(overrides, "", roots[1..], None, k, s),
              (k, s) => ChildRegisters(overrides, "", roots, None, k, s));
  }

  /** What `fakerFactory()` returns: the method map and the option menu (the `DocumentFragment`). */
  datatype Catalog = Catalog(methods: Methods, options: seq<OptionNode>)

  /** Some kept root property of the library registers `k` with `s`. */
  predicate LibraryRegisters(overrides: map<string, Override>, faker: seq<Entry>, k: string, s: Schema) {
    exists i :: 0 <= i < |faker| && KeepRoot(faker[i].0) && Registers(overrides, faker[i].0, faker[i].1, None, k, s)
  }

  /**
   * `fakerFactory()` over the library `faker` and the override table: the
   * catalog holds exactly the keys some kept root property registers, each
   * once and each with a schema registered for it (the overridden default
   * schema of that function, sized by its arity and referring to its group);
   * the menu offers exactly the option elements of the registered schemas.
   */
  function BuildCatalog(overrides: map<string, Override>, faker: seq<Entry>): (c: Catalog)
    ensures forall k :: k in Keys(c.methods) <==> exists s :: LibraryRegisters(overrides, faker, k, s)
    ensures forall k :: k in Keys(c.methods) ==> LibraryRegisters(overrides, faker, k, Get(c.methods, k).value)
    ensures forall o :: o in Options(c.options) <==> exists s :: LibraryRegisters(overrides, faker, o.value, s) && s.option == o
    ensures forall v :: v in OptionValues(c.options) <==> v in Keys(c.methods)
    ensures DistinctKeys(c.methods)
  {
    var built := ParseRoots(overrides, RootEntries(faker), []);
    RootsBuildCatalog(overrides, faker);
    Catalog(built.methods, built.items)
  }

  /** The walk over the kept roots, from an empty map, performs exactly the library's registrations. */
  lemma RootsBuildCatalog(overrides: map<string, Override>, faker: seq<Entry>)
    ensures var built := ParseRoots(overrides, RootEntries(faker), []);
      && (forall k :: k in Keys(built.methods) <==> exists s :: LibraryRegisters(overrides, faker, k, s))
      && (forall k :: k in Keys(built.methods) ==> LibraryRegisters(overrides, faker, k, Get(built.methods, k).value))
      && (forall o :: o in Options(built.items) <==> exists s :: LibraryRegisters(overrides, faker, o.value, s) && s.option == o)
      && (forall v :: v in OptionValues(built.items) <==> v in Keys(built.methods))
      && DistinctKeys(built.methods)
  {
    var built := ParseRoots(overrides, RootEntries(faker), []);
    RootsGrow(overrides, faker);
    LibraryOptionValues(overrides, faker);
    GrowsFromEmpty(built.methods, built.items, (k, s) => LibraryRegisters(overrides, faker, k, s));
  }

  /** The walk over the kept roots grows the empty map by the library's registrations. */
  lemma RootsGrow(overrides: map<string, Override>, faker: seq<Entry>)
    ensures var built := ParseRoots(overrides, RootEntries(faker), []);
      Grows([], built.methods, built.items, (k, s) => LibraryRegisters(overrides, faker, k, s))
  {
    var roots := RootEntries(faker);
    var built := ParseRoots(overrides, roots, []);
    RootsRegister(overrides, faker, roots);
    GrowsSame([], built.methods, built.items,
              (k, s) => ChildRegisters(overrides, "", roots, None, k, s),
              (k, s) => LibraryRegisters(overrides, faker, k, s));
  }

  /** Visiting the kept roots performs the registrations of the library's kept roots. */
  lemma RootsRegister(overrides: map<string, Override>, faker: seq<Entry>, roots: seq<Entry>)
    requires forall e :: e in roots <==> e in faker && KeepRoot(e.0)
    ensures forall k, s :: ChildRegisters(overrides, "", roots, None, k, s) <==> LibraryRegisters(overrides, faker, k, s)
  {
    forall k, s | ChildRegisters(overrides, "", roots, None, k, s) ensures LibraryRegisters(overrides, faker, k, s) {
      var i :| 0 <= i < |roots| && Registers(overrides, "" + roots[i].0, roots[i].1, None, k, s);
      assert "" + roots[i].0 == roots[i].0;
      assert roots[i] in faker;
      var j :| 0 <= j < |faker| && faker[j] == roots[i];
    }
    forall k, s | LibraryRegisters(overrides, faker, k, s) ensures ChildRegisters(overrides, "", roots, None, k, s) {
      var i :| 0 <= i < |faker| && KeepRoot(faker[i].0) && Registers(overrides, faker[i].0, faker[i].1, None, k, s);
      assert faker[i] in roots;
      var j :| 0 <= j < |roots| && roots[j] == faker[i];
      assert "" + roots[j].0 == roots[j].0;
    }
  }

  /** A walk started from the empty map, whose registrations offer their own key. */
  lemma GrowsFromEmpty(after: Methods, items: seq<OptionNode>, R: (string, Schema) -> bool)
    requires Grows([], after, items, R)
    requires forall k, s :: R(k, s) ==> s.option.value == k
    ensures forall k :: k in Keys(after) <==> exists s :: R(k, s)
    ensures forall k :: k in Keys(after) ==> R(k, Get(after, k).value)
    ensures forall o :: o in Options(items) <==> exists s :: R(o.value, s) && s.option == o
    ensures forall v :: v in OptionValues(items) <==> v in Keys(after)
    ensures DistinctKeys(after)
  {
    forall k | k in Keys(after) ensures R(k, Get(after, k).value) {
      assert Get([], k) == None;
    }
    forall v ensures v in OptionValues(items) <==> v in Keys(after) {
      if v in Keys(after) {
        var s :| R(v, s);
        assert s.option in Options(items);
      }
    }
  }

  /** A registered schema's option has the registered key as its value. */
  lemma {:induction false} RegisteredOptionValue(overrides: map<string, Override>, key: string, node: Node,
                                                 group: Option<string>, k: string, s: Schema)
    requires Registers(overrides, key, node, group, k, s)
    ensures s.option.value == k
    decreases node
  {
    match node
    case Fn(_) =>
    case Obj(es) =>
      var i :| 0 <= i < |es| && Registers(overrides, key + "." + es[i].0, es[i].1, Some(Capitalize(key)), k, s);
      RegisteredOptionValue(overrides, key + "." + es[i].0, es[i].1, Some(Capitalize(key)), k, s);
  }

  lemma LibraryOptionValues(overrides: map<string, Override>, faker: seq<Entry>)
    ensures forall k, s :: LibraryRegisters(overrides, faker, k, s) ==> s.option.value == k
  {
    forall k, s | LibraryRegisters(overrides, faker, k, s) ensures s.option.value == k {
      var i :| 0 <= i < |faker| && KeepRoot(faker[i].0) && Registers(overrides, faker[i].0, faker[i].1, None, k, s);
      RegisteredOptionValue(overrides, faker[i].0, faker[i].1, None, k, s);
    }
  }

  /** `keys()`: the registered keys in registration order. */
  function CatalogKeys(c: Catalog): (ks: seq<string>)
    ensures forall k :: k in ks <==> Get(c.methods, k).Some?
  {
    Keys(c.methods)
  }

  /**
   * `add(key, method)`: sets that one key (the menu is left alone); every
   * other key keeps its schema and `keys()` gains `key` at the end when it is new.
   */
  function Add(c: Catalog, key: string, schema: Schema): (r: Catalog)
    ensures Get(r.methods, key) == Some(schema)
    ensures forall j :: j != key ==> Get(r.methods, j) == Get(c.methods, j)
    ensures CatalogKeys(r) == if key in CatalogKeys(c) then CatalogKeys(c) else CatalogKeys(c) + [key]
    ensures r.options == c.options
  {
    c.(methods := Set(c.methods, key, schema))
  }
}
